/** Decimal numbers, cutting at a separator, blank text and the order used by sort.Strings. */
module Text {
  // ---- decimal numbers, as fmt prints %d ----

  predicate IsDigit(c: char) {
    '0' <= c <= '9'
  }

  function DigitValue(c: char): nat {
    if IsDigit(c) then c as int - '0' as int else 0
  }

  function Digit(d: nat): char
    requires d < 10
  {
    (d + '0' as int) as char
  }

  function Decimal(n: nat): string {
    if n < 10 then [Digit(n)] else Decimal(n / 10) + [Digit(n % 10)]
  }

  function ParseDecimal(s: string): nat {
    if s == [] then 0 else ParseDecimal(s[..|s| - 1]) * 10 + DigitValue(s[|s| - 1])
  }

  function PadZero(s: string, width: nat): string
    decreases width - |s|
  {
    if |s| >= width then s else PadZero(['0'] + s, width)
  }

  lemma {:induction false} DecimalRoundTrip(n: nat)
    ensures |Decimal(n)| > 0 && forall c | c in Decimal(n) :: IsDigit(c)
    ensures ParseDecimal(Decimal(n)) == n
  {
    if n < 10 {
      assert Decimal(n)[..0] == [];
    } else {
      DecimalRoundTrip(n / 10);
      assert Decimal(n)[..|Decimal(n)| - 1] == Decimal(n / 10);
    }
  }

  lemma {:induction false} LeadingZero(s: string)
    ensures ParseDecimal(['0'] + s) == ParseDecimal(s)
  {
    if s == [] {
      assert ['0'] + s == ['0'] && ['0'][..0] == [];
    } else {
      LeadingZero(s[..|s| - 1]);
      assert (['0'] + s)[..|s|] == ['0'] + s[..|s| - 1];
    }
  }

  lemma {:induction false} PadZeroKeepsValue(s: string, width: nat)
    requires forall c | c in s :: IsDigit(c)
    ensures ParseDecimal(PadZero(s, width)) == ParseDecimal(s)
    ensures |PadZero(s, width)| == if |s| >= width then |s| else width
    ensures forall c | c in PadZero(s, width) :: IsDigit(c)
    decreases width - |s|
  {
    if |s| < width {
      LeadingZero(s);
      PadZeroKeepsValue(['0'] + s, width);
    }
  }

  // ---- cutting at a separator ----

  function CutFirst(s: string, c: char): (string, string) {
    if s == [] then ("", "")
    else if s[0] == c then ("", s[1..])
    else var (head, tail) := CutFirst(s[1..], c); ([s[0]] + head, tail)
  }

  function CutLast(s: string, c: char): (string, string) {
    if s == [] then ("", "")
    else if s[|s| - 1] == c then (s[..|s| - 1], "")
    else var (head, tail) := CutLast(s[..|s| - 1], c); (head, tail + [s[|s| - 1]])
  }

  lemma {:induction false} CutFirstOfJoin(a: string, c: char, b: string)
    requires c !in a
    ensures CutFirst(a + [c] + b, c) == (a, b)
  {
    if a == [] {
      assert a + [c] + b == [c] + b;
    } else {
      CutFirstOfJoin(a[1..], c, b);
      assert (a + [c] + b)[1..] == a[1..] + [c] + b;
      assert [a[0]] + a[1..] == a;
    }
  }

  lemma {:induction false} CutLastOfJoin(a: string, c: char, b: string)
    requires c !in b
    ensures CutLast(a + [c] + b, c) == (a, b)
  {
    var s := a + [c] + b;
    if b == [] {
      assert s[..|s| - 1] == a;
    } else {
      var b' := b[..|b| - 1];
      CutLastOfJoin(a, c, b');
      assert s[..|s| - 1] == a + [c] + b';
      assert b' + [b[|b| - 1]] == b;
    }
  }

  // ---- length in octets, as len counts a UTF-8 string ----

  function OctetWidth(c: char): nat {
    if c < '\U{80}' then 1 else if c < '\U{800}' then 2 else if c < '\U{10000}' then 3 else 4
  }

  function Octets(s: string): nat {
    if s == [] then 0 else Octets(s[..|s| - 1]) + OctetWidth(s[|s| - 1])
  }

  // ---- white space, as unicode.IsSpace ----

  predicate IsSpace(c: char) {
    || '\t' <= c <= '\r'
    || c == ' ' || c == '\U{85}' || c == '\U{A0}' || c == '\U{1680}'
    || '\U{2000}' <= c <= '\U{200A}'
    || c == '\U{2028}' || c == '\U{2029}' || c == '\U{202F}' || c == '\U{205F}' || c == '\U{3000}'
  }

  /** strings.TrimSpace(s) == "" */
  predicate Blank(s: string) {
    forall c | c in s :: IsSpace(c)
  }

  function TrimLeftSpace(s: string): string {
    if s != [] && IsSpace(s[0]) then TrimLeftSpace(s[1..]) else s
  }

  function TrimRightSpace(s: string): string {
    if s != [] && IsSpace(s[|s| - 1]) then TrimRightSpace(s[..|s| - 1]) else s
  }

  function TrimSpace(s: string): string {
    TrimRightSpace(TrimLeftSpace(s))
  }

  lemma {:induction false} BlankIffTrimsToNothing(s: string)
    ensures Blank(s) <==> TrimSpace(s) == ""
  {
    TrimLeftKeepsBlankness(s);
    TrimRightKeepsBlankness(TrimLeftSpace(s));
  }

  lemma {:induction false} TrimLeftKeepsBlankness(s: string)
    ensures Blank(s) <==> TrimLeftSpace(s) == ""
    ensures Blank(s) <==> Blank(TrimLeftSpace(s))
  {
    if s != [] && IsSpace(s[0]) {
      TrimLeftKeepsBlankness(s[1..]);
      assert s == [s[0]] + s[1..];
    } else if s != [] {
      assert s[0] in s;
    }
  }

  lemma {:induction false} TrimRightKeepsBlankness(s: string)
    ensures Blank(s) <==> TrimRightSpace(s) == ""
  {
    if s != [] && IsSpace(s[|s| - 1]) {
      TrimRightKeepsBlankness(s[..|s| - 1]);
      assert s == s[..|s| - 1] + [s[|s| - 1]];
    } else if s != [] {
      assert s[|s| - 1] in s;
    }
  }

  // ---- lexicographic order and sorting, as sort.Strings ----

  predicate Less(a: string, b: string) {
    if b == [] then false
    else if a == [] then true
    else a[0] < b[0] || (a[0] == b[0] && Less(a[1..], b[1..]))
  }

  lemma {:induction false} LessTransitive(a: string, b: string, c: string)
    requires Less(a, b) && Less(b, c)
    ensures Less(a, c)
  {
    if a != [] && a[0] == b[0] == c[0] {
      LessTransitive(a[1..], b[1..], c[1..]);
    }
  }

  lemma {:induction false} LessTrichotomy(a: string, b: string)
    ensures Less(a, b) || a == b || Less(b, a)
    ensures !(Less(a, b) && Less(b, a))
    ensures Less(a, b) ==> a != b
  {
    if a != [] && b != [] {
      LessTrichotomy(a[1..], b[1..]);
      if a[0] == b[0] && a[1..] == b[1..] {
        assert a == [a[0]] + a[1..] && b == [b[0]] + b[1..];
      }
    }
  }

  ghost predicate StrictlySorted(s: seq<string>) {
    forall i, j | 0 <= i < j < |s| :: Less(s[i], s[j])
  }

  function Insert(s: seq<string>, x: string): seq<string> {
    if s == [] then [x]
    else if Less(x, s[0]) then [x] + s
    else [s[0]] + Insert(s[1..], x)
  }

  function Sort(s: seq<string>): seq<string> {
    if s == [] then [] else Insert(Sort(s[1..]), s[0])
  }

  lemma {:induction false} InsertElements(s: seq<string>, x: string)
    ensures multiset(Insert(s, x)) == multiset(s) + multiset{x}
  {
    if s != [] && !Less(x, s[0]) {
      InsertElements(s[1..], x);
      assert s == [s[0]] + s[1..];
    }
  }

  lemma {:induction false} InsertStrictlySorted(s: seq<string>, x: string)
    requires StrictlySorted(s) && x !in s
    ensures StrictlySorted(Insert(s, x))
  {
    var r := Insert(s, x);
    if s == [] {
    } else if Less(x, s[0]) {
      forall j | 0 <= j < |s| ensures Less(x, s[j]) {
        if j > 0 { LessTransitive(x, s[0], s[j]); }
      }
    } else {
      InsertStrictlySorted(s[1..], x);
      InsertElements(s[1..], x);
      LessTrichotomy(x, s[0]);
      forall j | 0 < j < |r| ensures Less(r[0], r[j]) {
        assert r[j] in multiset(Insert(s[1..], x));
        assert r[j] in multiset(s[1..]) || r[j] == x;
      }
    }
  }

  ghost predicate Distinct(s: seq<string>) {
    forall i, j | 0 <= i < j < |s| :: s[i] != s[j]
  }

  lemma {:induction false} SortElements(s: seq<string>)
    ensures multiset(Sort(s)) == multiset(s)
    ensures forall x :: x in Sort(s) <==> x in s
  {
    hide Less;
    if s != [] {
      SortElements(s[1..]);
      InsertElements(Sort(s[1..]), s[0]);
      assert s == [s[0]] + s[1..];
    }
    assert forall x :: x in Sort(s) <==> x in multiset(Sort(s));
  }

  /** Sorting a duplicate-free list keeps its elements and puts them in strict order. */
  lemma {:induction false} SortSorts(s: seq<string>)
    requires Distinct(s)
    ensures StrictlySorted(Sort(s))
    ensures multiset(Sort(s)) == multiset(s)
    ensures forall x :: x in Sort(s) <==> x in s
  {
    hide Less, Insert;
    SortElements(s);
    if s != [] {
      SortSorts(s[1..]);
      SortElements(s[1..]);
      InsertStrictlySorted(Sort(s[1..]), s[0]);
    }
  }

  lemma {:induction false} SortOfSorted(s: seq<string>)
    requires StrictlySorted(s)
    ensures Sort(s) == s
  {
    if s != [] {
      SortOfSorted(s[1..]);
      assert s[1..] != [] ==> Less(s[0], s[1]);
    }
  }

  // ---- what the order and the trimming are ----

  /** The 25 characters that are white space. */
  const SPACES := "\t\n\U{0B}\U{0C}\r \U{85}\U{A0}\U{1680}\U{2000}\U{2001}\U{2002}\U{2003}\U{2004}\U{2005}\U{2006}"
                  + "\U{2007}\U{2008}\U{2009}\U{200A}\U{2028}\U{2029}\U{202F}\U{205F}\U{3000}"

  lemma SpacesExactly(c: char)
    ensures IsSpace(c) <==> c in SPACES
  {
  }

  /** Byte order: at the first difference the smaller character comes first, and a prefix before its extensions. */
  lemma {:induction false} LessExactly(a: string, b: string)
    ensures Less(a, b) <==> exists k :: 0 <= k <= |a| && k <= |b| && a[..k] == b[..k] && DiffersDown(a, b, k)
  {
    if Less(a, b) && a != [] && a[0] == b[0] {
      LessExactly(a[1..], b[1..]);
      var k :| 0 <= k <= |a| - 1 && k <= |b| - 1 && a[1..][..k] == b[1..][..k] && DiffersDown(a[1..], b[1..], k);
      assert a[..k + 1] == [a[0]] + a[1..][..k] && b[..k + 1] == [b[0]] + b[1..][..k];
      assert DiffersDown(a, b, k + 1);
    } else if Less(a, b) {
      assert a[..0] == b[..0] && DiffersDown(a, b, 0);
    }
    if k :| 0 <= k <= |a| && k <= |b| && a[..k] == b[..k] && DiffersDown(a, b, k) {
      PrefixThenLess(a, b, k);
    }
  }

  predicate DiffersDown(a: string, b: string, k: nat)
    requires k <= |a| && k <= |b|
  {
    k < |b| && (k == |a| || a[k] < b[k])
  }

  lemma {:induction false} PrefixThenLess(a: string, b: string, k: nat)
    requires k <= |a| && k <= |b| && a[..k] == b[..k] && DiffersDown(a, b, k)
    ensures Less(a, b)
  {
    if k > 0 {
      assert a[0] == a[..k][0] && b[0] == b[..k][0];
      assert a[1..][..k - 1] == a[..k][1..] && b[1..][..k - 1] == b[..k][1..];
      PrefixThenLess(a[1..], b[1..], k - 1);
    }
  }

  /** Trimming removes white space at both ends, all of it, and nothing else. */
  lemma TrimExactly(s: string) returns (front: string, back: string)
    ensures s == front + TrimSpace(s) + back && Blank(front) && Blank(back)
    ensures TrimSpace(s) != "" ==> !IsSpace(TrimSpace(s)[0]) && !IsSpace(TrimSpace(s)[|TrimSpace(s)| - 1])
  {
    front := TrimmedFront(s);
    back := TrimmedBack(TrimLeftSpace(s));
  }

  lemma {:induction false} TrimmedFront(s: string) returns (front: string)
    ensures s == front + TrimLeftSpace(s) && Blank(front)
    ensures TrimLeftSpace(s) != "" ==> !IsSpace(TrimLeftSpace(s)[0])
  {
    if s != [] && IsSpace(s[0]) {
      front := TrimmedFront(s[1..]);
      front := [s[0]] + front;
    } else {
      front := [];
    }
  }

  lemma {:induction false} TrimmedBack(s: string) returns (back: string)
    ensures s == TrimRightSpace(s) + back && Blank(back)
    ensures TrimRightSpace(s) != "" ==> TrimRightSpace(s)[0] == s[0]
    ensures TrimRightSpace(s) != "" ==> !IsSpace(TrimRightSpace(s)[|TrimRightSpace(s)| - 1])
  {
    if s != [] && IsSpace(s[|s| - 1]) {
      back := TrimmedBack(s[..|s| - 1]);
      back := back + [s[|s| - 1]];
    } else {
      back := [];
    }
  }
}
