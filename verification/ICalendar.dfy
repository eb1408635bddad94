/** TEXT escaping and line folding of the calendar feed (sections 3.3.11 and 3.1 of RFC 5545). */
module ICalendar {
  import opened Basics
  import opened Text

  const MAX_OCTETS: nat := 75

  // ---- escaping ----

  /** strings.ReplaceAll for a one-character pattern */
  function ReplaceAll(s: string, c: char, t: string): string {
    if s == [] then [] else (if s[0] == c then t else [s[0]]) + ReplaceAll(s[1..], c, t)
  }

  function Escape(s: string): string {
    var s1 := ReplaceAll(s, '\\', "\\\\");
    var s2 := ReplaceAll(s1, ';', "\\;");
    var s3 := ReplaceAll(s2, ',', "\\,");
    var s4 := ReplaceAll(s3, '\n', "\\n");
    ReplaceAll(s4, '\r', "")
  }

  function EscapeChar(c: char): string {
    if c == '\\' then "\\\\"
    else if c == ';' then "\\;"
    else if c == ',' then "\\,"
    else if c == '\n' then "\\n"
    else if c == '\r' then ""
    else [c]
  }

  function EscapeEach(s: string): string {
    if s == [] then [] else EscapeChar(s[0]) + EscapeEach(s[1..])
  }

  lemma {:induction false} ReplaceAllOfConcat(a: string, b: string, c: char, t: string)
    ensures ReplaceAll(a + b, c, t) == ReplaceAll(a, c, t) + ReplaceAll(b, c, t)
  {
    if a == [] {
      assert a + b == b;
    } else {
      assert (a + b)[1..] == a[1..] + b;
      ReplaceAllOfConcat(a[1..], b, c, t);
    }
  }

  lemma EscapeOfConcat(a: string, b: string)
    ensures Escape(a + b) == Escape(a) + Escape(b)
  {
    var a1, b1 := ReplaceAll(a, '\\', "\\\\"), ReplaceAll(b, '\\', "\\\\");
    var a2, b2 := ReplaceAll(a1, ';', "\\;"), ReplaceAll(b1, ';', "\\;");
    var a3, b3 := ReplaceAll(a2, ',', "\\,"), ReplaceAll(b2, ',', "\\,");
    var a4, b4 := ReplaceAll(a3, '\n', "\\n"), ReplaceAll(b3, '\n', "\\n");
    ReplaceAllOfConcat(a, b, '\\', "\\\\");
    ReplaceAllOfConcat(a1, b1, ';', "\\;");
    ReplaceAllOfConcat(a2, b2, ',', "\\,");
    ReplaceAllOfConcat(a3, b3, '\n', "\\n");
    ReplaceAllOfConcat(a4, b4, '\r', "");
  }

  lemma ReplaceInShort(s: string, c: char, t: string)
    requires |s| <= 2
    ensures ReplaceAll(s, c, t)
            == if s == [] then []
               else if |s| == 1 then (if s[0] == c then t else s)
               else (if s[0] == c then t else [s[0]]) + (if s[1] == c then t else [s[1]])
  {
  }

  lemma EscapeOfOne(c: char)
    ensures Escape([c]) == EscapeChar(c)
  {
    var s1 := ReplaceAll([c], '\\', "\\\\");
    ReplaceInShort([c], '\\', "\\\\");
    var s2 := ReplaceAll(s1, ';', "\\;");
    ReplaceInShort(s1, ';', "\\;");
    var s3 := ReplaceAll(s2, ',', "\\,");
    ReplaceInShort(s2, ',', "\\,");
    var s4 := ReplaceAll(s3, '\n', "\\n");
    ReplaceInShort(s3, '\n', "\\n");
    ReplaceInShort(s4, '\r', "");
  }

  /** The five passes, in their order, are one independent replacement per character. */
  lemma {:induction false} PassesAreOneMap(s: string)
    ensures Escape(s) == EscapeEach(s)
  {
    if s != [] {
      EscapeOfConcat([s[0]], s[1..]);
      assert [s[0]] + s[1..] == s;
      EscapeOfOne(s[0]);
      PassesAreOneMap(s[1..]);
    }
  }

  /** Reading a TEXT value. */
  function Unescape(s: string): string {
    if |s| < 2 || s[0] != '\\' then (if s == [] then [] else [s[0]] + Unescape(s[1..]))
    else if s[1] == 'n' || s[1] == 'N' then ['\n'] + Unescape(s[2..])
    else if s[1] in "\\;," then [s[1]] + Unescape(s[2..])
    else [s[0]] + Unescape(s[1..])
  }

  function WithoutCR(s: string): string {
    if s == [] then [] else (if s[0] == '\r' then [] else [s[0]]) + WithoutCR(s[1..])
  }

  lemma UnescapePlain(c: char, rest: string)
    requires c != '\\'
    ensures Unescape([c] + rest) == [c] + Unescape(rest)
  {
  }

  lemma UnescapePair(c: char, rest: string)
    requires c in "\\;,n"
    ensures Unescape(['\\', c] + rest) == [if c == 'n' then '\n' else c] + Unescape(rest)
  {
  }

  lemma {:induction false} UnescapeOfEscapeEach(s: string)
    ensures Unescape(EscapeEach(s)) == WithoutCR(s)
  {
    if s != [] {
      hide Unescape;
      UnescapeOfEscapeEach(s[1..]);
      var c, rest := s[0], EscapeEach(s[1..]);
      if c in "\\;,\n" {
        UnescapePair(if c == '\n' then 'n' else c, rest);
      } else if c == '\r' {
        assert EscapeEach(s) == rest;
      } else {
        UnescapePlain(c, rest);
      }
    } else {
      assert Unescape([]) == [];
    }
  }

  lemma {:induction false} EscapedTextHasNoLineBreak(s: string)
    ensures '\r' !in EscapeEach(s) && '\n' !in EscapeEach(s)
  {
    if s != [] {
      EscapedTextHasNoLineBreak(s[1..]);
    }
  }

  /** Reading a TEXT value of which nothing reserved may be left bare: no value for one that is not fully escaped. */
  function ReadStrictly(s: string): Option<string> {
    if s == [] then Some([])
    else if s[0] == '\\' then
      if |s| >= 2 && s[1] in "\\;,n" then Prepend(if s[1] == 'n' then '\n' else s[1], ReadStrictly(s[2..])) else None
    else if s[0] in ";,\n\r" then None
    else Prepend(s[0], ReadStrictly(s[1..]))
  }

  function Prepend(c: char, rest: Option<string>): Option<string> {
    if rest.Some? then Some([c] + rest.value) else None
  }

  lemma StrictPlain(c: char, rest: string)
    requires c !in "\\;,\n\r"
    ensures ReadStrictly([c] + rest) == Prepend(c, ReadStrictly(rest))
  {
  }

  lemma StrictPair(c: char, rest: string)
    requires c in "\\;,n"
    ensures ReadStrictly(['\\', c] + rest) == Prepend(if c == 'n' then '\n' else c, ReadStrictly(rest))
  {
  }

  /** Every backslash, semicolon, comma and line feed of the text is escaped, and no other character is. */
  lemma {:induction false} NothingIsLeftBare(s: string)
    ensures ReadStrictly(EscapeEach(s)) == Some(WithoutCR(s))
  {
    if s != [] {
      hide ReadStrictly;
      NothingIsLeftBare(s[1..]);
      var c, rest := s[0], EscapeEach(s[1..]);
      if c in "\\;,\n" {
        StrictPair(if c == '\n' then 'n' else c, rest);
      } else if c == '\r' {
        assert EscapeEach(s) == rest && WithoutCR(s) == WithoutCR(s[1..]);
      } else {
        StrictPlain(c, rest);
      }
    } else {
      assert ReadStrictly([]) == Some([]);
    }
  }

  /** The five passes over the text; what they leave reads back as the text without CR. */
  method IcalEscape(text: string) returns (s: string)
    ensures s == EscapeEach(text)
    ensures Unescape(s) == WithoutCR(text)
    ensures '\r' !in s && '\n' !in s
    ensures ReadStrictly(s) == Some(WithoutCR(text))
  {
    hide Unescape, ReadStrictly;
    NothingIsLeftBare(text);
    s := ReplaceAll(text, '\\', "\\\\");
    s := ReplaceAll(s, ';', "\\;");
    s := ReplaceAll(s, ',', "\\,");
    s := ReplaceAll(s, '\n', "\\n");
    s := ReplaceAll(s, '\r', "");
    PassesAreOneMap(text);
    UnescapeOfEscapeEach(text);
    EscapedTextHasNoLineBreak(text);
  }

  // ---- folding ----

  function FoldFrom(line: string, octets: nat): string {
    if line == [] then []
    else
      var width := OctetWidth(line[0]);
      if octets + width > MAX_OCTETS then "\r\n " + [line[0]] + FoldFrom(line[1..], 1 + width)
      else [line[0]] + FoldFrom(line[1..], octets + width)
  }

  function Fold(line: string): string {
    if Octets(line) <= MAX_OCTETS then line else FoldFrom(line, 0)
  }

  method IcalFold(line: string) returns (folded: string)
    ensures folded == Fold(line)
  {
    if Octets(line) <= MAX_OCTETS {
      return line;
    }
    hide FoldFrom, OctetWidth;
    folded := [];
    var octets: nat := 0;
    assert line[0..] == line;
    for i := 0 to |line|
      invariant FoldFrom(line, 0) == folded + FoldFrom(line[i..], octets)
    {
      var width := OctetWidth(line[i]);
      FoldOneMore(folded, line, i, octets);
      if octets + width > MAX_OCTETS {
        folded := folded + "\r\n ";
        octets := 1;
      }
      folded := folded + [line[i]];
      octets := octets + width;
    }
    NothingToFold(octets);
  }

  lemma FoldOneMore(folded: string, line: string, i: nat, octets: nat)
    requires i < |line|
    ensures var width := OctetWidth(line[i]);
            folded + FoldFrom(line[i..], octets)
            == if octets + width > MAX_OCTETS then folded + "\r\n " + [line[i]] + FoldFrom(line[i + 1..], 1 + width)
               else folded + [line[i]] + FoldFrom(line[i + 1..], octets + width)
  {
    hide FoldFrom, OctetWidth;
    var width := OctetWidth(line[i]);
    assert line[i..][1..] == line[i + 1..];
    FoldFromStep(line[i..], octets);
    if octets + width > MAX_OCTETS {
      Regroup(folded, "\r\n ", [line[i]], FoldFrom(line[i + 1..], 1 + width));
    } else {
      Regroup(folded, "\r\n ", [line[i]], FoldFrom(line[i + 1..], octets + width));
    }
  }

  lemma Regroup(a: string, b: string, c: string, d: string)
    ensures a + (b + (c + d)) == a + b + c + d && a + (c + d) == a + c + d
  {
  }

  lemma NothingToFold(octets: nat)
    ensures FoldFrom([], octets) == []
  {
  }

  /** Reading a content line: a line break followed by a space or a tab is removed. */
  function Unfold(s: string): string {
    if s == [] then []
    else if |s| >= 3 && s[0] == '\r' && s[1] == '\n' && s[2] in " \t" then Unfold(s[3..])
    else [s[0]] + Unfold(s[1..])
  }

  lemma UnfoldPlain(c: char, rest: string)
    requires c != '\r'
    ensures Unfold([c] + rest) == [c] + Unfold(rest)
  {
  }

  lemma UnfoldBreak(rest: string)
    ensures Unfold("\r\n " + rest) == Unfold(rest)
  {
  }

  lemma UnfoldCharAfterBreak(c: char, rest: string)
    requires c != '\r'
    ensures Unfold("\r\n " + ([c] + rest)) == [c] + Unfold(rest)
  {
    hide Unfold;
    UnfoldBreak([c] + rest);
    UnfoldPlain(c, rest);
  }

  lemma {:induction false} UnfoldOfFoldFrom(line: string, octets: nat)
    requires '\r' !in line
    ensures Unfold(FoldFrom(line, octets)) == line
    decreases |line|
  {
    hide Unfold, FoldFrom, OctetWidth;
    if line == [] {
      NothingToFold(octets);
      assert Unfold([]) == [] by { UnfoldOfPlain([]); }
    } else {
      var c, width := line[0], OctetWidth(line[0]);
      FoldFromStep(line, octets);
      if octets + width > MAX_OCTETS {
        UnfoldOfFoldFrom(line[1..], 1 + width);
        UnfoldCharAfterBreak(c, FoldFrom(line[1..], 1 + width));
      } else {
        UnfoldOfFoldFrom(line[1..], octets + width);
        UnfoldPlain(c, FoldFrom(line[1..], octets + width));
      }
    }
  }

  lemma {:induction false} UnfoldOfPlain(line: string)
    requires '\r' !in line
    ensures Unfold(line) == line
  {
    if line != [] {
      UnfoldOfPlain(line[1..]);
    }
  }

  // ---- physical lines ----

  /** The lines of a text, cut at each CR LF. */
  function Lines(s: string): (r: seq<string>)
    ensures r != []
  {
    if s == [] then [""]
    else if |s| >= 2 && s[0] == '\r' && s[1] == '\n' then [""] + Lines(s[2..])
    else var rest := Lines(s[1..]); [[s[0]] + rest[0]] + rest[1..]
  }

  ghost predicate LinesFit(lines: seq<string>, used: nat) {
    && lines != [] && used + Octets(lines[0]) <= MAX_OCTETS
    && forall i | 0 < i < |lines| :: Octets(lines[i]) <= MAX_OCTETS && lines[i] != "" && lines[i][0] == ' '
  }

  lemma {:induction false} OctetsOfCons(c: char, s: string)
    ensures Octets([c] + s) == OctetWidth(c) + Octets(s)
  {
    if s == [] {
      assert [c] + s == [c] && [c][..0] == [];
    } else {
      OctetsOfCons(c, s[..|s| - 1]);
      assert ([c] + s)[..|s|] == [c] + s[..|s| - 1];
    }
  }

  lemma LinesPlain(c: char, rest: string)
    requires c != '\r' || rest == [] || rest[0] != '\n'
    ensures Lines([c] + rest) == [[c] + Lines(rest)[0]] + Lines(rest)[1..]
  {
  }

  lemma LinesBreak(rest: string)
    ensures Lines("\r\n" + rest) == [""] + Lines(rest)
  {
  }

  lemma FitPlain(c: char, lines: seq<string>, used: nat)
    requires LinesFit(lines, used + OctetWidth(c))
    ensures LinesFit([[c] + lines[0]] + lines[1..], used)
  {
    OctetsOfCons(c, lines[0]);
  }

  lemma FitBreak(lines: seq<string>, used: nat)
    requires LinesFit(lines, 1) && used <= MAX_OCTETS
    ensures LinesFit([""] + ([[' '] + lines[0]] + lines[1..]), used)
  {
    FitPlain(' ', lines, 0);
  }

  lemma CharFits(c: char, rest: string, used: nat)
    requires c != '\r' && LinesFit(Lines(rest), used + OctetWidth(c))
    ensures LinesFit(Lines([c] + rest), used)
  {
    hide Lines, LinesFit, OctetWidth;
    LinesPlain(c, rest);
    FitPlain(c, Lines(rest), used);
  }

  lemma BreakFits(rest: string, used: nat)
    requires LinesFit(Lines(rest), 1) && used <= MAX_OCTETS
    ensures LinesFit(Lines("\r\n " + rest), used)
  {
    hide Lines, LinesFit;
    LinesPlain(' ', rest);
    LinesBreak([' '] + rest);
    FitBreak(Lines(rest), used);
    assert "\r\n " + rest == "\r\n" + ([' '] + rest);
  }

  lemma FoldFromStep(line: string, octets: nat)
    requires line != []
    ensures var c, width := line[0], OctetWidth(line[0]);
            FoldFrom(line, octets)
            == if octets + width > MAX_OCTETS then "\r\n " + ([c] + FoldFrom(line[1..], 1 + width))
               else [c] + FoldFrom(line[1..], octets + width)
  {
  }

  lemma BreakAndCharFit(c: char, rest: string, used: nat)
    requires c != '\r' && used <= MAX_OCTETS && LinesFit(Lines(rest), 1 + OctetWidth(c))
    ensures LinesFit(Lines("\r\n " + ([c] + rest)), used)
  {
    hide Lines, LinesFit, OctetWidth;
    CharFits(c, rest, 1);
    BreakFits([c] + rest, used);
  }

  lemma {:induction false} FoldedLinesFit(line: string, octets: nat)
    requires '\r' !in line && octets <= MAX_OCTETS
    ensures LinesFit(Lines(FoldFrom(line, octets)), octets)
    decreases |line|
  {
    hide Lines, LinesFit, OctetWidth, FoldFrom;
    if line == [] {
      NothingToFold(octets);
      EmptyLine(octets);
    } else {
      assert line[0] in line && forall x | x in line[1..] :: x in line;
      var c, width := line[0], OctetWidth(line[0]);
      WidthRange(c);
      FoldFromStep(line, octets);
      if octets + width > MAX_OCTETS {
        FoldedLinesFit(line[1..], 1 + width);
        BreakAndCharFit(c, FoldFrom(line[1..], 1 + width), octets);
      } else {
        FoldedLinesFit(line[1..], octets + width);
        CharFits(c, FoldFrom(line[1..], octets + width), octets);
      }
    }
  }

  lemma EmptyLine(used: nat)
    ensures LinesFull(Lines([]), used)
    ensures used <= MAX_OCTETS ==> LinesFit(Lines([]), used)
  {
    assert Lines([]) == [""];
  }

  lemma WidthRange(c: char)
    ensures 1 <= OctetWidth(c) <= 4
  {
  }

  lemma {:induction false} PlainIsOneLine(line: string)
    requires '\r' !in line
    ensures Lines(line) == [line]
  {
    if line != [] {
      PlainIsOneLine(line[1..]);
      LinesPlain(line[0], line[1..]);
      assert [line[0]] + line[1..] == line;
    }
  }

  // ---- lines are broken only when they are full ----

  /** The next line's first character would not have fitted any more. */
  ghost predicate LinesFull(lines: seq<string>, used: nat) {
    && lines != []
    && forall i | 0 < i < |lines| ::
         |lines[i]| >= 2 && (if i == 1 then used else 0) + Octets(lines[i - 1]) + OctetWidth(lines[i][1]) > MAX_OCTETS
  }

  lemma CharStaysFull(c: char, rest: string, used: nat)
    requires c != '\r' && LinesFull(Lines(rest), used + OctetWidth(c))
    ensures LinesFull(Lines([c] + rest), used)
  {
    hide Lines, OctetWidth, Octets;
    LinesPlain(c, rest);
    OctetsOfCons(c, Lines(rest)[0]);
  }

  lemma BreakIsFull(c: char, rest: string, used: nat)
    requires c != '\r' && used + OctetWidth(c) > MAX_OCTETS && LinesFull(Lines(rest), 1 + OctetWidth(c))
    ensures LinesFull(Lines("\r\n " + ([c] + rest)), used)
  {
    hide Lines, OctetWidth, LinesFull;
    WidthRange(' ');
    SpaceIsOneOctet();
    CharStaysFull(c, rest, 1);
    CharStaysFull(' ', [c] + rest, 0);
    LinesPlain(c, rest);
    LinesPlain(' ', [c] + rest);
    LinesBreak([' '] + ([c] + rest));
    assert "\r\n " + ([c] + rest) == "\r\n" + ([' '] + ([c] + rest));
    FirstLineFull(Lines([' '] + ([c] + rest)), c, used);
  }

  lemma SpaceIsOneOctet()
    ensures OctetWidth(' ') == 1
  {
  }

  lemma FirstLineFull(lines: seq<string>, c: char, used: nat)
    requires LinesFull(lines, 0) && |lines[0]| >= 2 && lines[0][1] == c && used + OctetWidth(c) > MAX_OCTETS
    ensures LinesFull([""] + lines, used)
  {
    hide OctetWidth;
    assert Octets("") == 0;
  }

  /** A line is broken only where its next character would not fit into 75 octets. */
  lemma {:induction false} FoldedLinesAreFull(line: string, octets: nat)
    requires '\r' !in line
    ensures LinesFull(Lines(FoldFrom(line, octets)), octets)
    decreases |line|
  {
    hide Lines, LinesFull, OctetWidth, FoldFrom;
    if line == [] {
      NothingToFold(octets);
      EmptyLine(octets);
    } else {
      assert line[0] in line && forall x | x in line[1..] :: x in line;
      var c, width := line[0], OctetWidth(line[0]);
      FoldFromStep(line, octets);
      if octets + width > MAX_OCTETS {
        FoldedLinesAreFull(line[1..], 1 + width);
        BreakIsFull(c, FoldFrom(line[1..], 1 + width), octets);
      } else {
        FoldedLinesAreFull(line[1..], octets + width);
        CharStaysFull(c, FoldFrom(line[1..], octets + width), octets);
      }
    }
  }

  /** Any line: it is broken at all only if it is longer than 75 octets, and then only into full lines. */
  lemma FoldExactly(line: string)
    requires '\r' !in line
    ensures Fold(line) == line <==> Octets(line) <= 75
    ensures LinesFull(Lines(Fold(line)), 0) && LinesFit(Lines(Fold(line)), 0) && Unfold(Fold(line)) == line
  {
    hide Lines, LinesFull, LinesFit, FoldFrom, Unfold, Octets;
    if Octets(line) <= MAX_OCTETS {
      PlainIsOneLine(line);
      UnfoldOfPlain(line);
      OneLineIsFull(line);
    } else {
      FoldedLinesAreFull(line, 0);
      FoldedLinesFit(line, 0);
      UnfoldOfFoldFrom(line, 0);
      PlainIsOneLine(line);
      OneLineIsFull(line);
    }
  }

  lemma OneLineIsFull(line: string)
    ensures LinesFull([line], 0) && (LinesFit([line], 0) <==> Octets(line) <= MAX_OCTETS)
  {
  }

  // ---- the octets on the wire ----

  function Utf8(c: char): (r: seq<byte>)
    ensures |r| == OctetWidth(c)
    ensures c >= '\U{80}' ==> forall b | b in r :: b >= 0x80
  {
    var n := c as int;
    if c < '\U{80}' then [n]
    else if c < '\U{800}' then [0xC0 + n / 0x40, 0x80 + n % 0x40]
    else if c < '\U{10000}' then [0xE0 + n / 0x1000, 0x80 + n / 0x40 % 0x40, 0x80 + n % 0x40]
    else [0xF0 + n / 0x40000, 0x80 + n / 0x1000 % 0x40, 0x80 + n / 0x40 % 0x40, 0x80 + n % 0x40]
  }

  function Encode(s: string): seq<byte> {
    if s == [] then [] else Utf8(s[0]) + Encode(s[1..])
  }

  /** The physical lines of the octets on the wire. */
  function ByteLines(bs: seq<byte>): (r: seq<seq<byte>>)
    ensures r != []
  {
    if bs == [] then [[]]
    else if |bs| >= 2 && bs[0] == 13 && bs[1] == 10 then [[]] + ByteLines(bs[2..])
    else var rest := ByteLines(bs[1..]); [[bs[0]] + rest[0]] + rest[1..]
  }

  function EncodeAll(lines: seq<string>): seq<seq<byte>> {
    seq(|lines|, i requires 0 <= i < |lines| => Encode(lines[i]))
  }

  lemma {:induction false} OctetsAreBytes(s: string)
    ensures |Encode(s)| == Octets(s)
  {
    if s != [] {
      OctetsAreBytes(s[1..]);
      OctetsOfCons(s[0], s[1..]);
      assert [s[0]] + s[1..] == s;
    }
  }

  lemma ByteLinesPlain(b: byte, rest: seq<byte>)
    requires b != 13 || rest == [] || rest[0] != 10
    ensures ByteLines([b] + rest) == [[b] + ByteLines(rest)[0]] + ByteLines(rest)[1..]
  {
  }

  lemma ByteLinesBreak(rest: seq<byte>)
    ensures ByteLines([13, 10] + rest) == [[]] + ByteLines(rest)
  {
  }

  lemma {:induction false} PlainBytesJoinTheLine(a: seq<byte>, bs: seq<byte>)
    requires forall k | 0 <= k < |a| :: a[k] != 13
    ensures ByteLines(a + bs) == [a + ByteLines(bs)[0]] + ByteLines(bs)[1..]
  {
    if a == [] {
      assert a + bs == bs;
      assert a + ByteLines(bs)[0] == ByteLines(bs)[0];
    } else {
      PlainBytesJoinTheLine(a[1..], bs);
      ByteLinesPlain(a[0], a[1..] + bs);
      assert a + bs == [a[0]] + (a[1..] + bs);
      assert [a[0]] + (a[1..] + ByteLines(bs)[0]) == a + ByteLines(bs)[0];
    }
  }

  lemma EncodeOfCons(c: char, rest: string)
    ensures Encode([c] + rest) == Utf8(c) + Encode(rest)
  {
  }

  lemma BreakAligns(rest: string)
    requires ByteLines(Encode(rest)) == EncodeAll(Lines(rest))
    ensures ByteLines(Encode("\r\n" + rest)) == EncodeAll(Lines("\r\n" + rest))
  {
    hide Lines, ByteLines;
    assert "\r\n" + rest == ['\r'] + (['\n'] + rest);
    EncodeOfCons('\r', ['\n'] + rest);
    EncodeOfCons('\n', rest);
    assert Encode("\r\n" + rest) == [13, 10] + Encode(rest);
    LinesBreak(rest);
    ByteLinesBreak(Encode(rest));
    assert EncodeAll([""] + Lines(rest)) == [[]] + EncodeAll(Lines(rest));
  }

  lemma CharAligns(c: char, rest: string)
    requires c != '\r' || rest == [] || rest[0] != '\n'
    requires ByteLines(Encode(rest)) == EncodeAll(Lines(rest))
    ensures ByteLines(Encode([c] + rest)) == EncodeAll(Lines([c] + rest))
  {
    hide Lines, ByteLines, Encode, Utf8;
    EncodeOfCons(c, rest);
    LinesPlain(c, rest);
    BytesPlain(c, rest);
    EncodeOfCons(c, Lines(rest)[0]);
    var lines := Lines(rest);
    assert EncodeAll([[c] + lines[0]] + lines[1..]) == [Encode([c] + lines[0])] + EncodeAll(lines)[1..];
  }

  /** Cutting the octets into lines and cutting the text into lines is the same: no code point is split. */
  lemma {:induction false} LinesNeverSplitACodePoint(s: string)
    ensures ByteLines(Encode(s)) == EncodeAll(Lines(s))
  {
    if s == [] {
      assert EncodeAll([""]) == [[]];
    } else if |s| >= 2 && s[0] == '\r' && s[1] == '\n' {
      LinesNeverSplitACodePoint(s[2..]);
      BreakAligns(s[2..]);
      assert s == "\r\n" + s[2..];
    } else {
      LinesNeverSplitACodePoint(s[1..]);
      CharAligns(s[0], s[1..]);
      assert s == [s[0]] + s[1..];
    }
  }

  lemma BytesPlain(c: char, rest: string)
    requires c != '\r' || rest == [] || rest[0] != '\n'
    ensures ByteLines(Utf8(c) + Encode(rest)) == [Utf8(c) + ByteLines(Encode(rest))[0]] + ByteLines(Encode(rest))[1..]
  {
    hide ByteLines;
    if c == '\r' {
      FirstByte(rest);
      ByteLinesPlain(13, Encode(rest));
      assert Utf8(c) == [13];
    } else {
      PlainBytesJoinTheLine(Utf8(c), Encode(rest));
    }
  }

  lemma FirstByte(s: string)
    requires s == [] || s[0] != '\n'
    ensures Encode(s) == [] || Encode(s)[0] != 10
  {
  }

  /**
   * A property line of the feed: whatever the text, every physical line on the wire has at most 75
   * octets and is itself well-formed UTF-8, and a reader gets the text back without its CRs.
   */
  lemma FeedLineReadsBack(name: string, text: string)
    requires '\r' !in name
    ensures var line := Fold(name + Escape(text));
            && Unfold(line) == name + Escape(text)
            && Unescape(Escape(text)) == WithoutCR(text)
            && ByteLines(Encode(line)) == EncodeAll(Lines(line))
            && forall i | 0 <= i < |ByteLines(Encode(line))| :: |ByteLines(Encode(line))[i]| <= MAX_OCTETS
  {
    var plain := name + Escape(text);
    var line := Fold(plain);
    PassesAreOneMap(text);
    UnescapeOfEscapeEach(text);
    EscapedTextHasNoLineBreak(text);
    LinesNeverSplitACodePoint(line);
    if Octets(plain) <= MAX_OCTETS {
      UnfoldOfPlain(plain);
      PlainIsOneLine(plain);
    } else {
      UnfoldOfFoldFrom(plain, 0);
      FoldedLinesFit(plain, 0);
    }
    forall i | 0 <= i < |Lines(line)| ensures |EncodeAll(Lines(line))[i]| <= MAX_OCTETS {
      OctetsAreBytes(Lines(line)[i]);
    }
  }

  /** The code point its octets stand for: the low bits of each, in their order. */
  function CodePoint(bs: seq<byte>): int
    requires 1 <= |bs| <= 4
  {
    var lead: int := bs[0];
    if |bs| == 1 then lead
    else if |bs| == 2 then (lead - 0xC0) * 0x40 + Low(bs[1])
    else if |bs| == 3 then ((lead - 0xE0) * 0x40 + Low(bs[1])) * 0x40 + Low(bs[2])
    else (((lead - 0xF0) * 0x40 + Low(bs[1])) * 0x40 + Low(bs[2])) * 0x40 + Low(bs[3])
  }

  function Low(b: byte): int {
    b as int - 0x80
  }

  /** The encoding is UTF-8: a lead octet that says how many follow, and the code point in their low bits. */
  lemma Utf8Exactly(c: char)
    ensures var bs := Utf8(c);
            && 1 <= |bs| <= 4 && CodePoint(bs) == c as int
            && (|bs| == 1 ==> bs[0] < 0x80) && (|bs| == 2 ==> 0xC0 <= bs[0] < 0xE0)
            && (|bs| == 3 ==> 0xE0 <= bs[0] < 0xF0) && (|bs| == 4 ==> 0xF0 <= bs[0] < 0xF8)
            && forall k | 0 < k < |bs| :: 0x80 <= bs[k] < 0xC0
  {
    var n := c as int;
    SixBits(n);
    SixBits(n / 0x40);
    SixBits(n / 0x1000);
    Shifts(n);
  }

  lemma SixBits(n: nat)
    ensures n == n / 0x40 * 0x40 + n % 0x40
  {
  }

  lemma Shifts(n: nat)
    ensures n / 0x40 / 0x40 == n / 0x1000 && n / 0x1000 / 0x40 == n / 0x40000
  {
  }
}
