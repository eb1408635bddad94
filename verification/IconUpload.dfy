/**
 * Rebuilding an uploaded ICO file: read the directory, clean each PNG image, write a new file
 * that holds nothing but the cleaned images.
 */
module IconUpload {
  import opened Basics

  const MAX_UINT16 := 0xFFFF
  const MAX_UINT32 := 0xFFFF_FFFF

  datatype IconError = InvalidICO

  /** A decoded and re-encoded PNG; decoding and encoding are not part of this model. */
  datatype Picture = Picture(width: int, height: int, data: seq<byte>)

  type Cleaner = seq<byte> -> Option<Picture>

  /** Re-encoding yields a PNG, and is stable on its own output. */
  ghost predicate Stable(clean: Cleaner) {
    forall d: seq<byte> | clean(d).Some? ::
      HasPNGSignature(clean(d).value.data) && clean(clean(d).value.data) == clean(d)
  }

  predicate HasPNGSignature(buf: seq<byte>) {
    |buf| >= 8 && buf[..8] == [0x89, 0x50, 0x4E, 0x47, 0x0D, 0x0A, 0x1A, 0x0A]
  }

  predicate HasICOSignature(buf: seq<byte>) {
    |buf| >= 6 && buf[0] == 0 && buf[1] == 0 && buf[2] == 1 && buf[3] == 0
  }

  // ---- little-endian numbers ----

  function ReadU16(buf: seq<byte>, i: nat): nat
    requires i + 2 <= |buf|
  {
    buf[i] as int + 256 * buf[i + 1] as int
  }

  function ReadU32(buf: seq<byte>, i: nat): nat
    requires i + 4 <= |buf|
  {
    buf[i] as int + 256 * buf[i + 1] as int + 0x10000 * buf[i + 2] as int + 0x100_0000 * buf[i + 3] as int
  }

  function U16(v: nat): seq<byte> {
    [v % 256, v / 256 % 256]
  }

  function U32(v: nat): seq<byte> {
    [v % 256, v / 256 % 256, v / 0x10000 % 256, v / 0x100_0000 % 256]
  }

  lemma U32RoundTrip(v: nat)
    requires v <= MAX_UINT32
    ensures ReadU32(U32(v), 0) == v
  {
    var q := v / 256;
    assert v / 0x10000 == q / 256 && v / 0x100_0000 == q / 256 / 256;
  }

  // ---- reading ----

  datatype Entry = Entry(width: byte, height: byte, data: seq<byte>)

  function DimensionByte(size: int): byte
    requires size > 0
  {
    if size >= 256 then 0 else size
  }

  function DirLen(count: nat): nat {
    6 + 16 * count
  }

  /** The image a directory entry points at, cleaned; None if the entry is skipped. */
  function EntryAt(buf: seq<byte>, clean: Cleaner, count: nat, i: nat): Option<Entry>
    requires i < count && DirLen(count) <= |buf|
  {
    var at := DirLen(i);
    var size, offset := ReadU32(buf, at + 8), ReadU32(buf, at + 12);
    if size <= 0 || offset < DirLen(count) || offset + size > |buf| then None
    else
      var data := buf[offset..offset + size];
      if !HasPNGSignature(data) then None
      else
        match clean(data)
        case None => None
        case Some(p) =>
          if p.width <= 0 || p.height <= 0 then None
          else Some(Entry(DimensionByte(p.width), DimensionByte(p.height), p.data))
  }

  function ValidEntries(buf: seq<byte>, clean: Cleaner, count: nat, n: nat): seq<Entry>
    requires n <= count && DirLen(count) <= |buf|
  {
    if n == 0 then []
    else
      var rest := ValidEntries(buf, clean, count, n - 1);
      match EntryAt(buf, clean, count, n - 1)
      case None => rest
      case Some(e) => rest + [e]
  }

  // ---- writing ----

  function Offset(entries: seq<Entry>, k: nat): nat
    requires k <= |entries|
  {
    if k == 0 then DirLen(|entries|) else Offset(entries, k - 1) + |entries[k - 1].data|
  }

  predicate EntryFits(entries: seq<Entry>, k: nat)
    requires k < |entries|
  {
    |entries[k].data| <= MAX_UINT32 && Offset(entries, k) <= MAX_UINT32
  }

  predicate Fits(entries: seq<Entry>) {
    |entries| <= MAX_UINT16 && forall k: nat | k < |entries| :: EntryFits(entries, k)
  }

  function DirEntry(e: Entry, offset: nat): (r: seq<byte>)
    ensures |r| == 16
  {
    [e.width, e.height, 0, 0] + U16(1) + U16(32) + U32(|e.data|) + U32(offset)
  }

  function Directory(entries: seq<Entry>, k: nat): (r: seq<byte>)
    requires k <= |entries|
    ensures |r| == 16 * k
  {
    if k == 0 then [] else Directory(entries, k - 1) + DirEntry(entries[k - 1], Offset(entries, k - 1))
  }

  function Payload(entries: seq<Entry>, k: nat): seq<byte>
    requires k <= |entries|
  {
    if k == 0 then [] else Payload(entries, k - 1) + entries[k - 1].data
  }

  function Header(count: nat): seq<byte> {
    [0, 0] + U16(1) + U16(count)
  }

  function Build(entries: seq<Entry>): seq<byte> {
    Header(|entries|) + Directory(entries, |entries|) + Payload(entries, |entries|)
  }

  function SanitizeICO(buf: seq<byte>, clean: Cleaner): Result<seq<byte>, IconError>
    requires |buf| >= 6
  {
    var count := ReadU16(buf, 4);
    if count <= 0 || |buf| < DirLen(count) then Err(InvalidICO)
    else
      var entries := ValidEntries(buf, clean, count, count);
      if entries == [] || !Fits(entries) then Err(InvalidICO) else Ok(Build(entries))
  }

  // ---- the loops ----

  method PutUint16(b: array<byte>, i: nat, v: nat)
    requires i + 2 <= b.Length
    modifies b
    ensures b[..] == old(b[..i]) + U16(v) + old(b[i + 2..])
  {
    b[i], b[i + 1] := v % 256, v / 256 % 256;
  }

  method PutUint32(b: array<byte>, i: nat, v: nat)
    requires i + 4 <= b.Length
    modifies b
    ensures b[..] == old(b[..i]) + U32(v) + old(b[i + 4..])
  {
    b[i], b[i + 1], b[i + 2], b[i + 3] := v % 256, v / 256 % 256, v / 0x10000 % 256, v / 0x100_0000 % 256;
  }

  method CollectEntries(buf: seq<byte>, clean: Cleaner, count: nat) returns (entries: seq<Entry>)
    requires DirLen(count) <= |buf|
    ensures entries == ValidEntries(buf, clean, count, count)
  {
    hide ReadU32, HasPNGSignature, DimensionByte;
    entries := [];
    for i := 0 to count
      invariant entries == ValidEntries(buf, clean, count, i)
    {
      var at := DirLen(i);
      var size, offset := ReadU32(buf, at + 8), ReadU32(buf, at + 12);
      if size <= 0 || offset < DirLen(count) || offset + size > |buf| {
        continue;
      }
      var data := buf[offset..offset + size];
      if !HasPNGSignature(data) {
        continue;
      }
      var p := clean(data);
      if p.None? || p.value.width <= 0 || p.value.height <= 0 {
        continue;
      }
      entries := entries + [Entry(DimensionByte(p.value.width), DimensionByte(p.value.height), p.value.data)];
    }
  }

  method FillEntry(entry: array<byte>, e: Entry, offset: nat)
    requires entry.Length == 16
    modifies entry
    ensures entry[..] == DirEntry(e, offset)
  {
    for i := 0 to 16
      invariant forall j | 0 <= j < i :: entry[j] == 0
    {
      entry[i] := 0;
    }
    entry[0], entry[1] := e.width, e.height;
    PutUint16(entry, 4, 1);
    PutUint16(entry, 6, 32);
    PutUint32(entry, 8, |e.data|);
    PutUint32(entry, 12, offset);
  }

  method WriteDirectory(entries: seq<Entry>) returns (ok: bool, out: seq<byte>)
    ensures ok <==> forall k: nat | k < |entries| :: EntryFits(entries, k)
    ensures ok ==> out == Header(|entries|) + Directory(entries, |entries|)
  {
    hide Header, DirEntry;
    out := WriteHeader(|entries|);
    var dataOffset := DirLen(|entries|);
    var entry := new byte[16];
    for k := 0 to |entries|
      invariant out == Header(|entries|) + Directory(entries, k)
      invariant dataOffset == Offset(entries, k)
      invariant forall j: nat | j < k :: EntryFits(entries, j)
    {
      if |entries[k].data| > MAX_UINT32 || dataOffset > MAX_UINT32 {
        assert !EntryFits(entries, k);
        return false, out;
      }
      FillEntry(entry, entries[k], dataOffset);
      out := out + entry[..];
      dataOffset := dataOffset + |entries[k].data|;
    }
    return true, out;
  }

  method WriteHeader(count: nat) returns (out: seq<byte>)
    ensures out == Header(count)
  {
    var header := new byte[6](_ => 0);
    PutUint16(header, 2, 1);
    PutUint16(header, 4, count);
    out := header[..];
  }

  method SanitizeICOFile(buf: seq<byte>, clean: Cleaner) returns (r: Result<seq<byte>, IconError>)
    requires |buf| >= 6
    ensures r == SanitizeICO(buf, clean)
  {
    hide Header, Directory, EntryFits, ReadU16, ValidEntries;
    var count := ReadU16(buf, 4);
    if count <= 0 || |buf| < DirLen(count) {
      return Err(InvalidICO);
    }
    var entries := CollectEntries(buf, clean, count);
    if entries == [] || |entries| > MAX_UINT16 {
      return Err(InvalidICO);
    }
    var ok, out := WriteDirectory(entries);
    if !ok {
      return Err(InvalidICO);
    }
    for k := 0 to |entries|
      invariant out == Header(|entries|) + Directory(entries, |entries|) + Payload(entries, k)
    {
      out := out + entries[k].data;
    }
    return Ok(out);
  }

  // ---- reading back what was written ----

  lemma {:induction false} DirectorySlice(entries: seq<Entry>, n: nat, i: nat)
    requires i < n <= |entries|
    ensures Directory(entries, n)[16 * i..16 * (i + 1)] == DirEntry(entries[i], Offset(entries, i))
  {
    hide DirEntry, Offset;
    if i < n - 1 {
      DirectorySlice(entries, n - 1, i);
      assert Directory(entries, n)[16 * i..16 * (i + 1)] == Directory(entries, n - 1)[16 * i..16 * (i + 1)];
    }
  }

  lemma {:induction false} PayloadSlice(entries: seq<Entry>, n: nat, i: nat)
    requires i < n <= |entries|
    ensures |Payload(entries, n)| == Offset(entries, n) - DirLen(|entries|)
    ensures var from := Offset(entries, i) - DirLen(|entries|);
            0 <= from && from + |entries[i].data| <= |Payload(entries, n)|
            && Payload(entries, n)[from..from + |entries[i].data|] == entries[i].data
  {
    if i == n - 1 {
      PayloadLength(entries, i);
    } else {
      PayloadSlice(entries, n - 1, i);
      var from := Offset(entries, i) - DirLen(|entries|);
      assert Payload(entries, n)[from..from + |entries[i].data|]
             == Payload(entries, n - 1)[from..from + |entries[i].data|];
    }
  }

  lemma {:induction false} PayloadLength(entries: seq<Entry>, k: nat)
    requires k <= |entries|
    ensures |Payload(entries, k)| == Offset(entries, k) - DirLen(|entries|)
  {
    if k > 0 {
      PayloadLength(entries, k - 1);
    }
  }

  /**
   * The rebuilt file reads back as exactly the images that went in, in order, and their data tiles
   * the file from the end of the directory to its last byte with no gap or overlap.
   */
  lemma RebuiltFileReadsBack(entries: seq<Entry>, i: nat)
    requires Fits(entries) && i < |entries|
    ensures var out, at := Build(entries), DirLen(i);
            && HasICOSignature(out) && ReadU16(out, 4) == |entries|
            && at + 16 <= DirLen(|entries|) <= |out|
            && out[at] == entries[i].width && out[at + 1] == entries[i].height
            && ReadU32(out, at + 8) == |entries[i].data| && ReadU32(out, at + 12) == Offset(entries, i)
            && Offset(entries, i) + |entries[i].data| <= |out|
            && out[Offset(entries, i)..Offset(entries, i) + |entries[i].data|] == entries[i].data
    ensures Offset(entries, 0) == DirLen(|entries|) && Offset(entries, |entries|) == |Build(entries)|
    ensures Offset(entries, i + 1) == Offset(entries, i) + |entries[i].data|
  {
    hide Build, DirEntry, ReadU32, HasICOSignature, ReadU16;
    assert EntryFits(entries, i);
    HeaderOfBuild(entries);
    DirectoryOfBuild(entries, i);
    PayloadOfBuild(entries, i);
    SliceReads(Build(entries), DirLen(i), entries[i], Offset(entries, i));
  }

  lemma HeaderOfBuild(entries: seq<Entry>)
    requires |entries| <= MAX_UINT16
    ensures |Build(entries)| >= 6 && HasICOSignature(Build(entries)) && ReadU16(Build(entries), 4) == |entries|
  {
  }

  lemma DirectoryOfBuild(entries: seq<Entry>, i: nat)
    requires i < |entries|
    ensures DirLen(i) + 16 <= DirLen(|entries|) <= |Build(entries)|
    ensures Build(entries)[DirLen(i)..DirLen(i) + 16] == DirEntry(entries[i], Offset(entries, i))
  {
    hide DirEntry, Payload, Offset;
    DirectorySlice(entries, |entries|, i);
    var dir := Directory(entries, |entries|);
    assert |Header(|entries|)| == 6;
    assert Build(entries)[DirLen(i)..DirLen(i) + 16] == dir[16 * i..16 * (i + 1)];
  }

  lemma PayloadOfBuild(entries: seq<Entry>, i: nat)
    requires i < |entries|
    ensures Offset(entries, |entries|) == |Build(entries)|
    ensures DirLen(|entries|) <= Offset(entries, i) && Offset(entries, i) + |entries[i].data| <= |Build(entries)|
    ensures Build(entries)[Offset(entries, i)..Offset(entries, i) + |entries[i].data|] == entries[i].data
  {
    hide Directory, Payload, Offset;
    PayloadSlice(entries, |entries|, i);
    var from, size := Offset(entries, i) - DirLen(|entries|), |entries[i].data|;
    var front := Header(|entries|) + Directory(entries, |entries|);
    assert |front| == DirLen(|entries|);
    SliceAfter(front, Payload(entries, |entries|), from, size);
  }

  lemma SliceAfter(a: seq<byte>, b: seq<byte>, from: nat, size: nat)
    requires from + size <= |b|
    ensures (a + b)[|a| + from..|a| + from + size] == b[from..from + size]
  {
  }

  lemma SliceReads(out: seq<byte>, at: nat, e: Entry, offset: nat)
    requires at + 16 <= |out| && out[at..at + 16] == DirEntry(e, offset)
    requires |e.data| <= MAX_UINT32 && offset <= MAX_UINT32
    ensures out[at] == e.width && out[at + 1] == e.height
    ensures ReadU32(out, at + 8) == |e.data| && ReadU32(out, at + 12) == offset
  {
    var d := DirEntry(e, offset);
    U32RoundTrip(|e.data|);
    U32RoundTrip(offset);
    assert forall k | 0 <= k < 16 :: out[at + k] == out[at..at + 16][k] == d[k];
    assert forall k | 0 <= k < 4 :: d[8 + k] == U32(|e.data|)[k] && d[12 + k] == U32(offset)[k];
    assert out[at + 8] == d[8] && out[at + 9] == d[9] && out[at + 10] == d[10] && out[at + 11] == d[11];
    assert out[at + 12] == d[12] && out[at + 13] == d[13] && out[at + 14] == d[14] && out[at + 15] == d[15];
  }

  // ---- doing it twice ----

  /** The entry holds a cleaned picture, and says so. */
  ghost predicate CleanEntry(clean: Cleaner, e: Entry) {
    exists p :: clean(e.data) == Some(p) && p.data == e.data && p.width > 0 && p.height > 0
      && e.width == DimensionByte(p.width) && e.height == DimensionByte(p.height) && HasPNGSignature(e.data)
  }

  lemma {:induction false} EntriesAreClean(buf: seq<byte>, clean: Cleaner, count: nat, n: nat)
    requires n <= count && DirLen(count) <= |buf| && Stable(clean)
    ensures |ValidEntries(buf, clean, count, n)| <= n
    ensures forall e | e in ValidEntries(buf, clean, count, n) :: CleanEntry(clean, e)
  {
    if n > 0 {
      EntriesAreClean(buf, clean, count, n - 1);
      var e := EntryAt(buf, clean, count, n - 1);
      if e.Some? {
        var at := DirLen(n - 1);
        var size, offset := ReadU32(buf, at + 8), ReadU32(buf, at + 12);
        var p := clean(buf[offset..offset + size]).value;
        assert clean(e.value.data) == Some(p);
      }
    }
  }

  lemma EntryReadsBack(entries: seq<Entry>, clean: Cleaner, i: nat)
    requires Fits(entries) && i < |entries| && CleanEntry(clean, entries[i])
    ensures DirLen(|entries|) <= |Build(entries)|
    ensures EntryAt(Build(entries), clean, |entries|, i) == Some(entries[i])
  {
    hide Build, ReadU32, Offset;
    RebuiltFileReadsBack(entries, i);
    PayloadOfBuild(entries, i);
  }

  lemma {:induction false} RereadingKeepsEntries(entries: seq<Entry>, clean: Cleaner, n: nat)
    requires Fits(entries) && n <= |entries| && forall e | e in entries :: CleanEntry(clean, e)
    requires DirLen(|entries|) <= |Build(entries)|
    ensures ValidEntries(Build(entries), clean, |entries|, n) == entries[..n]
  {
    hide Build, EntryAt, CleanEntry, Fits;
    if n > 0 {
      RereadingKeepsEntries(entries, clean, n - 1);
      EntryReadsBack(entries, clean, n - 1);
      assert entries[..n] == entries[..n - 1] + [entries[n - 1]];
    }
  }

  /** Sanitizing a sanitized file returns it unchanged, if PNG re-encoding is stable on its own output. */
  lemma SanitizeIsIdempotent(buf: seq<byte>, clean: Cleaner)
    requires |buf| >= 6 && Stable(clean) && SanitizeICO(buf, clean).Ok?
    ensures var out := SanitizeICO(buf, clean).value;
            HasICOSignature(out) && SanitizeICO(out, clean) == Ok(out)
  {
    var count := ReadU16(buf, 4);
    var entries := ValidEntries(buf, clean, count, count);
    EntriesAreClean(buf, clean, count, count);
    RebuiltFileReadsBack(entries, 0);
    RereadingKeepsEntries(entries, clean, |entries|);
    assert entries[..|entries|] == entries;
  }

  // ---- which pictures of an upload are kept ----

  /** Four bytes of the file as a little-endian number. */
  function NumberAt(buf: seq<byte>, at: nat): nat
    requires at + 4 <= |buf|
  {
    buf[at] as int + 256 * (buf[at + 1] as int + 256 * (buf[at + 2] as int + 256 * buf[at + 3] as int))
  }

  /** The bytes a directory entry of an n-entry file points at. */
  function SliceOf(buf: seq<byte>, n: nat, i: nat): Option<seq<byte>>
    requires i < n && 6 + 16 * n <= |buf|
  {
    var size, offset := NumberAt(buf, 6 + 16 * i + 8), NumberAt(buf, 6 + 16 * i + 12);
    if 6 + 16 * n <= offset && offset + size <= |buf| && size > 0 then Some(buf[offset..offset + size]) else None
  }

  /** The entry points at a PNG inside the file that decodes to a picture with an area. */
  ghost predicate Keepable(buf: seq<byte>, clean: Cleaner, n: nat, i: nat)
    requires i < n && 6 + 16 * n <= |buf|
  {
    exists data, p ::
      && SliceOf(buf, n, i) == Some(data) && |data| >= 8
      && data[0] == 0x89 && data[1] == 0x50 && data[2] == 0x4E && data[3] == 0x47
      && data[4] == 0x0D && data[5] == 0x0A && data[6] == 0x1A && data[7] == 0x0A
      && clean(data) == Some(p) && p.width > 0 && p.height > 0
  }

  /** A side of 256 pixels or more is written as 0. */
  ghost predicate SideByte(side: int, b: byte) {
    b == if side < 256 then side else 0
  }

  /** The entry kept for it: the re-encoded picture and its size. */
  ghost predicate KeptAs(buf: seq<byte>, clean: Cleaner, n: nat, i: nat, e: Entry)
    requires i < n && 6 + 16 * n <= |buf| && Keepable(buf, clean, n, i)
  {
    var p := clean(SliceOf(buf, n, i).value).value;
    e.data == p.data && SideByte(p.width, e.width) && SideByte(p.height, e.height)
  }

  lemma EntryExactly(buf: seq<byte>, clean: Cleaner, n: nat, i: nat)
    requires i < n && 6 + 16 * n <= |buf|
    ensures EntryAt(buf, clean, n, i).Some? <==> Keepable(buf, clean, n, i)
    ensures Keepable(buf, clean, n, i) ==> KeptAs(buf, clean, n, i, EntryAt(buf, clean, n, i).value)
  {
    NumbersAgree(buf, 6 + 16 * i + 8);
    NumbersAgree(buf, 6 + 16 * i + 12);
    hide ReadU32, NumberAt;
    if SliceOf(buf, n, i).Some? {
      var data := SliceOf(buf, n, i).value;
      SignatureExactly(data);
      if clean(data).Some? { assert clean(data) == Some(clean(data).value); }
    }
  }

  lemma NumbersAgree(buf: seq<byte>, at: nat)
    requires at + 4 <= |buf|
    ensures ReadU32(buf, at) == NumberAt(buf, at)
  {
  }

  lemma SignatureExactly(data: seq<byte>)
    ensures HasPNGSignature(data)
            <==> |data| >= 8 && data[0] == 0x89 && data[1] == 0x50 && data[2] == 0x4E && data[3] == 0x47
                 && data[4] == 0x0D && data[5] == 0x0A && data[6] == 0x1A && data[7] == 0x0A
  {
    if |data| >= 8 {
      assert data[..8] == [data[0], data[1], data[2], data[3], data[4], data[5], data[6], data[7]];
    }
  }

  /** kept lists, in order, exactly the keepable entries below m, and entries are what is kept for them. */
  ghost predicate KeptInOrder(buf: seq<byte>, clean: Cleaner, n: nat, m: nat, kept: seq<nat>, entries: seq<Entry>)
    requires m <= n && 6 + 16 * n <= |buf|
  {
    && |entries| == |kept|
    && (forall k | 0 <= k < |kept| :: kept[k] < m && Keepable(buf, clean, n, kept[k])
                                      && KeptAs(buf, clean, n, kept[k], entries[k]))
    && (forall j, k | 0 <= j < k < |kept| :: kept[j] < kept[k])
    && (forall i | 0 <= i < m && Keepable(buf, clean, n, i) :: i in kept)
  }

  lemma {:induction false} KeptEntries(buf: seq<byte>, clean: Cleaner, n: nat, m: nat) returns (kept: seq<nat>)
    requires m <= n && 6 + 16 * n <= |buf|
    ensures KeptInOrder(buf, clean, n, m, kept, ValidEntries(buf, clean, n, m))
  {
    hide EntryAt, Keepable, KeptAs;
    if m == 0 {
      kept := [];
    } else {
      kept := KeptEntries(buf, clean, n, m - 1);
      EntryExactly(buf, clean, n, m - 1);
      if EntryAt(buf, clean, n, m - 1).Some? {
        kept := kept + [m - 1];
      }
    }
  }

  /** The k-th directory entry of the new file, and the bytes it points at. */
  ghost predicate HoldsAt(out: seq<byte>, k: nat, width: byte, height: byte, data: seq<byte>) {
    && 6 + 16 * (k + 1) <= |out| && out[6 + 16 * k] == width && out[6 + 16 * k + 1] == height
    && out[6 + 16 * k + 2..6 + 16 * k + 8] == [0, 0, 1, 0, 32, 0]   // no palette, one plane, 32 bits a pixel
    && NumberAt(out, 6 + 16 * k + 8) == |data|
    && var offset := NumberAt(out, 6 + 16 * k + 12);
       offset + |data| <= |out| && out[offset..offset + |data|] == data
  }

  lemma BuiltFileHolds(entries: seq<Entry>, k: nat)
    requires Fits(entries) && k < |entries|
    ensures HoldsAt(Build(entries), k, entries[k].width, entries[k].height, entries[k].data)
  {
    hide Build, ReadU32, NumberAt, Fits, Offset, DirEntry, HasICOSignature;
    RebuiltFileReadsBack(entries, k);
    DirectoryOfBuild(entries, k);
    PlanesAndBits(Build(entries), 6 + 16 * k, entries[k], Offset(entries, k));
    NumbersAgree(Build(entries), 6 + 16 * k + 8);
    NumbersAgree(Build(entries), 6 + 16 * k + 12);
  }

  /** The picture an entry decodes to, re-encoded; nothing if there is none. */
  function CleanedAt(buf: seq<byte>, clean: Cleaner, n: nat, i: nat): seq<byte>
    requires i < n && 6 + 16 * n <= |buf|
  {
    var data := SliceOf(buf, n, i);
    if data.Some? && clean(data.value).Some? then clean(data.value).value.data else []
  }

  /** A size or an offset of the new file would not fit 32 bits. */
  ghost predicate TooLarge(entries: seq<Entry>) {
    exists k :: 0 <= k < |entries| && (|entries[k].data| >= 0x1_0000_0000 || Offset(entries, k) >= 0x1_0000_0000)
  }

  /** The new file holds exactly these entries and the cleaned pictures of the kept ones, in order, to its last byte. */
  ghost predicate Rebuilt(buf: seq<byte>, clean: Cleaner, n: nat, kept: seq<nat>, entries: seq<Entry>, out: seq<byte>)
    requires 6 + 16 * n <= |buf| && |entries| == |kept| && forall k | 0 <= k < |kept| :: kept[k] < n
  {
    && HasICOSignature(out) && out[4] as int + 256 * out[5] as int == |kept|
    && |out| == Offset(entries, |entries|)
    && forall k | 0 <= k < |kept| ::
         HoldsAt(out, k, entries[k].width, entries[k].height, CleanedAt(buf, clean, n, kept[k]))
  }

  lemma PlanesAndBits(out: seq<byte>, at: nat, e: Entry, offset: nat)
    requires at + 16 <= |out| && out[at..at + 16] == DirEntry(e, offset)
    ensures out[at + 2..at + 8] == [0, 0, 1, 0, 32, 0]
  {
    var d := DirEntry(e, offset);
    assert d[2] == 0 && d[3] == 0 && d[4] == 1 && d[5] == 0 && d[6] == 32 && d[7] == 0;
    assert forall j | 0 <= j < 16 :: out[at + j] == out[at..at + 16][j] == d[j];
    assert out[at + 2] == d[2] && out[at + 3] == d[3] && out[at + 4] == d[4] && out[at + 5] == d[5]
        && out[at + 6] == d[6] && out[at + 7] == d[7];
  }

  /**
   * Of any upload with an ICO header, exactly the pictures that lie inside the file behind its
   * directory, are PNGs and decode to an area are kept, re-encoded, in their order. It is refused
   * exactly if its directory is empty or cut short, if nothing is left of it, or if a size or an
   * offset of the new file would not fit 32 bits.
   */
  lemma RebuildKeepsExactly(buf: seq<byte>, clean: Cleaner) returns (kept: seq<nat>, entries: seq<Entry>)
    requires |buf| >= 6
    ensures var n := buf[4] as int + 256 * buf[5] as int;
            if n == 0 || |buf| < 6 + 16 * n then SanitizeICO(buf, clean).Err?
            else
              && KeptInOrder(buf, clean, n, n, kept, entries)
              && (SanitizeICO(buf, clean).Err? <==> kept == [] || TooLarge(entries))
              && (SanitizeICO(buf, clean).Ok? ==> Rebuilt(buf, clean, n, kept, entries, SanitizeICO(buf, clean).value))
  {
    hide EntryAt, KeptInOrder, ValidEntries, Build, Fits, TooLarge, Rebuilt;
    var n := buf[4] as int + 256 * buf[5] as int;
    kept, entries := [], [];
    if n != 0 && |buf| >= 6 + 16 * n {
      kept := KeptEntries(buf, clean, n, n);
      entries := ValidEntries(buf, clean, n, n);
      FewEntries(buf, clean, n, n);
      FitsExactly(entries);
      KeptShape(buf, clean, n, kept, entries);
      if Fits(entries) && entries != [] {
        BuildIsRebuilt(buf, clean, n, kept, entries);
      }
    }
  }

  lemma KeptShape(buf: seq<byte>, clean: Cleaner, n: nat, kept: seq<nat>, entries: seq<Entry>)
    requires 6 + 16 * n <= |buf| && KeptInOrder(buf, clean, n, n, kept, entries)
    ensures |entries| == |kept| && forall k | 0 <= k < |kept| :: kept[k] < n
  {
    hide Keepable, KeptAs;
  }

  lemma FitsExactly(entries: seq<Entry>)
    requires |entries| <= MAX_UINT16
    ensures Fits(entries) <==> !TooLarge(entries)
  {
    if !Fits(entries) {
      var k: nat :| k < |entries| && !EntryFits(entries, k);
    }
    if TooLarge(entries) {
      var k :| 0 <= k < |entries| && (|entries[k].data| >= 0x1_0000_0000 || Offset(entries, k) >= 0x1_0000_0000);
      assert !EntryFits(entries, k);
    }
  }

  lemma BuildIsRebuilt(buf: seq<byte>, clean: Cleaner, n: nat, kept: seq<nat>, entries: seq<Entry>)
    requires 6 + 16 * n <= |buf| && KeptInOrder(buf, clean, n, n, kept, entries) && Fits(entries) && entries != []
    ensures |entries| == |kept| && (forall k | 0 <= k < |kept| :: kept[k] < n)
    ensures Rebuilt(buf, clean, n, kept, entries, Build(entries))
  {
    hide Keepable, KeptAs, Build, SliceOf, Offset, HasICOSignature, HoldsAt, CleanedAt, Fits;
    RebuiltFileReadsBack(entries, 0);
    forall k | 0 <= k < |kept|
      ensures HoldsAt(Build(entries), k, entries[k].width, entries[k].height, CleanedAt(buf, clean, n, kept[k]))
    {
      BuiltFileHolds(entries, k);
      KeptData(buf, clean, n, kept[k], entries[k]);
    }
  }

  lemma KeptData(buf: seq<byte>, clean: Cleaner, n: nat, i: nat, e: Entry)
    requires i < n && 6 + 16 * n <= |buf| && Keepable(buf, clean, n, i) && KeptAs(buf, clean, n, i, e)
    ensures e.data == CleanedAt(buf, clean, n, i)
  {
  }

  lemma {:induction false} FewEntries(buf: seq<byte>, clean: Cleaner, n: nat, m: nat)
    requires m <= n && 6 + 16 * n <= |buf|
    ensures |ValidEntries(buf, clean, n, m)| <= m
  {
    hide EntryAt;
    if m > 0 { FewEntries(buf, clean, n, m - 1); }
  }
}
