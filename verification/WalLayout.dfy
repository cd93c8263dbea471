/**
 The layout of the write-ahead log (pkg/wal): where records go, and the page headers that are
 inserted into the byte stream where a record meets a page boundary. A record is its raw bytes here.
 */
module WalLayout {
  import opened Keys

  const PAGE := 8192
  const PAGE_HEADER := 8
  const MAGIC := 65544
  const WORD := 0x1_0000_0000

  // ---------------------------------------------------------------------------------------
  // Little-endian words
  // ---------------------------------------------------------------------------------------

  /** `binary.LittleEndian.PutUint32(uint32(n))`. */
  function LE(n: nat): (b: seq<Byte>)
    ensures |b| == 4
  {
    var w := n % 0x1_0000_0000;
    [w % 256, w / 256 % 256, w / 65536 % 256, w / 16777216 % 256]
  }

  /** `binary.LittleEndian.Uint32`. */
  function FromLE(b: seq<Byte>): (n: nat)
    requires |b| >= 4
    ensures n < WORD
  {
    var b0: nat, b1: nat, b2: nat, b3: nat := b[0], b[1], b[2], b[3];
    b0 + 256 * b1 + 65536 * b2 + 16777216 * b3
  }

  lemma LERoundTrip(n: nat)
    ensures FromLE(LE(n)) == n % 0x1_0000_0000
    ensures n < WORD ==> FromLE(LE(n)) == n
  {
    var w := n % 0x1_0000_0000;
    var q := w / 256;
    var r := q / 256;
    assert w == 256 * q + w % 256 && q == 256 * r + q % 256 && r == 256 * (r / 256) + r % 256;
    assert w / 65536 == r && w / 16777216 == r / 256;
    assert r / 256 < 256;
  }

  // ---------------------------------------------------------------------------------------
  // Places
  // ---------------------------------------------------------------------------------------

  /** Page and offset within the page. */
  datatype Place = Place(page: nat, off: nat)

  function Abs(w: Place): nat { 8192 * w.page + w.off }

  /** The record reaches the end of its page. */
  predicate Crosses(w: Place, size: nat) { w.off + size >= PAGE }

  /** The writer's place after a record of `size` bytes: the increment in `assignLSN`. */
  function Advance(w: Place, size: nat): Place {
    if Crosses(w, size) then Place(w.page + 1, w.off + size - PAGE + PAGE_HEADER) else Place(w.page, w.off + size)
  }

  /** How far one record moves the writer, counted in file bytes. */
  lemma AbsAdvance(w: Place, size: nat)
    ensures Abs(Advance(w, size)) == Abs(w) + size + if Crosses(w, size) then PAGE_HEADER else 0
  {
  }

  function PageHeader(page: nat): (b: seq<Byte>)
    ensures |b| == PAGE_HEADER
  {
    LE(MAGIC) + LE(page)
  }

  /** Shorter than the payload of a page, so that it touches at most two pages. */
  predicate Short(data: seq<Byte>) { 0 < |data| < PAGE - PAGE_HEADER }

  /** The bytes of a record as they lie in the file from its first byte on. */
  function Laid(data: seq<Byte>, w: Place): (b: seq<Byte>)
    requires Short(data) && w.off < PAGE
    ensures |b| == |data| + if Crosses(w, |data|) then PAGE_HEADER else 0
  {
    if Crosses(w, |data|) then data[..PAGE - w.off] + (PageHeader(w.page + 1) + data[PAGE - w.off..]) else data
  }

  /** `checkLogOverflow`: what is written for a record at place `w`. */
  function CheckLogOverflow(data: seq<Byte>, w: Place): (b: seq<Byte>)
    requires Short(data) && PAGE_HEADER <= w.off < PAGE
    ensures b == (if w.off == PAGE_HEADER then PageHeader(w.page) else []) + Laid(data, w)
  {
    if w.off + |data| < PAGE then
      if w.off <= PAGE_HEADER then PageHeader(w.page) + data else data
    else
      var idx := 8192 * (w.off / 8192 + 1) - w.off;
      data[..idx] + (PageHeader(w.page + 1) + data[idx..])
  }

  // ---------------------------------------------------------------------------------------
  // Records appended one after the other to an empty file
  // ---------------------------------------------------------------------------------------

  predicate AllShort(raws: seq<seq<Byte>>) { forall i :: 0 <= i < |raws| ==> Short(raws[i]) }

  /** Where record `n` goes. */
  function PlaceOf(raws: seq<seq<Byte>>, n: nat): (w: Place)
    requires n <= |raws| && AllShort(raws)
    ensures PAGE_HEADER <= w.off < PAGE
  {
    if n == 0 then Place(0, PAGE_HEADER) else Advance(PlaceOf(raws, n - 1), |raws[n - 1]|)
  }

  /** The file offset that the place of record `n` stands for. */
  function Pos(raws: seq<seq<Byte>>, n: nat): nat
    requires n <= |raws| && AllShort(raws)
  {
    if n == 0 then PAGE_HEADER
    else Pos(raws, n - 1) + |raws[n - 1]| + if Crosses(PlaceOf(raws, n - 1), |raws[n - 1]|) then PAGE_HEADER else 0
  }

  lemma {:induction false} PosIsAbs(raws: seq<seq<Byte>>, n: nat)
    requires n <= |raws| && AllShort(raws)
    ensures Pos(raws, n) == Abs(PlaceOf(raws, n))
  {
    if n > 0 {
      PosIsAbs(raws, n - 1);
      AbsAdvance(PlaceOf(raws, n - 1), |raws[n - 1]|);
    }
  }

  /** What is written for record `i`. */
  predicate PartAt(raws: seq<seq<Byte>>, parts: seq<seq<Byte>>, i: nat)
    requires i < |raws| == |parts| && AllShort(raws)
  {
    parts[i] == CheckLogOverflow(raws[i], PlaceOf(raws, i))
  }

  /** `parts` is what is written for the records `raws`. */
  predicate Written(raws: seq<seq<Byte>>, parts: seq<seq<Byte>>) {
    AllShort(raws) && |parts| == |raws| && forall i :: 0 <= i < |raws| ==> PartAt(raws, parts, i)
  }

  /** The file after the first `n` parts were flushed. */
  function File(parts: seq<seq<Byte>>, n: nat): seq<Byte>
    requires n <= |parts|
  {
    if n == 0 then [] else File(parts, n - 1) + parts[n - 1]
  }

  /** How many of the records `1 .. n` were placed right behind a page header that is already written. */
  function Repeats(raws: seq<seq<Byte>>, n: nat): nat
    requires n <= |raws| && AllShort(raws)
  {
    if n <= 1 then 0 else Repeats(raws, n - 1) + if PlaceOf(raws, n - 1).off == PAGE_HEADER then 1 else 0
  }

  /** File offset of the first byte of record `n` itself. */
  function FirstByte(raws: seq<seq<Byte>>, parts: seq<seq<Byte>>, n: nat): nat
    requires n < |raws| && Written(raws, parts)
  {
    |File(parts, n)| + if PlaceOf(raws, n).off == PAGE_HEADER then PAGE_HEADER else 0
  }

  function PartLength(raws: seq<seq<Byte>>, i: nat): nat
    requires i < |raws| && AllShort(raws)
  {
    var w := PlaceOf(raws, i);
    |raws[i]| + (if Crosses(w, |raws[i]|) then PAGE_HEADER else 0) + if w.off == PAGE_HEADER then PAGE_HEADER else 0
  }

  lemma LengthOfPart(raws: seq<seq<Byte>>, parts: seq<seq<Byte>>, i: nat)
    requires i < |raws| && Written(raws, parts)
    ensures |parts[i]| == PartLength(raws, i)
  {
    assert PartAt(raws, parts, i);
  }

  /** The file is as long as the writer's place says, plus one header per repeat. */
  lemma {:induction false} FileLength(raws: seq<seq<Byte>>, parts: seq<seq<Byte>>, n: nat)
    requires n <= |raws| && Written(raws, parts)
    ensures |File(parts, n)| + (if n == 0 then PAGE_HEADER else 0) == Pos(raws, n) + 8 * Repeats(raws, n)
  {
    if n > 0 {
      FileLength(raws, parts, n - 1);
      LengthOfPart(raws, parts, n - 1);
    }
  }

  /** Every record starts where its sequence number says, exactly when no header was repeated up to it. */
  lemma RecordAtItsLsn(raws: seq<seq<Byte>>, parts: seq<seq<Byte>>, n: nat)
    requires n < |raws| && Written(raws, parts)
    ensures FirstByte(raws, parts, n) == Abs(PlaceOf(raws, n)) + 8 * Repeats(raws, n + 1)
    ensures FirstByte(raws, parts, n) == Abs(PlaceOf(raws, n)) <==> Repeats(raws, n + 1) == 0
  {
    FileLength(raws, parts, n);
    PosIsAbs(raws, n);
  }

  /** `calculatePageAndOffset`. */
  function FromSize(size: nat): Place { Place(size / 8192, size - 8192 * (size / 8192)) }

  lemma FromSizeAbs(w: Place, size: nat)
    requires w.off < PAGE
    ensures FromSize(size) == w <==> size == Abs(w)
  {
    if size == Abs(w) {
      assert size / 8192 == w.page;
    }
  }

  /** Reopening the log restores the writer's place, exactly when no header was repeated. */
  lemma ReopenRestores(raws: seq<seq<Byte>>, parts: seq<seq<Byte>>, n: nat)
    requires 0 < n <= |raws| && Written(raws, parts)
    ensures FromSize(|File(parts, n)|) == PlaceOf(raws, n) <==> Repeats(raws, n) == 0
  {
    FileLength(raws, parts, n);
    PosIsAbs(raws, n);
    FromSizeAbs(PlaceOf(raws, n), |File(parts, n)|);
  }

  predicate EndsOnBoundary(raws: seq<seq<Byte>>, i: nat)
    requires i < |raws| && AllShort(raws)
  {
    PlaceOf(raws, i).off + |raws[i]| == PAGE
  }

  /** A header is repeated exactly when a record other than the last ends on a page boundary. */
  lemma {:induction false} RepeatMeansBoundary(raws: seq<seq<Byte>>, n: nat)
    requires 0 < n <= |raws| && AllShort(raws)
    ensures Repeats(raws, n) == 0 <==> forall i :: 0 <= i < n - 1 ==> !EndsOnBoundary(raws, i)
  {
    if n > 1 {
      RepeatMeansBoundary(raws, n - 1);
      assert PlaceOf(raws, n - 1).off == PAGE_HEADER <==> EndsOnBoundary(raws, n - 2);
    }
  }

  /** ... and that happens: the second of these records ends at offset 8192. */
  lemma RepeatHappens(a: seq<Byte>, b: seq<Byte>, c: seq<Byte>, parts: seq<seq<Byte>>)
    requires |a| == 17 && |b| == PAGE - 25 && Short(c) && Written([a, b, c], parts)
    ensures FirstByte([a, b, c], parts, 2) == Abs(PlaceOf([a, b, c], 2)) + 8
  {
    var raws := [a, b, c];
    assert PlaceOf(raws, 1) == Place(0, 25);
    assert PlaceOf(raws, 2) == Place(1, 8);
    assert Repeats(raws, 2) == 0;
    RecordAtItsLsn(raws, parts, 2);
  }

  /** Later records have later places. */
  lemma {:induction false} PlacesIncrease(raws: seq<seq<Byte>>, i: nat, j: nat)
    requires i < j <= |raws| && AllShort(raws)
    ensures Abs(PlaceOf(raws, i)) < Abs(PlaceOf(raws, j)) && PlaceOf(raws, i).page <= PlaceOf(raws, j).page
    decreases j
  {
    AbsAdvance(PlaceOf(raws, j - 1), |raws[j - 1]|);
    if i < j - 1 { PlacesIncrease(raws, i, j - 1); }
  }

  // ---------------------------------------------------------------------------------------
  // Appending, and reading back
  // ---------------------------------------------------------------------------------------

  lemma {:induction false} FilePrefix(parts: seq<seq<Byte>>, i: nat, n: nat)
    requires i <= n <= |parts|
    ensures |File(parts, i)| <= |File(parts, n)| && File(parts, n)[..|File(parts, i)|] == File(parts, i)
    decreases n
  {
    if i < n { FilePrefix(parts, i, n - 1); }
  }

  lemma {:induction false} FileKept(parts: seq<seq<Byte>>, more: seq<seq<Byte>>, n: nat)
    requires n <= |parts| && n <= |more| && forall i :: 0 <= i < n ==> more[i] == parts[i]
    ensures File(more, n) == File(parts, n)
  {
    if n > 0 { FileKept(parts, more, n - 1); }
  }

  /** A tail of part `i` ends where the first `i + 1` parts end. */
  lemma PartInFile(parts: seq<seq<Byte>>, i: nat, n: nat, pos: nat, next: nat, tail: seq<Byte>)
    requires i < n <= |parts| && pos + |tail| == next == |File(parts, i + 1)|
    requires |tail| <= |parts[i]| && parts[i][|parts[i]| - |tail|..] == tail
    ensures next <= |File(parts, n)| && File(parts, n)[pos..next] == tail
  {
    FilePrefix(parts, i + 1, n);
    var file := File(parts, n);
    assert file[pos..next] == file[..next][pos..];
  }

  /** Appending records moves none of the earlier ones. */
  lemma {:induction false} PlaceKept(raws: seq<seq<Byte>>, more: seq<seq<Byte>>, n: nat)
    requires n <= |raws| && n <= |more| && AllShort(raws) && AllShort(more)
    requires forall i :: 0 <= i < n ==> more[i] == raws[i]
    ensures PlaceOf(more, n) == PlaceOf(raws, n)
  {
    if n > 0 { PlaceKept(raws, more, n - 1); }
  }

  lemma AppendPlaces(raws: seq<seq<Byte>>, raw: seq<Byte>, raws': seq<seq<Byte>>)
    requires AllShort(raws) && Short(raw) && raws' == raws + [raw]
    ensures AllShort(raws') && forall i :: 0 <= i <= |raws| ==> PlaceOf(raws', i) == PlaceOf(raws, i)
    ensures PlaceOf(raws', |raws'|) == Advance(PlaceOf(raws, |raws|), |raw|)
  {
    forall i | 0 <= i <= |raws| ensures PlaceOf(raws', i) == PlaceOf(raws, i) { PlaceKept(raws, raws', i); }
  }

  lemma AppendPart(raws: seq<seq<Byte>>, parts: seq<seq<Byte>>, raws': seq<seq<Byte>>, parts': seq<seq<Byte>>, i: nat)
    requires i < |raws| == |parts| && AllShort(raws) && PartAt(raws, parts, i)
    requires |raws'| == |parts'| > i && AllShort(raws') && raws'[i] == raws[i] && parts'[i] == parts[i]
    requires PlaceOf(raws', i) == PlaceOf(raws, i)
    ensures PartAt(raws', parts', i)
  {
  }

  lemma AppendFile(parts: seq<seq<Byte>>, part: seq<Byte>, parts': seq<seq<Byte>>)
    requires parts' == parts + [part]
    ensures File(parts', |parts'|) == File(parts, |parts|) + part
  {
    FileKept(parts, parts', |parts|);
  }

  lemma AppendLast(raws: seq<seq<Byte>>, part: seq<Byte>, raws': seq<seq<Byte>>, parts': seq<seq<Byte>>)
    requires AllShort(raws) && AllShort(raws') && |raws'| == |parts'| == |raws| + 1
    requires PlaceOf(raws', |raws|) == PlaceOf(raws, |raws|) && parts'[|raws|] == part
    requires part == CheckLogOverflow(raws'[|raws|], PlaceOf(raws, |raws|))
    ensures PartAt(raws', parts', |raws|)
  {
  }

  /** Appending a record: its bytes go at the end of the file, with the headers its place calls for. */
  lemma AppendOne(raws: seq<seq<Byte>>, parts: seq<seq<Byte>>, raw: seq<Byte>, part: seq<Byte>, raws': seq<seq<Byte>>, parts': seq<seq<Byte>>)
    requires Written(raws, parts) && Short(raw) && part == CheckLogOverflow(raw, PlaceOf(raws, |raws|))
    requires raws' == raws + [raw] && parts' == parts + [part]
    ensures Written(raws', parts')
  {
    assert AllShort(raws');
    forall i: nat | i < |raws'| ensures PartAt(raws', parts', i) { AppendAt(raws, parts, raw, part, raws', parts', i); }
  }

  lemma AppendAt(raws: seq<seq<Byte>>, parts: seq<seq<Byte>>, raw: seq<Byte>, part: seq<Byte>,
                 raws': seq<seq<Byte>>, parts': seq<seq<Byte>>, i: nat)
    requires Written(raws, parts) && Short(raw) && part == CheckLogOverflow(raw, PlaceOf(raws, |raws|))
    requires raws' == raws + [raw] && parts' == parts + [part] && AllShort(raws') && i < |raws'|
    ensures PartAt(raws', parts', i)
  {
    AppendPlaces(raws, raw, raws');
    if i < |raws| { AppendPart(raws, parts, raws', parts', i); } else { AppendLast(raws, part, raws', parts'); }
  }

  lemma {:induction false} NoRepeatsBefore(raws: seq<seq<Byte>>, i: nat, n: nat)
    requires i <= n <= |raws| && AllShort(raws)
    ensures Repeats(raws, i) <= Repeats(raws, n)
    decreases n
  {
    if i < n { NoRepeatsBefore(raws, i, n - 1); }
  }

  lemma PartEndsLaid(raws: seq<seq<Byte>>, parts: seq<seq<Byte>>, i: nat, laid: seq<Byte>)
    requires i < |raws| && Written(raws, parts) && laid == Laid(raws[i], PlaceOf(raws, i))
    ensures |laid| <= |parts[i]| && parts[i][|parts[i]| - |laid|..] == laid
    ensures Pos(raws, i) + |laid| == Pos(raws, i + 1)
  {
    assert PartAt(raws, parts, i);
  }

  lemma FileEnd(raws: seq<seq<Byte>>, parts: seq<seq<Byte>>, k: nat, n: nat)
    requires 0 < k <= n <= |raws| && Written(raws, parts) && Repeats(raws, n) == 0
    ensures |File(parts, k)| == Pos(raws, k)
  {
    NoRepeatsBefore(raws, k, n);
    FileLength(raws, parts, k);
  }

  /** Record `n` was placed right behind a page header that is already written. */
  predicate Behind(raws: seq<seq<Byte>>, n: nat)
    requires n <= |raws| && AllShort(raws)
  {
    n > 0 && PlaceOf(raws, n).off == PAGE_HEADER
  }

  lemma {:induction false} NoneBehind(raws: seq<seq<Byte>>, i: nat, n: nat)
    requires i <= n <= |raws| && AllShort(raws) && Repeats(raws, i) == 0 && forall m :: i <= m < n ==> !Behind(raws, m)
    ensures Repeats(raws, n) == 0
    decreases n
  {
    if i < n {
      NoneBehind(raws, i, n - 1);
      assert !Behind(raws, n - 1);
    }
  }

  /** The bytes written for the first record that follows a repeated header: header and record, at the record's place. */
  lemma RepeatedBytes(raws: seq<seq<Byte>>, parts: seq<seq<Byte>>, n: nat)
    requires n < |raws| && Written(raws, parts) && Behind(raws, n) && Repeats(raws, n) == 0
    ensures var part := PageHeader(PlaceOf(raws, n).page) + Laid(raws[n], PlaceOf(raws, n));
            var pos := Pos(raws, n);
            pos + |part| == |File(parts, n + 1)| <= |File(parts, |parts|)| && File(parts, |parts|)[pos..pos + |part|] == part
  {
    assert PartAt(raws, parts, n);
    FileEnd(raws, parts, n, n);
    PartInFile(parts, n, |parts|, Pos(raws, n), |File(parts, n + 1)|, parts[n]);
  }

  /** Record `i` occupies the file from its own place up to that of its successor. */
  lemma RecordBytes(raws: seq<seq<Byte>>, parts: seq<seq<Byte>>, i: nat, n: nat, pos: nat, next: nat, laid: seq<Byte>)
    requires i < n <= |raws| && Written(raws, parts) && Repeats(raws, i + 1) == 0
    requires pos == Pos(raws, i) && next == Pos(raws, i + 1)
    requires laid == Laid(raws[i], PlaceOf(raws, i))
    ensures pos + |laid| == next <= |File(parts, n)| && File(parts, n)[pos..next] == laid
  {
    FileEnd(raws, parts, i + 1, i + 1);
    PartEndsLaid(raws, parts, i, laid);
    PartInFile(parts, i, n, pos, next, laid);
  }

  // ---------------------------------------------------------------------------------------
  // Page headers
  // ---------------------------------------------------------------------------------------

  /** Page `p` of the file starts with a header that says so. */
  predicate HeaderAt(file: seq<Byte>, p: nat) {
    && 8192 * p + 8 <= |file|
    && FromLE(file[8192 * p..8192 * p + 4]) == 65544
    && FromLE(file[8192 * p + 4..8192 * p + 8]) == p % 0x1_0000_0000
  }

  lemma HeaderRead(file: seq<Byte>, p: nat)
    requires 8192 * p + 8 <= |file| && file[8192 * p..8192 * p + 8] == PageHeader(p)
    ensures HeaderAt(file, p)
  {
    var o := 8192 * p;
    LERoundTrip(MAGIC);
    LERoundTrip(p);
    assert file[o..o + 4] == file[o..o + 8][..4] == LE(MAGIC);
    assert file[o + 4..o + 8] == file[o..o + 8][4..] == LE(p);
  }

  /** The record that reaches the end of its page is followed, there, by the header of the next page. */
  lemma CrossingHeader(raws: seq<seq<Byte>>, parts: seq<seq<Byte>>, i: nat, file: seq<Byte>, w: Place, laid: seq<Byte>, next: nat)
    requires i < |raws| && Written(raws, parts) && Repeats(raws, i + 1) == 0 && file == File(parts, |parts|)
    requires w == PlaceOf(raws, i) && Crosses(w, |raws[i]|) && laid == Laid(raws[i], w) && next == Pos(raws, i + 1)
    ensures HeaderAt(file, w.page + 1)
  {
    PosIsAbs(raws, i);
    RecordBytes(raws, parts, i, |raws|, Abs(w), next, laid);
    HeaderInside(raws[i], w, laid, file, next);
  }

  /** Part of a stretch of the file. */
  lemma PartOf(file: seq<Byte>, pos: nat, next: nat, laid: seq<Byte>, a: nat, b: nat)
    requires pos + |laid| == next <= |file| && file[pos..next] == laid && a <= b <= |laid|
    ensures file[pos + a..pos + b] == laid[a..b]
  {
    forall k | 0 <= k < |laid| ensures file[pos + k] == laid[k] { assert file[pos..next][k] == file[pos + k]; }
  }

  lemma HeaderInside(data: seq<Byte>, w: Place, laid: seq<Byte>, file: seq<Byte>, next: nat)
    requires Short(data) && w.off < PAGE && Crosses(w, |data|) && laid == Laid(data, w)
    requires Abs(w) + |laid| == next <= |file| && file[Abs(w)..next] == laid
    ensures HeaderAt(file, w.page + 1)
  {
    var cut := PAGE - w.off;
    assert laid[cut..cut + 8] == PageHeader(w.page + 1);
    PartOf(file, Abs(w), next, laid, cut, cut + 8);
    HeaderRead(file, w.page + 1);
  }

  lemma FirstHeader(raws: seq<seq<Byte>>, parts: seq<seq<Byte>>, file: seq<Byte>)
    requires 0 < |raws| && Written(raws, parts) && file == File(parts, |parts|)
    ensures HeaderAt(file, 0)
  {
    assert PartAt(raws, parts, 0);
    FilePrefix(parts, 1, |parts|);
    assert File(parts, 1) == parts[0];
    assert file[0..8] == file[..|parts[0]|][0..8] == parts[0][0..8] == PageHeader(0);
    HeaderRead(file, 0);
  }

  /** Every page the first `n` records have reached starts with its own header, as long as no header was repeated. */
  lemma {:induction false} PagesHaveHeaders(raws: seq<seq<Byte>>, parts: seq<seq<Byte>>, n: nat, file: seq<Byte>, p: nat)
    requires 0 < n <= |raws| && Written(raws, parts) && Repeats(raws, n) == 0 && file == File(parts, |parts|)
    requires p <= PlaceOf(raws, n).page
    ensures HeaderAt(file, p)
    decreases n
  {
    var w := PlaceOf(raws, n - 1);
    if p > w.page {
      CrossingHeader(raws, parts, n - 1, file, w, Laid(raws[n - 1], w), Pos(raws, n));
    } else if n == 1 {
      FirstHeader(raws, parts, file);
    } else {
      PagesHaveHeaders(raws, parts, n - 1, file, p);
    }
  }
}
