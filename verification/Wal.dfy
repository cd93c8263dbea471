/**
 The records of the write-ahead log (pkg/wal): log sequence numbers, record bytes, and the writer.
 */
module Wal {
  import opened Keys
  import opened WalLayout

  const BLOG_HEADER := 25
  const CHECKPOINT := 17

  datatype Result<T> = Ok(value: T) | Err

  // ---------------------------------------------------------------------------------------
  // Log sequence numbers
  // ---------------------------------------------------------------------------------------

  function LsnBytes(w: Place, size: nat): (b: seq<Byte>)
    ensures |b| == 12
  {
    LE(w.page) + LE(w.off) + LE(size)
  }

  /** Page first, then offset. */
  predicate Later(a: seq<Byte>, b: seq<Byte>)
    requires |a| >= 8 && |b| >= 8
  {
    var pageA, pageB := FromLE(a[..4]), FromLE(b[..4]);
    pageA > pageB || (pageA == pageB && FromLE(a[4..]) > FromLE(b[4..]))
  }

  /** `GreaterLSN`. */
  function GreaterLSN(a: seq<Byte>, b: seq<Byte>): (r: Result<bool>)
    ensures r.Ok? <==> |a| >= 8 && |b| >= 8
    ensures r.Ok? ==> r.value == Later(a, b)
  {
    if |a| < 8 || |b| < 8 then Err
    else
      var pageA, pageB := FromLE(a[..4]), FromLE(b[..4]);
      if pageA != pageB then Ok(pageA > pageB) else Ok(FromLE(a[4..]) > FromLE(b[4..]))
  }

  /** `MaxLSN`, with its comparison of `offsetA` to itself: it still returns a maximum, the first on a tie. */
  function MaxLSN(a: seq<Byte>, b: seq<Byte>): (r: Result<seq<Byte>>)
    ensures r.Ok? <==> |a| >= 8 && |b| >= 8
    ensures r.Ok? ==> (r.value == a && !Later(b, a)) || (r.value == b && Later(b, a))
  {
    if |a| < 8 || |b| < 8 then Err
    else
      var pageA, pageB := FromLE(a[..4]), FromLE(b[..4]);
      if pageA != pageB then (if pageA > pageB then Ok(a) else Ok(b))
      else
        var offsetA, offsetB := FromLE(a[4..]), FromLE(b[4..]);
        if offsetA > offsetA then Ok(a) else if offsetA < offsetB then Ok(b) else Ok(a)
  }

  /** `Later` is a strict order, total up to equal page and offset. */
  lemma LaterIsStrictOrder(a: seq<Byte>, b: seq<Byte>, c: seq<Byte>)
    requires |a| >= 8 && |b| >= 8 && |c| >= 8
    ensures !Later(a, a)
    ensures Later(a, b) && Later(b, c) ==> Later(a, c)
    ensures Later(a, b) || Later(b, a) || a[..8] == b[..8]
  {
    if !Later(a, b) && !Later(b, a) {
      FromLEInjective(a[..4], b[..4]);
      FromLEInjective(a[4..8], b[4..8]);
      assert FromLE(a[4..]) == FromLE(a[4..8]) && FromLE(b[4..]) == FromLE(b[4..8]);
      assert a[..8] == a[..4] + a[4..8] && b[..8] == b[..4] + b[4..8];
    }
  }

  lemma FromLEInjective(a: seq<Byte>, b: seq<Byte>)
    requires |a| == |b| == 4 && FromLE(a) == FromLE(b)
    ensures a == b
  {
    assert a[3] == b[3] && a[2] == b[2] && a[1] == b[1] && a[0] == b[0];
  }

  lemma LsnWords(w: Place, size: nat)
    requires w.page < WORD && w.off < PAGE
    ensures FromLE(LsnBytes(w, size)[..4]) == w.page && FromLE(LsnBytes(w, size)[4..]) == w.off
  {
    LERoundTrip(w.page);
    LERoundTrip(w.off);
    assert LsnBytes(w, size)[..4] == LE(w.page);
    assert LsnBytes(w, size)[4..] == LE(w.off) + LE(size);
  }

  /** The order of the encoded numbers is the order of the places. */
  lemma LsnOrder(v: Place, n: nat, w: Place, m: nat)
    requires v.page < WORD && w.page < WORD && v.off < PAGE && w.off < PAGE
    ensures Later(LsnBytes(w, m), LsnBytes(v, n)) <==> Abs(w) > Abs(v)
  {
    LsnWords(v, n);
    LsnWords(w, m);
  }

  /** Sequence numbers are assigned in strictly increasing order. */
  lemma LsnsIncrease(raws: seq<seq<Byte>>, i: nat, j: nat)
    requires i < j < |raws| && AllShort(raws) && PlaceOf(raws, j).page < WORD
    ensures GreaterLSN(LsnBytes(PlaceOf(raws, j), |raws[j]|), LsnBytes(PlaceOf(raws, i), |raws[i]|)) == Ok(true)
    ensures var a, b := LsnBytes(PlaceOf(raws, i), |raws[i]|), LsnBytes(PlaceOf(raws, j), |raws[j]|);
            MaxLSN(a, b) == MaxLSN(b, a) == Ok(b)
  {
    PlacesIncrease(raws, i, j);
    LsnOrder(PlaceOf(raws, i), |raws[i]|, PlaceOf(raws, j), |raws[j]|);
    LsnOrder(PlaceOf(raws, j), |raws[j]|, PlaceOf(raws, i), |raws[i]|);
  }

  // ---------------------------------------------------------------------------------------
  // Records
  // ---------------------------------------------------------------------------------------

  datatype Record =
    | Put(pageId: nat, key: seq<Byte>, val: seq<Byte>)
    | Del(pageId: nat, key: seq<Byte>)
    | Check(redo: nat)

  /** `lSize`. */
  function Size(r: Record): nat {
    match r
    case Put(_, k, v) => BLOG_HEADER + 9 + |k| + |v|
    case Del(_, k) => BLOG_HEADER + 5 + |k|
    case Check(_) => CHECKPOINT
  }

  /** What `AddPutLog` and `AddDelLog` accept, and short enough to touch at most two pages. */
  predicate Loggable(r: Record) {
    Size(r) < PAGE - PAGE_HEADER &&
    match r
    case Put(id, k, v) => id < WORD && k != [] && v != []
    case Del(id, k) => id < WORD && k != []
    case Check(_) => true
  }

  /** `BLogHeader.toBytes`. */
  function HeaderBytes(w: Place, size: nat, pageId: nat): (b: seq<Byte>)
    ensures |b| == BLOG_HEADER
  {
    [0] + LsnBytes(w, size) + LE(size) + LE(pageId) + LE(0)
  }

  /** The bytes of a record before page headers are inserted. */
  function Data(r: Record, w: Place): (b: seq<Byte>)
    ensures |b| == Size(r)
  {
    match r
    case Put(id, k, v) => HeaderBytes(w, Size(r), id) + ([0] + LE(|k|) + k + (LE(|v|) + v))
    case Del(id, k) => HeaderBytes(w, Size(r), id) + ([1] + LE(|k|) + k)
    case Check(redo) => [0x80] + LE(redo) + LsnBytes(w, CHECKPOINT)
  }

  predicate RawAt(recs: seq<Record>, raws: seq<seq<Byte>>, i: nat)
    requires i < |recs| == |raws| && AllShort(raws)
  {
    Loggable(recs[i]) && raws[i] == Data(recs[i], PlaceOf(raws, i))
  }

  /** `raws` are the bytes of the records `recs`, appended in this order to an empty log. */
  predicate Encodes(recs: seq<Record>, raws: seq<seq<Byte>>) {
    |recs| == |raws| && AllShort(raws) && forall i :: 0 <= i < |recs| ==> RawAt(recs, raws, i)
  }

  lemma EncodeAt(recs: seq<Record>, raws: seq<seq<Byte>>, recs': seq<Record>, raws': seq<seq<Byte>>, i: nat)
    requires i < |recs| == |raws| && AllShort(raws) && RawAt(recs, raws, i)
    requires |recs'| == |raws'| > i && AllShort(raws') && recs'[i] == recs[i] && raws'[i] == raws[i]
    requires PlaceOf(raws', i) == PlaceOf(raws, i)
    ensures RawAt(recs', raws', i)
  {
  }

  lemma EncodeOne(recs: seq<Record>, raws: seq<seq<Byte>>, r: Record, raw: seq<Byte>, recs': seq<Record>, raws': seq<seq<Byte>>)
    requires Encodes(recs, raws) && Loggable(r) && raw == Data(r, PlaceOf(raws, |raws|))
    requires recs' == recs + [r] && raws' == raws + [raw]
    ensures Encodes(recs', raws')
  {
    AppendPlaces(raws, raw, raws');
    forall i | 0 <= i < |recs| ensures RawAt(recs', raws', i) {
      assert RawAt(recs, raws, i);
      EncodeAt(recs, raws, recs', raws', i);
    }
  }

  // ---------------------------------------------------------------------------------------
  // Checkpoints
  // ---------------------------------------------------------------------------------------

  /** The point behind the record of a sequence number, where recovery is to start: from `AddCheckpoint`. */
  function RedoPoint(lsn: seq<Byte>): Result<nat> {
    if |lsn| != 12 then Err
    else Ok((FromLE(lsn[..4]) * 8192 + FromLE(lsn[4..8]) + FromLE(lsn[8..12])) % 0x1_0000_0000)
  }

  /** It is where the next record starts, exactly when the record is not cut by a page boundary: the page header is not counted. */
  lemma RedoIsNext(raws: seq<seq<Byte>>, i: nat)
    requires i < |raws| && AllShort(raws) && Pos(raws, i) + |raws[i]| < WORD
    ensures RedoPoint(LsnBytes(PlaceOf(raws, i), |raws[i]|)) == Ok(Pos(raws, i) + |raws[i]|)
    ensures RedoPoint(LsnBytes(PlaceOf(raws, i), |raws[i]|)) == Ok(Pos(raws, i + 1)) <==> !Crosses(PlaceOf(raws, i), |raws[i]|)
  {
    var w := PlaceOf(raws, i);
    var lsn := LsnBytes(w, |raws[i]|);
    PosIsAbs(raws, i);
    LERoundTrip(w.page);
    LERoundTrip(w.off);
    LERoundTrip(|raws[i]|);
    assert lsn[..4] == LE(w.page) && lsn[4..8] == LE(w.off) && lsn[8..12] == LE(|raws[i]|);
  }

  // ---------------------------------------------------------------------------------------
  // The writer
  // ---------------------------------------------------------------------------------------

  /** The log as the database uses it, with everything appended so far flushed to `file`. */
  class WalWriter {
    var maxPage: nat
    var maxOffset: nat
    var file: seq<Byte>
    /** The records appended so far, their bytes, and what was written for them. */
    ghost var records: seq<Record>
    ghost var raws: seq<seq<Byte>>
    ghost var parts: seq<seq<Byte>>

    ghost predicate Valid()
      reads this
    {
      && records != []
      && Encodes(records, raws)
      && Written(raws, parts)
      && Place(maxPage, maxOffset) == PlaceOf(raws, |raws|)
      && file == File(parts, |parts|)
    }

    /** `initializeWriter` on an empty file: the first checkpoint. */
    constructor ()
      ensures Valid() && records == [Check(PAGE_HEADER)]
    {
      var cp := Check(PAGE_HEADER);
      var w := Place(0, PAGE_HEADER);
      var data := Data(cp, w);
      file := CheckLogOverflow(data, w);
      maxPage, maxOffset := 0, PAGE_HEADER + CHECKPOINT;
      records, raws, parts := [cp], [data], [CheckLogOverflow(data, w)];
      new;
      assert PlaceOf([], 0) == w;
      AppendPlaces([], data, raws);
      AppendOne([], [], data, file, raws, parts);
      AppendFile([], file, parts);
      EncodeOne([], [], cp, data, records, raws);
    }

    /** `assignLSN`. */
    method AssignLSN(logSize: nat) returns (lsn: seq<Byte>)
      modifies `maxPage, `maxOffset
      ensures lsn == LsnBytes(old(Place(maxPage, maxOffset)), logSize)
      ensures Place(maxPage, maxOffset) == Advance(old(Place(maxPage, maxOffset)), logSize)
    {
      lsn := LE(maxPage) + LE(maxOffset) + LE(logSize);
      var newMaxOff := maxOffset + logSize;
      if newMaxOff >= PAGE {
        maxOffset := (newMaxOff - PAGE) + PAGE_HEADER;
        maxPage := maxPage + 1;
      } else {
        maxOffset := newMaxOff;
      }
    }

    method Append(r: Record) returns (lsn: seq<Byte>)
      requires Valid() && Loggable(r)
      modifies this
      ensures Valid() && records == old(records) + [r]
      ensures lsn == LsnBytes(old(PlaceOf(raws, |raws|)), Size(r))
    {
      var w := Place(maxPage, maxOffset);
      lsn := AssignLSN(Size(r));
      var data := Data(r, w);
      var part := CheckLogOverflow(data, w);
      file := file + part;
      AppendPlaces(raws, data, raws + [data]);
      AppendOne(raws, parts, data, part, raws + [data], parts + [part]);
      AppendFile(parts, part, parts + [part]);
      EncodeOne(records, raws, r, data, records + [r], raws + [data]);
      records, raws, parts := records + [r], raws + [data], parts + [part];
    }

    /** `AddPutLog`. */
    method AddPutLog(pageId: nat, key: seq<Byte>, val: seq<Byte>) returns (r: Result<seq<Byte>>)
      requires Valid() && pageId < WORD && Size(Put(pageId, key, val)) < PAGE - PAGE_HEADER
      modifies this
      ensures Valid()
      ensures r.Ok? <==> key != [] && val != []
      ensures records == if r.Ok? then old(records) + [Put(pageId, key, val)] else old(records)
      ensures r.Ok? ==> r.value == LsnBytes(old(PlaceOf(raws, |raws|)), Size(Put(pageId, key, val)))
    {
      if |key| <= 0 || |val| <= 0 {
        return Err;
      }
      var lsn := Append(Put(pageId, key, val));
      return Ok(lsn);
    }

    /** `AddDelLog`. */
    method AddDelLog(pageId: nat, key: seq<Byte>) returns (r: Result<seq<Byte>>)
      requires Valid() && pageId < WORD && Size(Del(pageId, key)) < PAGE - PAGE_HEADER
      modifies this
      ensures Valid()
      ensures r.Ok? <==> key != []
      ensures records == if r.Ok? then old(records) + [Del(pageId, key)] else old(records)
      ensures r.Ok? ==> r.value == LsnBytes(old(PlaceOf(raws, |raws|)), Size(Del(pageId, key)))
    {
      if |key| <= 0 {
        return Err;
      }
      var lsn := Append(Del(pageId, key));
      return Ok(lsn);
    }

    /** `AddCheckpoint`: the checkpoint names the point behind the record of the given sequence number. */
    method AddCheckpoint(latest: seq<Byte>) returns (r: Result<seq<Byte>>)
      requires Valid()
      modifies this
      ensures Valid()
      ensures r.Ok? <==> |latest| == 12
      ensures !r.Ok? ==> records == old(records) && file == old(file)
      ensures r.Ok? ==> records == old(records) + [Check(RedoPoint(latest).value)]
      ensures r.Ok? ==> r.value == LsnBytes(old(PlaceOf(raws, |raws|)), CHECKPOINT)
    {
      if |latest| != 12 {
        return Err;
      }
      var s := FromLE(latest[8..12]);
      var page := FromLE(latest[..4]);
      var redoOffset := FromLE(latest[4..8]);
      var redoPoint := (page * 8192 + redoOffset + s) % 0x1_0000_0000;
      var lsn := Append(Check(redoPoint));
      return Ok(lsn);
    }
  }
}
