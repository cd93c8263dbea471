/**
 Crash recovery (pkg/recovery): reading records back from the log file and walking over it.
 */
module Recovery {
  import opened Keys
  import opened WalLayout
  import opened Wal

  /** `IsMultipage`, for a start that is not past the end. */
  predicate IsMultipage(startOff: nat, endOff: nat) { startOff / 8192 != endOff / 8192 }

  /** `append(b[:idx], b[idx+8:]...)`. */
  function WithoutHeader(b: seq<Byte>, idx: nat): seq<Byte>
    requires idx + PAGE_HEADER <= |b|
  {
    b[..idx] + b[idx + PAGE_HEADER..]
  }

  datatype HeaderRead = Header(lsn: seq<Byte>, logSize: nat, pageId: nat) | IsCheckpoint | EndOfLog | BadPageId

  /** The fields of a record header. */
  function ParseHeader(hdr: seq<Byte>): HeaderRead
    requires |hdr| == BLOG_HEADER
  {
    if FromLE(hdr[17..21]) == 0 then BadPageId else Header(hdr[1..13], FromLE(hdr[13..17]), FromLE(hdr[17..21]))
  }

  /** `readLogHeader`. */
  function ReadLogHeader(file: seq<Byte>, off: nat): HeaderRead {
    var multiPage := IsMultipage(off, off + BLOG_HEADER);
    var n := BLOG_HEADER + if multiPage then PAGE_HEADER else 0;
    if off + n > |file| then EndOfLog
    else if file[off] >= 0x80 then IsCheckpoint
    else
      var read := file[off..off + n];
      ParseHeader(if multiPage then WithoutHeader(read, 8192 * (off / 8192 + 1) - off) else read)
  }

  datatype Op = PutOp(key: seq<Byte>, val: seq<Byte>) | DelOp(key: seq<Byte>)

  /** Decoding of a record's bytes; `Err` where a slice is out of range. */
  function DecodeOp(data: seq<Byte>): Result<Op> {
    if |data| < BLOG_HEADER + 5 then Err
    else
      var kSize := FromLE(data[BLOG_HEADER + 1..BLOG_HEADER + 5]);
      var kOff := BLOG_HEADER + 5;
      if kOff + kSize > |data| then Err
      else if data[BLOG_HEADER] != 0 then Ok(DelOp(data[kOff..kOff + kSize]))
      else if kOff + kSize + 4 > |data| then Err
      else
        var vSize := FromLE(data[kOff + kSize..kOff + kSize + 4]);
        var vOff := kOff + kSize + 4;
        if vOff + vSize > |data| then Err
        else Ok(PutOp(data[kOff..kOff + kSize], data[vOff..vOff + vSize]))
  }

  /**
   `readFullLog`; `Err` is a panic. The header is taken out at `lSize - (endOff - 8192)`, which as an
   unsigned number is past the end of the buffer when it is negative here.
   */
  function ReadFullLog(file: seq<Byte>, startOff: nat, lSize: nat): Result<Op> {
    var endOff := startOff + lSize;
    var multiPage := IsMultipage(startOff, endOff);
    var n := lSize + if multiPage then PAGE_HEADER else 0;
    if startOff + n > |file| then Err
    else
      var read := file[startOff..startOff + n];
      var idx := lSize - (endOff - PAGE);
      if !multiPage then DecodeOp(read)
      else if 0 <= idx <= lSize then DecodeOp(WithoutHeader(read, idx))
      else Err
  }

  /** How far the walk moves past a record. */
  function NextOff(off: nat, lSize: nat): nat {
    off + lSize + if IsMultipage(off, off + lSize) then PAGE_HEADER else 0
  }

  /** What the walk does at one offset. */
  datatype Step = Stop | Panic | Skip(next: nat) | Apply(op: Op, next: nat)

  function StepAt(file: seq<Byte>, off: nat): (s: Step)
    ensures s.Skip? || s.Apply? ==> s.next > off
  {
    match ReadLogHeader(file, off)
    case EndOfLog => Stop
    case BadPageId => Panic
    case IsCheckpoint => Skip(off + CHECKPOINT)
    case Header(_, size, _) =>
      match ReadFullLog(file, off, size)
      case Err => Panic
      case Ok(op) => Apply(op, NextOff(off, size))
  }

  /** What a walk hands to `reapplyLog`, in order, and how it ends. */
  datatype Replayed = Replayed(ops: seq<Op>, panicked: bool)

  /** The walk from `off`, as a function. */
  function Walk(file: seq<Byte>, off: nat, endOff: nat): Replayed
    decreases if off < endOff then endOff - off else 0
  {
    if off >= endOff then Replayed([], false)
    else
      match StepAt(file, off)
      case Stop => Replayed([], false)
      case Panic => Replayed([], true)
      case Skip(next) => Walk(file, next, endOff)
      case Apply(op, next) => Prefixed([op], Walk(file, next, endOff))
  }

  function Prefixed(ops: seq<Op>, rest: Replayed): Replayed { Replayed(ops + rest.ops, rest.panicked) }

  lemma PrefixedTwice(ops: seq<Op>, op: Op, rest: Replayed)
    ensures Prefixed(ops, Prefixed([op], rest)) == Prefixed(ops + [op], rest)
    ensures Prefixed(ops, Replayed([], rest.panicked)) == Replayed(ops, rest.panicked)
  {
    assert ops + ([op] + rest.ops) == ops + [op] + rest.ops;
    assert ops + [] == ops;
  }

  /** One round of the loop: header, then the full record, then the offset of the next record. */
  method ReadNext(file: seq<Byte>, currOff: nat) returns (s: Step)
    ensures s == StepAt(file, currOff)
  {
    match ReadLogHeader(file, currOff) {
      case EndOfLog => s := Stop;
      case BadPageId => s := Panic;
      case IsCheckpoint => s := Skip(currOff + CHECKPOINT);
      case Header(_, size, _) =>
        match ReadFullLog(file, currOff, size) {
          case Err => s := Panic;
          case Ok(op) =>
            if IsMultipage(currOff, currOff + size) {
              s := Apply(op, currOff + (size + PAGE_HEADER));
            } else {
              s := Apply(op, currOff + size);
            }
        }
    }
  }

  /** `walkThroughRecovery`. */
  method WalkThroughRecovery(file: seq<Byte>, startOff: nat, endOff: nat) returns (ops: seq<Op>, panicked: bool)
    ensures Replayed(ops, panicked) == Walk(file, startOff, endOff)
  {
    var currOff := startOff;
    ops, panicked := [], false;
    while currOff < endOff
      invariant !panicked && Walk(file, startOff, endOff) == Prefixed(ops, Walk(file, currOff, endOff))
    {
      var s := ReadNext(file, currOff);
      match s {
        case Stop => break;
        case Panic =>
          panicked := true;
          return;
        case Skip(next) =>
          currOff := next;
        case Apply(op, next) =>
          PrefixedTwice(ops, op, Walk(file, next, endOff));
          ops, currOff := ops + [op], next;
      }
    }
  }

  // ---------------------------------------------------------------------------------------
  // Reading one record
  // ---------------------------------------------------------------------------------------

  /** Page arithmetic on file offsets agrees with page arithmetic on places. */
  lemma PageOf(w: Place, size: nat)
    requires w.off < PAGE && size < PAGE
    ensures IsMultipage(Abs(w), Abs(w) + size) <==> Crosses(w, size)
    ensures 8192 * (Abs(w) / 8192 + 1) - Abs(w) == PAGE - w.off
  {
    assert Abs(w) / 8192 == w.page;
    assert (Abs(w) + size) / 8192 == if Crosses(w, size) then w.page + 1 else w.page;
  }

  /** The first `n` bytes of a record are found again by taking the page header out where it was put in. */
  lemma Unlaid(data: seq<Byte>, w: Place, n: nat)
    requires Short(data) && w.off < PAGE && n <= |data|
    ensures Crosses(w, n) ==> n + PAGE_HEADER <= |Laid(data, w)| && WithoutHeader(Laid(data, w)[..n + PAGE_HEADER], PAGE - w.off) == data[..n]
    ensures !Crosses(w, n) ==> n <= |Laid(data, w)| && Laid(data, w)[..n] == data[..n]
  {
    var laid, idx := Laid(data, w), PAGE - w.off;
    if Crosses(w, n) {
      var cut := laid[..n + PAGE_HEADER];
      assert cut[..idx] == data[..idx];
      assert cut[idx + PAGE_HEADER..] == data[idx..n];
      assert data[..n] == data[..idx] + data[idx..n];
    }
  }

  lemma HeaderFields(w: Place, size: nat, pageId: nat)
    requires size < WORD && pageId < WORD
    ensures var hdr := HeaderBytes(w, size, pageId);
            hdr[0] == 0 && hdr[1..13] == LsnBytes(w, size) && FromLE(hdr[13..17]) == size && FromLE(hdr[17..21]) == pageId
  {
    var hdr := HeaderBytes(w, size, pageId);
    LERoundTrip(size);
    LERoundTrip(pageId);
    assert hdr[13..17] == LE(size) && hdr[17..21] == LE(pageId);
  }

  function OpOf(r: Record): Op
    requires !r.Check?
  {
    match r
    case Put(_, k, v) => PutOp(k, v)
    case Del(_, k) => DelOp(k)
  }

  /** The operation is that of the record, with its key and value. */
  predicate Mirrors(op: Op, r: Record) {
    match r
    case Put(_, k, v) => op == PutOp(k, v)
    case Del(_, k) => op == DelOp(k)
    case Check(_) => false
  }

  /** Decoding a record's bytes returns its operation, key and value. */
  lemma DecodeEncode(r: Record, w: Place)
    requires Loggable(r) && !r.Check?
    ensures DecodeOp(Data(r, w)).Ok? && Mirrors(DecodeOp(Data(r, w)).value, r)
    ensures DecodeOp(Data(r, w)) == Ok(OpOf(r))
  {
    match r
    case Put(id, k, v) => DecodePut(HeaderBytes(w, Size(r), id), k, v);
    case Del(id, k) => DecodeDel(HeaderBytes(w, Size(r), id), k);
  }

  lemma DecodeDel(h: seq<Byte>, k: seq<Byte>)
    requires |h| == BLOG_HEADER && |k| < WORD
    ensures DecodeOp(h + ([1] + LE(|k|) + k)) == Ok(DelOp(k))
  {
    var d, n := h + ([1] + LE(|k|) + k), |k|;
    LERoundTrip(n);
    assert d[26..30] == LE(n);
    assert d[30..30 + n] == k;
  }

  lemma DecodePut(h: seq<Byte>, k: seq<Byte>, v: seq<Byte>)
    requires |h| == BLOG_HEADER && |k| < WORD && |v| < WORD
    ensures DecodeOp(h + ([0] + LE(|k|) + k + (LE(|v|) + v))) == Ok(PutOp(k, v))
  {
    var d, n := h + ([0] + LE(|k|) + k + (LE(|v|) + v)), |k|;
    LERoundTrip(n);
    LERoundTrip(|v|);
    assert d[26..30] == LE(n);
    assert d[30..30 + n] == k;
    assert d[30 + n..30 + n + 4] == LE(|v|);
    assert d[30 + n + 4..30 + n + 4 + |v|] == v;
  }

  /** The record's bytes lie in the file at its place. */
  predicate LiesAt(file: seq<Byte>, pos: nat, laid: seq<Byte>) {
    pos + |laid| <= |file| && file[pos..pos + |laid|] == laid
  }

  lemma ReadLaid(file: seq<Byte>, pos: nat, laid: seq<Byte>, n: nat)
    requires LiesAt(file, pos, laid) && n <= |laid|
    ensures file[pos..pos + n] == laid[..n]
  {
    assert file[pos..pos + n] == file[pos..pos + |laid|][..n];
  }

  lemma FirstByteOf(file: seq<Byte>, pos: nat, data: seq<Byte>, w: Place)
    requires Short(data) && w.off < PAGE && LiesAt(file, pos, Laid(data, w))
    ensures file[pos] == data[0]
  {
    assert file[pos] == file[pos..pos + |Laid(data, w)|][0];
  }

  lemma ReadBytesBack(file: seq<Byte>, w: Place, data: seq<Byte>, n: nat, read: seq<Byte>)
    requires Short(data) && w.off < PAGE && n <= |data| && LiesAt(file, Abs(w), Laid(data, w))
    requires Abs(w) + n + (if Crosses(w, n) then PAGE_HEADER else 0) <= |file|
    requires read == file[Abs(w)..Abs(w) + n + if Crosses(w, n) then PAGE_HEADER else 0]
    ensures data[..n] == if Crosses(w, n) then WithoutHeader(read, PAGE - w.off) else read
  {
    Unlaid(data, w, n);
    ReadLaid(file, Abs(w), Laid(data, w), if Crosses(w, n) then n + PAGE_HEADER else n);
  }

  lemma ReadHeaderOf(file: seq<Byte>, w: Place, data: seq<Byte>, hdr: seq<Byte>)
    requires Short(data) && |data| >= BLOG_HEADER && hdr == data[..BLOG_HEADER] && w.off < PAGE
    requires hdr[0] == 0 && LiesAt(file, Abs(w), Laid(data, w))
    ensures ReadLogHeader(file, Abs(w)) == ParseHeader(hdr)
  {
    PageOf(w, BLOG_HEADER);
    FirstByteOf(file, Abs(w), data, w);
    var n := BLOG_HEADER + if Crosses(w, BLOG_HEADER) then PAGE_HEADER else 0;
    ReadBytesBack(file, w, data, BLOG_HEADER, file[Abs(w)..Abs(w) + n]);
  }

  /** A record's header is read back on any page, whether or not it is cut by a page boundary; page id 0 is refused. */
  lemma ReadHeaderBack(file: seq<Byte>, r: Record, w: Place, data: seq<Byte>)
    requires Loggable(r) && !r.Check? && w.off < PAGE && data == Data(r, w)
    requires LiesAt(file, Abs(w), Laid(data, w))
    ensures ReadLogHeader(file, Abs(w)) == if r.pageId == 0 then BadPageId else Header(LsnBytes(w, Size(r)), Size(r), r.pageId)
  {
    var hdr := HeaderBytes(w, Size(r), r.pageId);
    assert data[..BLOG_HEADER] == hdr;
    HeaderFields(w, Size(r), r.pageId);
    ReadHeaderOf(file, w, data, hdr);
  }

  lemma ReadDataBack(file: seq<Byte>, w: Place, data: seq<Byte>, op: Op)
    requires Short(data) && DecodeOp(data) == Ok(op) && PAGE_HEADER <= w.off < PAGE
    requires LiesAt(file, Abs(w), Laid(data, w))
    ensures ReadFullLog(file, Abs(w), |data|) == if Crosses(w, |data|) && w.page > 0 then Err else Ok(op)
  {
    PageOf(w, |data|);
    if !Crosses(w, |data|) || w.page == 0 { ReadOneBack(file, w, data); }
  }

  lemma ReadOneBack(file: seq<Byte>, w: Place, data: seq<Byte>)
    requires Short(data) && PAGE_HEADER <= w.off < PAGE && (Crosses(w, |data|) ==> w.page == 0)
    requires LiesAt(file, Abs(w), Laid(data, w)) && (IsMultipage(Abs(w), Abs(w) + |data|) <==> Crosses(w, |data|))
    ensures ReadFullLog(file, Abs(w), |data|) == DecodeOp(data)
  {
    var read := file[Abs(w)..Abs(w) + |Laid(data, w)|];
    assert data[..|data|] == data;
    ReadBytesBack(file, w, data, |data|, read);
    FullLogOf(file, Abs(w), data, read);
  }

  /** `readFullLog` on a record that is not cut, or cut by the end of page 0. */
  lemma FullLogOf(file: seq<Byte>, off: nat, data: seq<Byte>, read: seq<Byte>)
    requires off + |read| <= |file| && read == file[off..off + |read|]
    requires |read| == |data| + if IsMultipage(off, off + |data|) then PAGE_HEADER else 0
    requires IsMultipage(off, off + |data|) ==> off <= PAGE <= off + |data| && data == WithoutHeader(read, PAGE - off)
    requires !IsMultipage(off, off + |data|) ==> data == read
    ensures ReadFullLog(file, off, |data|) == DecodeOp(data)
  {
  }

  /** The whole record is read back, except that a record cut by a boundary behind page 0 is not. */
  lemma ReadRecordBack(file: seq<Byte>, r: Record, w: Place, data: seq<Byte>)
    requires Loggable(r) && !r.Check? && PAGE_HEADER <= w.off < PAGE && data == Data(r, w)
    requires LiesAt(file, Abs(w), Laid(data, w))
    ensures var op := ReadFullLog(file, Abs(w), Size(r));
            (op.Ok? <==> !Crosses(w, Size(r)) || w.page == 0) && (op.Ok? ==> Mirrors(op.value, r) && op == Ok(OpOf(r)))
  {
    DecodeEncode(r, w);
    ReadDataBack(file, w, data, OpOf(r));
  }

  // ---------------------------------------------------------------------------------------
  // The walk
  // ---------------------------------------------------------------------------------------

  /** Recovery moves exactly as the writer did: always past an operation, and past a checkpoint unless it is cut. */
  lemma AdvanceAgrees(raws: seq<seq<Byte>>, i: nat)
    requires i < |raws| && AllShort(raws)
    ensures NextOff(Pos(raws, i), |raws[i]|) == Pos(raws, i + 1)
    ensures Pos(raws, i) + |raws[i]| == Pos(raws, i + 1) <==> !Crosses(PlaceOf(raws, i), |raws[i]|)
  {
    PosIsAbs(raws, i);
    PageOf(PlaceOf(raws, i), |raws[i]|);
  }

  /** A record that cannot be read back: without a page id, cut by a page boundary behind page 0, or behind a repeated header. */
  predicate Unreadable(recs: seq<Record>, raws: seq<seq<Byte>>, i: nat)
    requires i < |recs| && Encodes(recs, raws)
  {
    Behind(raws, i) || Broken(recs, raws, i)
  }

  predicate Broken(recs: seq<Record>, raws: seq<seq<Byte>>, i: nat)
    requires i < |recs| && Encodes(recs, raws)
  {
    !recs[i].Check? && (recs[i].pageId == 0 || (Crosses(PlaceOf(raws, i), |raws[i]|) && PlaceOf(raws, i).page > 0))
  }

  /** The operations of the records from `i` on. */
  function Ops(recs: seq<Record>, i: nat): seq<Op>
    requires i <= |recs|
    decreases |recs| - i
  {
    if i == |recs| then [] else (if recs[i].Check? then [] else [OpOf(recs[i])]) + Ops(recs, i + 1)
  }

  /** `cut` marks the records that cannot be read. */
  predicate Cuts(recs: seq<Record>, raws: seq<seq<Byte>>, cut: seq<bool>)
    requires Encodes(recs, raws)
  {
    |cut| == |recs| && forall j :: 0 <= j < |recs| ==> cut[j] == Unreadable(recs, raws, j)
  }

  /** What recovery replays from record `i` on, up to the first record it cannot read. */
  function Replay(recs: seq<Record>, cut: seq<bool>, i: nat): Replayed
    requires i <= |recs| == |cut|
    decreases |recs| - i
  {
    if i == |recs| then Replayed([], false)
    else if cut[i] then Replayed([], true)
    else if recs[i].Check? then Replay(recs, cut, i + 1)
    else Prefixed([OpOf(recs[i])], Replay(recs, cut, i + 1))
  }

  predicate NoCut(cut: seq<bool>, i: nat, j: nat)
    requires j <= |cut|
  {
    forall m :: i <= m < j ==> !cut[m]
  }

  /** Everything is replayed if nothing is cut. */
  lemma {:induction false} ReplayAll(recs: seq<Record>, cut: seq<bool>, i: nat)
    requires i <= |recs| == |cut| && NoCut(cut, i, |recs|)
    ensures Replay(recs, cut, i) == Replayed(Ops(recs, i), false)
    decreases |recs| - i
  {
    if i < |recs| {
      ReplayAll(recs, cut, i + 1);
      assert [] + Ops(recs, i + 1) == Ops(recs, i + 1);
    }
  }

  /** Otherwise what comes before the first record that is. */
  lemma {:induction false} ReplayUntil(recs: seq<Record>, cut: seq<bool>, i: nat, j: nat)
    requires i <= j < |recs| == |cut| && NoCut(cut, i, j) && cut[j]
    ensures Replay(recs, cut, i) == Replayed(Ops(recs[..j], i), true)
    decreases |recs| - i
  {
    if i < j {
      ReplayUntil(recs, cut, i + 1, j);
      assert [] + Ops(recs[..j], i + 1) == Ops(recs[..j], i + 1);
    }
  }

  lemma {:induction false} OpsSplit(recs: seq<Record>, i: nat, j: nat)
    requires i <= j <= |recs|
    ensures Ops(recs, i) == Ops(recs[..j], i) + Ops(recs, j)
    decreases j - i
  {
    if i < j {
      OpsSplit(recs, i + 1, j);
      Regroup(if recs[i].Check? then [] else [OpOf(recs[i])], Ops(recs[..j], i + 1), Ops(recs, j));
    } else {
      Regroup([], [], Ops(recs, j));
    }
  }

  lemma Regroup(a: seq<Op>, b: seq<Op>, c: seq<Op>)
    ensures a + (b + c) == a + b + c && [] + c == c
  {
  }

  function FirstCut(cut: seq<bool>, i: nat): (j: nat)
    requires i <= |cut|
    ensures i <= j <= |cut| && NoCut(cut, i, j) && (j < |cut| ==> cut[j])
    decreases |cut| - i
  {
    if i == |cut| || cut[i] then i else FirstCut(cut, i + 1)
  }

  /** At an operation, the walk applies it and goes on to the next record, or panics. */
  lemma StepAtOperation(recs: seq<Record>, raws: seq<seq<Byte>>, file: seq<Byte>, i: nat)
    requires i < |recs| && Encodes(recs, raws) && !recs[i].Check?
    requires LiesAt(file, Pos(raws, i), Laid(raws[i], PlaceOf(raws, i)))
    ensures StepAt(file, Pos(raws, i)) == if Broken(recs, raws, i) then Panic else Apply(OpOf(recs[i]), Pos(raws, i + 1))
  {
    var w := PlaceOf(raws, i);
    assert RawAt(recs, raws, i);
    PosIsAbs(raws, i);
    ReadHeaderBack(file, recs[i], w, raws[i]);
    ReadRecordBack(file, recs[i], w, raws[i]);
    AdvanceAgrees(raws, i);
  }

  /** At a checkpoint that is not cut the walk goes on to the next record; at the last record it stops, cut or not. */
  lemma StepAtCheckpoint(recs: seq<Record>, raws: seq<seq<Byte>>, file: seq<Byte>, i: nat)
    requires i < |recs| && Encodes(recs, raws) && recs[i].Check? && (i + 1 < |recs| ==> !Crosses(PlaceOf(raws, i), |raws[i]|))
    requires LiesAt(file, Pos(raws, i), Laid(raws[i], PlaceOf(raws, i)))
    requires |file| >= Pos(raws, |recs|) && (i + 1 == |recs| ==> |file| == Pos(raws, |recs|))
    ensures StepAt(file, Pos(raws, i)) == if i + 1 == |recs| then Stop else Skip(Pos(raws, i + 1))
  {
    CheckBytes(recs, raws, i);
    if i + 1 < |recs| {
      PassCheckpoint(recs, raws, file, i);
    } else {
      EndAtCheckpoint(raws, file, i);
    }
  }

  lemma PassCheckpoint(recs: seq<Record>, raws: seq<seq<Byte>>, file: seq<Byte>, i: nat)
    requires i + 1 < |recs| && Encodes(recs, raws) && |raws[i]| == CHECKPOINT && raws[i][0] == 0x80
    requires !Crosses(PlaceOf(raws, i), CHECKPOINT)
    requires LiesAt(file, Pos(raws, i), Laid(raws[i], PlaceOf(raws, i))) && |file| >= Pos(raws, |recs|)
    ensures StepAt(file, Pos(raws, i)) == Skip(Pos(raws, i + 1))
  {
    FirstByteOf(file, Pos(raws, i), raws[i], PlaceOf(raws, i));
    AtLeastCheckpoint(recs, raws, i + 1);
    NextIsFar(raws, i + 1);
    SkipCheckpoint(file, Pos(raws, i));
  }

  lemma EndAtCheckpoint(raws: seq<seq<Byte>>, file: seq<Byte>, i: nat)
    requires i + 1 == |raws| && AllShort(raws) && |raws[i]| == CHECKPOINT && |file| == Pos(raws, i + 1)
    ensures StepAt(file, Pos(raws, i)) == Stop
  {
    PosIsAbs(raws, i);
    PageOf(PlaceOf(raws, i), BLOG_HEADER);
    StopAtCheckpoint(file, Pos(raws, i));
  }

  /**
   Behind a repeated header the walk meets that header where it expects the record.  It takes the offset in the record's
   number, which is 8, for the size, and panics.  In a checkpoint it takes the page for the size: too few bytes on the
   first pages, and more than the file has if the checkpoint is the last record.
   */
  lemma PanicAtRepeat(recs: seq<Record>, raws: seq<seq<Byte>>, parts: seq<seq<Byte>>, n: nat, file: seq<Byte>)
    requires n < |recs| && Encodes(recs, raws) && Written(raws, parts) && file == File(parts, |parts|)
    requires Behind(raws, n) && Repeats(raws, n) == 0
    requires recs[n].Check? ==> n + 1 == |recs| || PlaceOf(raws, n).page < BLOG_HEADER + 5
    ensures Pos(raws, n) < |file| && StepAt(file, Pos(raws, n)) == Panic
  {
    var w := PlaceOf(raws, n);
    RawIsData(recs, raws, n, w);
    var part := ShiftedPart(raws, parts, n, w, file);
    PanicAtShifted(file, recs[n], w, raws[n], part);
  }

  lemma RawIsData(recs: seq<Record>, raws: seq<seq<Byte>>, n: nat, w: Place)
    requires n < |recs| && Encodes(recs, raws) && w == PlaceOf(raws, n)
    ensures Loggable(recs[n]) && raws[n] == Data(recs[n], w)
  {
    assert RawAt(recs, raws, n);
  }

  lemma ShiftedPart(raws: seq<seq<Byte>>, parts: seq<seq<Byte>>, n: nat, w: Place, file: seq<Byte>) returns (part: seq<Byte>)
    requires n < |raws| && Written(raws, parts) && file == File(parts, |parts|) && Behind(raws, n) && Repeats(raws, n) == 0
    requires w == PlaceOf(raws, n)
    ensures part == PageHeader(w.page) + Laid(raws[n], w) && LiesAt(file, Abs(w), part) && Pos(raws, n) == Abs(w)
    ensures n + 1 == |raws| ==> |file| == Abs(w) + |part|
  {
    part := PageHeader(w.page) + Laid(raws[n], w);
    PosIsAbs(raws, n);
    RepeatedBytes(raws, parts, n);
  }

  lemma PanicAtShifted(file: seq<Byte>, r: Record, w: Place, data: seq<Byte>, part: seq<Byte>)
    requires Loggable(r) && w.off == PAGE_HEADER && data == Data(r, w) && part == PageHeader(w.page) + Laid(data, w)
    requires LiesAt(file, Abs(w), part) && (r.Check? ==> |file| == Abs(w) + |part| || w.page < BLOG_HEADER + 5)
    ensures Abs(w) < |file| && StepAt(file, Abs(w)) == Panic
  {
    ShiftedHeader(r, w, data, part);
    PanicOnPart(file, w, part);
  }

  lemma PanicOnPart(file: seq<Byte>, w: Place, part: seq<Byte>)
    requires w.off == PAGE_HEADER && LiesAt(file, Abs(w), part) && |part| >= BLOG_HEADER && part[0] < 0x80 && FromLE(part[17..21]) != 0
    requires FromLE(part[13..17]) < BLOG_HEADER + 5 || |file| == Abs(w) + BLOG_HEADER
    ensures StepAt(file, Abs(w)) == Panic
  {
    ReadShifted(file, w, part);
    PanicsOnSize(file, Abs(w), FromLE(part[13..17]));
  }

  /** The header read when the record starts eight bytes later. */
  lemma ShiftedHeader(r: Record, w: Place, data: seq<Byte>, part: seq<Byte>)
    requires Loggable(r) && w.off == PAGE_HEADER && data == Data(r, w) && part == PageHeader(w.page) + Laid(data, w)
    ensures |part| >= BLOG_HEADER && part[0] < 0x80 && (r.Check? ==> |part| == BLOG_HEADER)
    ensures FromLE(part[13..17]) == (if r.Check? then w.page % WORD else 8) && FromLE(part[17..21]) != 0
  {
    var laid := Laid(data, w);
    assert part[13..17] == laid[5..9] && part[17..21] == laid[9..13];
    assert laid[5..9] == data[5..9] && laid[9..13] == data[9..13];
    LERoundTrip(w.page);
    LERoundTrip(w.off);
    LERoundTrip(Size(r));
    if r.Check? {
      assert data[5..9] == LE(w.page) && data[9..13] == LE(w.off);
    } else {
      assert data[5..9] == LE(w.off) && data[9..13] == LE(Size(r));
    }
  }

  lemma ReadShifted(file: seq<Byte>, w: Place, part: seq<Byte>)
    requires w.off == PAGE_HEADER && LiesAt(file, Abs(w), part) && |part| >= BLOG_HEADER && part[0] < 0x80 && FromLE(part[17..21]) != 0
    ensures ReadLogHeader(file, Abs(w)) == Header(part[1..13], FromLE(part[13..17]), FromLE(part[17..21]))
  {
    PageOf(w, BLOG_HEADER);
    ReadLaid(file, Abs(w), part, BLOG_HEADER);
    assert file[Abs(w)] == file[Abs(w)..Abs(w) + |part|][0];
    var hdr := part[..BLOG_HEADER];
    assert hdr[1..13] == part[1..13] && hdr[13..17] == part[13..17] && hdr[17..21] == part[17..21];
  }

  lemma PanicsOnSize(file: seq<Byte>, pos: nat, size: nat)
    requires ReadLogHeader(file, pos).Header? && ReadLogHeader(file, pos).logSize == size
    requires size < BLOG_HEADER + 5 || |file| == pos + BLOG_HEADER
    ensures StepAt(file, pos) == Panic
  {
  }

  lemma CheckBytes(recs: seq<Record>, raws: seq<seq<Byte>>, i: nat)
    requires i < |recs| && Encodes(recs, raws) && recs[i].Check?
    ensures |raws[i]| == CHECKPOINT && raws[i][0] == 0x80
  {
    assert RawAt(recs, raws, i);
  }

  lemma AtLeastCheckpoint(recs: seq<Record>, raws: seq<seq<Byte>>, i: nat)
    requires i < |recs| && Encodes(recs, raws)
    ensures |raws[i]| >= CHECKPOINT
  {
    assert RawAt(recs, raws, i);
  }

  lemma SkipCheckpoint(file: seq<Byte>, pos: nat)
    requires pos < |file| && file[pos] == 0x80
    ensures |file| >= pos + 2 * CHECKPOINT ==> StepAt(file, pos) == Skip(pos + CHECKPOINT)
  {
  }

  lemma StopAtCheckpoint(file: seq<Byte>, pos: nat)
    requires |file| <= pos + CHECKPOINT + if IsMultipage(pos, pos + BLOG_HEADER) then PAGE_HEADER else 0
    ensures StepAt(file, pos) == Stop
  {
  }

  lemma {:induction false} NextIsFar(raws: seq<seq<Byte>>, i: nat)
    requires i < |raws| && AllShort(raws) && |raws[i]| >= CHECKPOINT
    ensures Pos(raws, |raws|) >= Pos(raws, i) + CHECKPOINT
  {
    PosMonotone(raws, i + 1, |raws|);
  }

  lemma {:induction false} PosMonotone(raws: seq<seq<Byte>>, i: nat, n: nat)
    requires i <= n <= |raws| && AllShort(raws)
    ensures Pos(raws, i) <= Pos(raws, n)
    decreases n
  {
    if i < n { PosMonotone(raws, i, n - 1); }
  }

  /**
   No checkpoint from record `i` on, except the last record, is cut by a page boundary, and none lies behind a repeated
   header on a page so late that its number passes for the size of a record.
   */
  predicate ChecksClear(recs: seq<Record>, raws: seq<seq<Byte>>, i: nat)
    requires Encodes(recs, raws)
  {
    forall j :: i <= j < |recs| - 1 && recs[j].Check? ==>
      !Crosses(PlaceOf(raws, j), |raws[j]|) && (Behind(raws, j) ==> PlaceOf(raws, j).page < BLOG_HEADER + 5)
  }

  /** The step at a record, as long as no header was repeated before it. */
  lemma StepOf(recs: seq<Record>, raws: seq<seq<Byte>>, parts: seq<seq<Byte>>, i: nat, file: seq<Byte>)
    requires i < |recs| && Encodes(recs, raws) && Written(raws, parts)
    requires Repeats(raws, i) == 0 && ChecksClear(recs, raws, i) && file == File(parts, |parts|)
    ensures |file| > Pos(raws, i)
    ensures StepAt(file, Pos(raws, i)) ==
            if Unreadable(recs, raws, i) then Panic
            else if recs[i].Check? then (if i + 1 == |recs| then Stop else Skip(Pos(raws, i + 1)))
            else Apply(OpOf(recs[i]), Pos(raws, i + 1))
  {
    if Behind(raws, i) {
      PanicAtRepeat(recs, raws, parts, i, file);
    } else {
      StepInPlace(recs, raws, parts, i, file);
    }
  }

  lemma StepInPlace(recs: seq<Record>, raws: seq<seq<Byte>>, parts: seq<seq<Byte>>, i: nat, file: seq<Byte>)
    requires i < |recs| && Encodes(recs, raws) && Written(raws, parts)
    requires Repeats(raws, i) == 0 && !Behind(raws, i) && ChecksClear(recs, raws, i) && file == File(parts, |parts|)
    ensures |file| > Pos(raws, i)
    ensures StepAt(file, Pos(raws, i)) ==
            if Broken(recs, raws, i) then Panic
            else if recs[i].Check? then (if i + 1 == |recs| then Stop else Skip(Pos(raws, i + 1)))
            else Apply(OpOf(recs[i]), Pos(raws, i + 1))
  {
    var laid := Laid(raws[i], PlaceOf(raws, i));
    assert Repeats(raws, i + 1) == 0;
    RecordBytes(raws, parts, i, |raws|, Pos(raws, i), Pos(raws, i + 1), laid);
    if recs[i].Check? {
      FileLength(raws, parts, |raws|);
      StepAtCheckpoint(recs, raws, file, i);
    } else {
      StepAtOperation(recs, raws, file, i);
    }
  }

  /** What the step at each record is, given which records cannot be read. */
  predicate Steps(recs: seq<Record>, cut: seq<bool>, pos: seq<nat>, file: seq<Byte>, i: nat)
    requires i < |recs| == |cut| && |pos| == |recs| + 1
  {
    && pos[i] < |file|
    && StepAt(file, pos[i]) ==
       if cut[i] then Panic
       else if recs[i].Check? then (if i + 1 == |recs| then Stop else Skip(pos[i + 1]))
       else Apply(OpOf(recs[i]), pos[i + 1])
  }

  lemma {:induction false} WalkSteps(recs: seq<Record>, cut: seq<bool>, pos: seq<nat>, file: seq<Byte>, i: nat)
    requires i <= |recs| == |cut| && |pos| == |recs| + 1 && (NoCut(cut, i, |recs|) ==> |file| == pos[|recs|])
    requires forall j :: i <= j < |recs| && NoCut(cut, i, j) ==> Steps(recs, cut, pos, file, j)
    ensures Walk(file, pos[i], |file|) == Replay(recs, cut, i)
    decreases |recs| - i
  {
    if i < |recs| {
      assert NoCut(cut, i, i);
      assert Steps(recs, cut, pos, file, i);
      if !cut[i] {
        forall j | i + 1 <= j <= |recs| && NoCut(cut, i + 1, j) ensures NoCut(cut, i, j) {}
        WalkSteps(recs, cut, pos, file, i + 1);
      }
    }
  }

  lemma WalkIsReplay(recs: seq<Record>, raws: seq<seq<Byte>>, parts: seq<seq<Byte>>, cut: seq<bool>, i: nat, file: seq<Byte>)
    requires 0 < |recs| && i <= |recs| && Encodes(recs, raws) && Written(raws, parts) && Cuts(recs, raws, cut)
    requires Repeats(raws, i) == 0 && ChecksClear(recs, raws, i) && file == File(parts, |parts|)
    ensures Walk(file, Pos(raws, i), |file|) == Replay(recs, cut, i)
  {
    var pos := Positions(raws);
    forall j: nat | i <= j <= |recs| && NoCut(cut, i, j) ensures Repeats(raws, j) == 0 { ReachedInPlace(recs, raws, cut, i, j); }
    if NoCut(cut, i, |recs|) { FileEnd(raws, parts, |raws|, |raws|); }
    forall j: nat | i <= j < |recs| && NoCut(cut, i, j) ensures Steps(recs, cut, pos, file, j) {
      StepsHold(recs, raws, parts, cut, pos, j, file);
    }
    WalkSteps(recs, cut, pos, file, i);
  }

  lemma ReachedInPlace(recs: seq<Record>, raws: seq<seq<Byte>>, cut: seq<bool>, i: nat, j: nat)
    requires i <= j <= |recs| && Encodes(recs, raws) && Cuts(recs, raws, cut) && Repeats(raws, i) == 0 && NoCut(cut, i, j)
    ensures Repeats(raws, j) == 0
  {
    forall m | i <= m < j ensures !Behind(raws, m) { assert !cut[m] && !Unreadable(recs, raws, m); }
    NoneBehind(raws, i, j);
  }

  function Positions(raws: seq<seq<Byte>>): (pos: seq<nat>)
    requires AllShort(raws)
    ensures |pos| == |raws| + 1 && forall j :: 0 <= j <= |raws| ==> pos[j] == Pos(raws, j)
  {
    seq(|raws| + 1, j requires 0 <= j <= |raws| => Pos(raws, j))
  }

  lemma StepsHold(recs: seq<Record>, raws: seq<seq<Byte>>, parts: seq<seq<Byte>>, cut: seq<bool>, pos: seq<nat>, i: nat, file: seq<Byte>)
    requires i < |recs| && Encodes(recs, raws) && Written(raws, parts) && Cuts(recs, raws, cut)
    requires Repeats(raws, i) == 0 && ChecksClear(recs, raws, i) && file == File(parts, |parts|)
    requires |pos| == |raws| + 1 && pos[i] == Pos(raws, i) && pos[i + 1] == Pos(raws, i + 1)
    ensures Steps(recs, cut, pos, file, i)
  {
    StepOf(recs, raws, parts, i, file);
  }

  /** All records from `i` up to `j` can be read back. */
  predicate Readable(recs: seq<Record>, raws: seq<seq<Byte>>, i: nat, j: nat)
    requires j <= |recs| && Encodes(recs, raws)
  {
    forall m :: i <= m < j ==> !Unreadable(recs, raws, m)
  }

  /** Record `j` is the first from `i` on that cannot be read; the operations before it are replayed, and there it panics. */
  ghost predicate ReplayedUpTo(recs: seq<Record>, raws: seq<seq<Byte>>, i: nat, j: nat, at: seq<nat>, w: Replayed)
    requires Encodes(recs, raws)
  {
    && i <= j <= |recs| && Readable(recs, raws, i, j) && (j < |recs| ==> Unreadable(recs, raws, j))
    && Replays(recs, i, j, w.ops, at) && (w.panicked <==> j < |recs|)
  }

  /**
   From any record on, the walk over the flushed file replays the logged operations in order: all of them if all records
   can be read, otherwise those before record `j`, the first that cannot, where it panics.  `at` says which record each
   operation replayed is that of.
   */
  lemma RecoveryReplaysLog(recs: seq<Record>, raws: seq<seq<Byte>>, parts: seq<seq<Byte>>, i: nat, file: seq<Byte>, w: Replayed)
    returns (j: nat, at: seq<nat>)
    requires 0 < |recs| && i <= |recs| && Encodes(recs, raws) && Written(raws, parts)
    requires Repeats(raws, i) == 0 && ChecksClear(recs, raws, i) && file == File(parts, |parts|)
    requires w == Walk(file, Pos(raws, i), |file|)
    ensures ReplayedUpTo(recs, raws, i, j, at, w)
    ensures w == Replayed(Ops(recs[..j], i), j < |recs|)
    ensures w.ops <= Ops(recs, i) && (w.ops == Ops(recs, i) <==> Ops(recs, j) == [])
    ensures Repeats(raws, |raws|) == 0 ==> (w.panicked <==> w.ops != Ops(recs, i))
  {
    var cut := CutsOf(recs, raws);
    WalkIsReplay(recs, raws, parts, cut, i, file);
    j := FirstCut(cut, i);
    ReplayPrefix(recs, cut, i, j);
    CutIsUnreadable(recs, raws, cut, i, j);
    at := OpsReplay(recs, i, j);
    if Repeats(raws, |raws|) == 0 && j < |recs| { NotBehind(raws, j, |raws|); }
  }

  /**
   `ops` are the operations of the records from `i` up to `j`, one for each that is no checkpoint, in their order: operation
   `m` is that of record `at[m]`.
   */
  ghost predicate Replays(recs: seq<Record>, i: nat, j: nat, ops: seq<Op>, at: seq<nat>) {
    && i <= j <= |recs| && |at| == |ops|
    && (forall m :: 0 <= m < |at| ==> i <= at[m] < j && Mirrors(ops[m], recs[at[m]]))
    && (forall m, n :: 0 <= m < n < |at| ==> at[m] < at[n])
    && (forall x :: i <= x < j && !recs[x].Check? ==> x in at)
  }

  lemma {:induction false} OpsReplay(recs: seq<Record>, i: nat, j: nat) returns (at: seq<nat>)
    requires i <= j <= |recs|
    ensures Replays(recs, i, j, Ops(recs[..j], i), at)
    decreases j - i
  {
    if i == j {
      at := [];
    } else {
      var rest := OpsReplay(recs, i + 1, j);
      at := if recs[i].Check? then rest else [i] + rest;
      ReplaysOneMore(recs, i, j, Ops(recs[..j], i + 1), rest, at);
    }
  }

  lemma ReplaysOneMore(recs: seq<Record>, i: nat, j: nat, ops: seq<Op>, rest: seq<nat>, at: seq<nat>)
    requires i < j && Replays(recs, i + 1, j, ops, rest) && at == if recs[i].Check? then rest else [i] + rest
    ensures Replays(recs, i, j, (if recs[i].Check? then [] else [OpOf(recs[i])]) + ops, at)
  {
    if recs[i].Check? {
      assert [] + ops == ops;
    } else {
      ReplaysCons(recs, i, j, OpOf(recs[i]), ops, rest);
    }
  }

  lemma ReplaysCons(recs: seq<Record>, i: nat, j: nat, op: Op, ops: seq<Op>, rest: seq<nat>)
    requires i < j && Replays(recs, i + 1, j, ops, rest) && Mirrors(op, recs[i])
    ensures Replays(recs, i, j, [op] + ops, [i] + rest)
  {
    var at, all := [i] + rest, [op] + ops;
    forall m | 0 <= m < |at| ensures i <= at[m] < j && Mirrors(all[m], recs[at[m]]) {
      if m > 0 { assert at[m] == rest[m - 1] && all[m] == ops[m - 1]; }
    }
    forall m, n | 0 <= m < n < |at| ensures at[m] < at[n] {
      assert at[n] == rest[n - 1] && (m > 0 ==> at[m] == rest[m - 1]);
    }
    forall x | i <= x < j && !recs[x].Check? ensures x in at {
      if x == i { assert at[0] == x; } else { InTail(i, rest, x); }
    }
  }

  lemma InTail(i: nat, rest: seq<nat>, x: nat)
    requires x in rest
    ensures x in [i] + rest
  {
  }

  // ---------------------------------------------------------------------------------------
  // From the checkpoint on
  // ---------------------------------------------------------------------------------------

  /** `Recover`: the redo point is read from the checkpoint, whose bytes are taken as they lie in the file. */
  function Recover(file: seq<Byte>, checkpointLsn: seq<Byte>): Replayed
    requires |checkpointLsn| >= 8
  {
    RecoverAt(file, OffsetOf(checkpointLsn))
  }

  function OffsetOf(lsn: seq<Byte>): nat
    requires |lsn| >= 8
  {
    (FromLE(lsn[..4]) * 8192 + FromLE(lsn[4..8])) % 0x1_0000_0000
  }

  function RecoverAt(file: seq<Byte>, off: nat): Replayed {
    if off + CHECKPOINT > |file| then Replayed([], true) else Walk(file, FromLE(file[off + 1..off + 5]), |file|)
  }

  /** The redo point is read back unless the page boundary cuts the checkpoint before it. */
  lemma ReadRedoBack(file: seq<Byte>, w: Place, redo: nat, data: seq<Byte>)
    requires data == Data(Check(redo), w) && redo < WORD && w.off + 5 <= PAGE && LiesAt(file, Abs(w), Laid(data, w))
    ensures Abs(w) + CHECKPOINT <= |file| && FromLE(file[Abs(w) + 1..Abs(w) + 5]) == redo
  {
    var laid := Laid(data, w);
    LERoundTrip(redo);
    assert data[1..5] == LE(redo);
    FrontIsLaid(data, w, laid);
    PartOf(file, Abs(w), Abs(w) + |laid|, laid, 1, 5);
  }

  lemma FrontIsLaid(data: seq<Byte>, w: Place, laid: seq<Byte>)
    requires Short(data) && |data| >= 5 && w.off + 5 <= PAGE && laid == Laid(data, w)
    ensures laid[1..5] == data[1..5]
  {
  }

  /** A checkpoint whose first byte is the last of its page: whatever it says, recovery starts at 65544, the mark of a page header. */
  lemma RedoIsLost(file: seq<Byte>, w: Place, redo: nat, data: seq<Byte>)
    requires data == Data(Check(redo), w) && w.off == 8191 && LiesAt(file, Abs(w), Laid(data, w))
    ensures FromLE(file[Abs(w) + 1..Abs(w) + 5]) == 65544
  {
    var laid := Laid(data, w);
    LERoundTrip(MAGIC);
    assert laid[1..5] == LE(MAGIC);
    PartOf(file, Abs(w), Abs(w) + |laid|, laid, 1, 5);
  }

  /**
   Recovery from checkpoint `c`, which was added with the sequence number of record `i`, replays the operations of the records
   behind `i`, as `RecoveryReplaysLog` says, if neither record `i` nor the front of the checkpoint is cut by a page boundary.
   */
  lemma RecoverFromCheckpoint(recs: seq<Record>, raws: seq<seq<Byte>>, parts: seq<seq<Byte>>, i: nat, c: nat,
                              latest: seq<Byte>, redo: nat, checkpoint: seq<Byte>, file: seq<Byte>, w: Replayed)
    returns (j: nat, at: seq<nat>)
    requires i < c < |recs| && Encodes(recs, raws) && Written(raws, parts) && file == File(parts, |parts|) && |file| < WORD
    requires Repeats(raws, c + 1) == 0 && ChecksClear(recs, raws, i + 1)
    requires latest == LsnBytes(PlaceOf(raws, i), |raws[i]|) && RedoPoint(latest) == Ok(redo)
    requires recs[c] == Check(redo) && checkpoint == LsnBytes(PlaceOf(raws, c), CHECKPOINT)
    requires !Crosses(PlaceOf(raws, i), |raws[i]|) && PlaceOf(raws, c).off + 5 <= PAGE
    requires w == Recover(file, checkpoint)
    ensures ReplayedUpTo(recs, raws, i + 1, j, at, w)
  {
    RedoFits(raws, parts, i, c, latest, file);
    RedoRead(recs, raws, parts, c, redo, PlaceOf(raws, c), checkpoint, file);
    j, at := ReplayFromRedo(recs, raws, parts, i, c, redo, file, w);
  }

  lemma ReplayFromRedo(recs: seq<Record>, raws: seq<seq<Byte>>, parts: seq<seq<Byte>>, i: nat, c: nat, redo: nat, file: seq<Byte>, w: Replayed)
    returns (j: nat, at: seq<nat>)
    requires i < c < |recs| && Encodes(recs, raws) && Written(raws, parts) && file == File(parts, |parts|)
    requires Repeats(raws, c + 1) == 0 && ChecksClear(recs, raws, i + 1) && redo == Pos(raws, i + 1) && w == Walk(file, redo, |file|)
    ensures ReplayedUpTo(recs, raws, i + 1, j, at, w)
  {
    NoRepeatsBefore(raws, i + 1, c + 1);
    j, at := RecoveryReplaysLog(recs, raws, parts, i + 1, file, w);
  }

  lemma RedoRead(recs: seq<Record>, raws: seq<seq<Byte>>, parts: seq<seq<Byte>>, c: nat, redo: nat, w: Place, lsn: seq<Byte>, file: seq<Byte>)
    requires c < |recs| && Encodes(recs, raws) && Written(raws, parts) && file == File(parts, |parts|) && |file| < WORD
    requires Repeats(raws, c + 1) == 0 && recs[c] == Check(redo) && redo < WORD
    requires w == PlaceOf(raws, c) && w.off + 5 <= PAGE && lsn == LsnBytes(w, CHECKPOINT)
    ensures Recover(file, lsn) == Walk(file, redo, |file|)
  {
    RawIsData(recs, raws, c, w);
    CheckpointLies(raws, parts, c, w, file);
    ReadRedoBack(file, w, redo, raws[c]);
    OffsetIsAbs(w, CHECKPOINT, lsn);
  }

  lemma CheckpointLies(raws: seq<seq<Byte>>, parts: seq<seq<Byte>>, c: nat, w: Place, file: seq<Byte>)
    requires c < |raws| && Written(raws, parts) && file == File(parts, |parts|) && Repeats(raws, c + 1) == 0 && w == PlaceOf(raws, c)
    ensures LiesAt(file, Abs(w), Laid(raws[c], w))
  {
    PosIsAbs(raws, c);
    RecordBytes(raws, parts, c, |raws|, Abs(w), Pos(raws, c + 1), Laid(raws[c], w));
    LiesFrom(file, Abs(w), Pos(raws, c + 1), Laid(raws[c], w));
  }

  lemma LiesFrom(file: seq<Byte>, pos: nat, next: nat, laid: seq<Byte>)
    requires pos + |laid| == next <= |file| && file[pos..next] == laid
    ensures LiesAt(file, pos, laid)
  {
  }

  lemma RedoFits(raws: seq<seq<Byte>>, parts: seq<seq<Byte>>, i: nat, c: nat, latest: seq<Byte>, file: seq<Byte>)
    requires i < c < |raws| && Written(raws, parts) && file == File(parts, |parts|) && |file| < WORD && Repeats(raws, c + 1) == 0
    requires !Crosses(PlaceOf(raws, i), |raws[i]|) && latest == LsnBytes(PlaceOf(raws, i), |raws[i]|)
    ensures RedoPoint(latest) == Ok(Pos(raws, i + 1)) && Pos(raws, i + 1) < WORD
  {
    FilePasses(raws, parts, c, file);
    PosMonotone(raws, i + 1, c);
    RedoIsNext(raws, i);
  }

  lemma FilePasses(raws: seq<seq<Byte>>, parts: seq<seq<Byte>>, c: nat, file: seq<Byte>)
    requires c < |raws| && Written(raws, parts) && file == File(parts, |parts|)
    ensures Pos(raws, c) <= |file|
  {
    FileLength(raws, parts, |raws|);
    PosMonotone(raws, c, |raws|);
  }

  lemma OffsetIsAbs(w: Place, size: nat, lsn: seq<Byte>)
    requires Abs(w) < WORD && w.off < PAGE && lsn == LsnBytes(w, size)
    ensures OffsetOf(lsn) == Abs(w)
  {
    LsnPlace(w, size, lsn);
  }

  lemma LsnPlace(w: Place, size: nat, lsn: seq<Byte>)
    requires w.page < WORD && w.off < PAGE && lsn == LsnBytes(w, size)
    ensures FromLE(lsn[..4]) == w.page && FromLE(lsn[4..8]) == w.off
  {
    LERoundTrip(w.page);
    LERoundTrip(w.off);
    assert lsn[..4] == LE(w.page) && lsn[4..8] == LE(w.off);
  }

  lemma ReplayPrefix(recs: seq<Record>, cut: seq<bool>, i: nat, j: nat)
    requires i <= j <= |recs| == |cut| && NoCut(cut, i, j) && (j < |recs| ==> cut[j])
    ensures Replay(recs, cut, i) == Replayed(Ops(recs[..j], i), j < |recs|)
    ensures Ops(recs[..j], i) <= Ops(recs, i) && (Ops(recs[..j], i) == Ops(recs, i) <==> Ops(recs, j) == [])
  {
    OpsSplit(recs, i, j);
    if j == |recs| {
      assert recs[..j] == recs;
      ReplayAll(recs, cut, i);
    } else {
      ReplayUntil(recs, cut, i, j);
    }
  }

  lemma CutIsUnreadable(recs: seq<Record>, raws: seq<seq<Byte>>, cut: seq<bool>, i: nat, j: nat)
    requires i <= j <= |recs| && Encodes(recs, raws) && Cuts(recs, raws, cut) && NoCut(cut, i, j) && (j < |recs| ==> cut[j])
    ensures Readable(recs, raws, i, j) && (j < |recs| ==> Unreadable(recs, raws, j))
  {
  }

  lemma {:induction false} NotBehind(raws: seq<seq<Byte>>, j: nat, n: nat)
    requires j < n <= |raws| && AllShort(raws) && Repeats(raws, n) == 0
    ensures !Behind(raws, j)
    decreases n
  {
    if j < n - 1 { NotBehind(raws, j, n - 1); }
  }

  function CutsOf(recs: seq<Record>, raws: seq<seq<Byte>>): (cut: seq<bool>)
    requires Encodes(recs, raws)
    ensures Cuts(recs, raws, cut)
  {
    seq(|recs|, j requires 0 <= j < |recs| => Unreadable(recs, raws, j))
  }

  lemma SizeOfRaw(recs: seq<Record>, raws: seq<seq<Byte>>, i: nat)
    requires i < |recs| && Encodes(recs, raws)
    ensures |raws[i]| == Size(recs[i])
  {
    assert RawAt(recs, raws, i);
  }

  lemma LaterCutPlaces(raws: seq<seq<Byte>>)
    requires |raws| == 3 && AllShort(raws) && |raws[0]| == 17 && |raws[1]| == 8180
    ensures PlaceOf(raws, 0) == Place(0, 8) && PlaceOf(raws, 1) == Place(0, 25) && PlaceOf(raws, 2) == Place(1, 21)
    ensures Repeats(raws, 3) == 0
  {
    assert PlaceOf(raws, 1) == Place(0, 25);
    assert Repeats(raws, 2) == 0;
  }

  lemma ReplayLaterCut(recs: seq<Record>, cut: seq<bool>)
    requires |recs| == |cut| == 3 && recs[0].Check? && !recs[1].Check? && !recs[2].Check? && !cut[0] && !cut[1] && cut[2]
    ensures Replay(recs, cut, 0) == Replayed([OpOf(recs[1])], true)
  {
    assert Replay(recs, cut, 2) == Replayed([], true);
    assert Replay(recs, cut, 1) == Prefixed([OpOf(recs[1])], Replay(recs, cut, 2));
  }

  /** Logs recovery panics on exist: the third of these records is cut by the end of page 1. */
  lemma LaterCutHappens(recs: seq<Record>, raws: seq<seq<Byte>>, parts: seq<seq<Byte>>, file: seq<Byte>)
    requires Encodes(recs, raws) && |recs| == 3 && recs[0].Check? && !recs[1].Check? && !recs[2].Check?
    requires Size(recs[1]) == Size(recs[2]) == 8180 && recs[1].pageId > 0
    requires Written(raws, parts) && file == File(parts, |parts|)
    ensures Walk(file, Pos(raws, 0), |file|) == Replayed([OpOf(recs[1])], true)
  {
    SizeOfRaw(recs, raws, 0);
    SizeOfRaw(recs, raws, 1);
    SizeOfRaw(recs, raws, 2);
    LaterCutPlaces(raws);
    var cut := CutsOf(recs, raws);
    WalkIsReplay(recs, raws, parts, cut, 0, file);
    ReplayLaterCut(recs, cut);
  }

  lemma CutCheckpointPlaces(raws: seq<seq<Byte>>)
    requires |raws| == 4 && AllShort(raws) && |raws[0]| == |raws[2]| == 17 && |raws[1]| == 8165 && |raws[3]| == 31
    ensures PlaceOf(raws, 2) == Place(0, 8190) && Repeats(raws, 4) == 0
    ensures Pos(raws, 2) == 8190 && Pos(raws, 3) == 8215 && Pos(raws, 4) == 8246
  {
    assert PlaceOf(raws, 1) == Place(0, 25);
    assert PlaceOf(raws, 2) == Place(0, 8190);
    assert PlaceOf(raws, 3) == Place(1, 23);
    assert Repeats(raws, 2) == Repeats(raws, 1) == 0;
    assert Repeats(raws, 3) == Repeats(raws, 2);
    assert Repeats(raws, 4) == Repeats(raws, 3);
    PosIsAbs(raws, 2);
    PosIsAbs(raws, 3);
    PosIsAbs(raws, 4);
  }

  lemma OpsBehindCheckpoint(recs: seq<Record>)
    requires |recs| == 4 && recs[2].Check? && !recs[3].Check?
    ensures Ops(recs, 2) == [OpOf(recs[3])]
  {
    assert Ops(recs, 4) == [];
    assert Ops(recs, 3) == [OpOf(recs[3])] + Ops(recs, 4);
  }

  /** In this log the checkpoint at offset 8190 is cut, and the deletion behind it is lost without a panic. */
  lemma CutCheckpointLoses(recs: seq<Record>, raws: seq<seq<Byte>>, parts: seq<seq<Byte>>, file: seq<Byte>)
    requires Encodes(recs, raws) && |recs| == 4 && recs[0].Check? && recs[1].Put? && Size(recs[1]) == 8165
    requires recs[2].Check? && recs[3].Del? && |recs[3].key| == 1
    requires Written(raws, parts) && file == File(parts, |parts|)
    ensures Walk(file, Pos(raws, 2), |file|) == Replayed([], false) && Ops(recs, 2) == [OpOf(recs[3])]
  {
    SizeOfRaw(recs, raws, 0);
    SizeOfRaw(recs, raws, 1);
    SizeOfRaw(recs, raws, 2);
    SizeOfRaw(recs, raws, 3);
    CutCheckpointPlaces(raws);
    assert RawAt(recs, raws, 2);
    var laid := Laid(raws[2], Place(0, 8190));
    RecordBytes(raws, parts, 2, 4, 8190, 8215, laid);
    FileEnd(raws, parts, 4, 4);
    CutCheckpointBytes(recs[2].redo, raws[2], laid);
    LostBehind(file, laid);
    OpsBehindCheckpoint(recs);
  }

  lemma CutCheckpointBytes(redo: nat, data: seq<Byte>, laid: seq<Byte>)
    requires data == Data(Check(redo), Place(0, 8190)) && laid == Laid(data, Place(0, 8190))
    ensures |laid| == 25 && laid[0] == 0x80 && laid[17] >= 0x80
  {
    assert laid[17] == data[9];
    assert data[9] == LE(8190)[0];
  }

  lemma LostBehind(file: seq<Byte>, laid: seq<Byte>)
    requires |file| == 8246 && |laid| == 25 && file[8190..8215] == laid && laid[0] == 0x80 && laid[17] >= 0x80
    ensures Walk(file, 8190, |file|) == Replayed([], false)
  {
    assert file[8190] == file[8190..8215][0] && file[8207] == file[8190..8215][17];
    assert StepAt(file, 8190) == Skip(8207);
    assert StepAt(file, 8207) == Skip(8224);
    assert StepAt(file, 8224) == Stop;
  }
}
