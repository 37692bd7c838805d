/**
 The segmented store of one push stream (internal/mux_http/server/streambuf.go).  The class keeps
 the chunked representation; `log`, everything ever appended, is what it stands for.
 */
module StreamLog {
  import opened Bytes
  import opened Rings

  const SEGMENT_SIZE := 4 * 1024 * 1024
  const PUSH_CHUNK := 256 * 1024

  datatype Segment = Segment(base: nat, data: seq<byte>) {
    function End(): nat {
      base + |data|
    }
  }

  /** The segments are non-empty, contiguous, cover exactly [base, |log|) and hold the log's bytes;
      all but the last are full. */
  ghost predicate Covers(segs: seq<Segment>, base: nat, log: seq<byte>) {
    && base <= |log|
    && (segs == [] ==> base == |log|)
    && (segs != [] ==> segs[|segs| - 1].End() == |log|)
    && (forall i | 0 <= i < |segs| :: Holds(segs[i], base + i * SEGMENT_SIZE, log))
    && (forall i | 0 <= i < |segs| - 1 :: |segs[i].data| == SEGMENT_SIZE)
  }

  ghost predicate Holds(s: Segment, at: nat, log: seq<byte>) {
    s.base == at && 0 < |s.data| <= SEGMENT_SIZE && s.End() <= |log| && s.data == log[at..s.End()]
  }

  /** What a read at an absolute offset returns: Got([]) means nothing there yet. */
  datatype LogRead = Evicted | Got(bytes: seq<byte>) | Ended(error: IoError)

  function ReadLog(log: seq<byte>, base: nat, closeErr: Option<IoError>, offset: int, want: nat): LogRead
  {
    if offset < base then Evicted
    else if offset >= |log| then (if closeErr.Some? then Ended(closeErr.value) else Got([]))
    else Got(log[offset..offset + Min(want, |log| - offset)])
  }

  /** A read gets as much as was asked for, or all there is behind the offset; it fails below the base,
      and past the end it waits or reports the end. */
  lemma LogReadIsGreedy(log: seq<byte>, base: nat, closeErr: Option<IoError>, offset: int, want: nat)
    requires base <= |log|
    ensures var r := ReadLog(log, base, closeErr, offset, want);
            && (r.Evicted? <==> offset < base)
            && (r.Ended? <==> |log| <= offset && closeErr.Some?) && (r.Ended? ==> r.error == closeErr.value)
            && (r.Got? && offset < |log| ==>
                  && log[..offset] + r.bytes <= log
                  && (|r.bytes| == want || (|r.bytes| < want && offset + |r.bytes| == |log|)))
            && (r.Got? && offset >= |log| ==> r.bytes == [])
  {
    if base <= offset < |log| {
      var n := Min(want, |log| - offset);
      assert log[..offset] + log[offset..offset + n] == log[..offset + n];
    }
  }

  /** How far a trim to minOffset may move the base: never past minOffset or the end of the log, and
      to within one segment of minOffset. */
  ghost predicate TrimTo(base: nat, write: nat, minOffset: int, base': nat) {
    && base <= base' <= write
    && (base' > base ==> base' <= minOffset)
    && (base <= minOffset <= write ==> minOffset - base' < SEGMENT_SIZE)
    && (minOffset >= write ==> base' == write)
  }

  /** Where a trim puts the base: at the start of the segment that holds minOffset, or at the end of
      the log when every segment ends at or before minOffset. */
  function TrimmedBase(base: nat, write: nat, minOffset: int): nat {
    if minOffset >= write then write
    else if minOffset < base then base
    else base + (minOffset - base) / SEGMENT_SIZE * SEGMENT_SIZE
  }

  /** Trim precision: no byte at or past minOffset is dropped, and less than a segment below it is
      kept. */
  lemma TrimIsPrecise(base: nat, write: nat, minOffset: int)
    requires base <= write
    ensures TrimTo(base, write, minOffset, TrimmedBase(base, write, minOffset))
  {
  }

  // ---- appending ----

  lemma HoldsInLonger(s: Segment, at: nat, log: seq<byte>, more: seq<byte>)
    requires Holds(s, at, log)
    ensures Holds(s, at, log + more)
  {
    assert (log + more)[at..s.End()] == log[at..s.End()];
  }

  lemma CoversInLonger(segs: seq<Segment>, base: nat, log: seq<byte>, more: seq<byte>)
    requires Covers(segs, base, log)
    ensures forall i | 0 <= i < |segs| :: Holds(segs[i], base + i * SEGMENT_SIZE, log + more)
  {
    hide Holds;
    forall i | 0 <= i < |segs|
      ensures Holds(segs[i], base + i * SEGMENT_SIZE, log + more)
    {
      HoldsInLonger(segs[i], base + i * SEGMENT_SIZE, log, more);
    }
  }

  /** Filling up the last segment. */
  lemma ExtendLast(segs: seq<Segment>, base: nat, log: seq<byte>, piece: seq<byte>)
    requires Covers(segs, base, log) && segs != []
    requires |segs[|segs| - 1].data| + |piece| <= SEGMENT_SIZE
    ensures var last := segs[|segs| - 1];
            Covers(segs[|segs| - 1 := last.(data := last.data + piece)], base, log + piece)
  {
    CoversInLonger(segs, base, log, piece);
    var last := segs[|segs| - 1];
    var at := base + (|segs| - 1) * SEGMENT_SIZE;
    assert (log + piece)[at..|log| + |piece|] == log[at..|log|] + piece;
  }

  /** Starting a new segment after a full one, or the first. */
  lemma ExtendNew(segs: seq<Segment>, base: nat, log: seq<byte>, piece: seq<byte>)
    requires Covers(segs, base, log) && 0 < |piece| <= SEGMENT_SIZE
    requires segs != [] ==> |segs[|segs| - 1].data| >= SEGMENT_SIZE
    ensures Covers(segs + [Segment(|log|, piece)], base, log + piece)
  {
    CoversInLonger(segs, base, log, piece);
    FullSegments(segs, base, log);
    NewSegmentHolds(log, piece);
    hide Holds;
  }

  lemma FullSegments(segs: seq<Segment>, base: nat, log: seq<byte>)
    requires Covers(segs, base, log)
    requires segs != [] ==> |segs[|segs| - 1].data| >= SEGMENT_SIZE
    ensures |log| == base + |segs| * SEGMENT_SIZE
    ensures forall s <- segs :: |s.data| == SEGMENT_SIZE
  {
    if segs != [] {
      assert Holds(segs[|segs| - 1], base + (|segs| - 1) * SEGMENT_SIZE, log);
    }
    forall s | s in segs ensures |s.data| == SEGMENT_SIZE {
      var i :| 0 <= i < |segs| && segs[i] == s;
      assert Holds(segs[i], base + i * SEGMENT_SIZE, log);
    }
  }

  lemma NewSegmentHolds(log: seq<byte>, piece: seq<byte>)
    requires 0 < |piece| <= SEGMENT_SIZE
    ensures Holds(Segment(|log|, piece), |log|, log + piece)
  {
    assert (log + piece)[|log|..|log| + |piece|] == piece;
  }

  lemma EndsAscend(segs: seq<Segment>, base: nat, log: seq<byte>, i: nat, j: nat)
    requires Covers(segs, base, log) && i < j < |segs|
    ensures segs[i].End() == base + (i + 1) * SEGMENT_SIZE <= segs[j].base < segs[j].End() <= |log|
  {
    assert Holds(segs[i], base + i * SEGMENT_SIZE, log);
    assert Holds(segs[j], base + j * SEGMENT_SIZE, log);
  }

  /** The most that is retained when no append is larger than `largest`. */
  function Retention(maxRetain: int, largest: nat): nat {
    if maxRetain - 1 + largest < 0 then 0 else maxRetain - 1 + largest
  }

  datatype AppendResult = Appended | WouldBlock | BufferClosed

  class StreamBuffer {
    var segments: seq<Segment>
    var baseOffset: nat
    var writeOffset: nat
    const maxRetain: int
    var closed: bool
    var closeErr: Option<IoError>

    ghost var log: seq<byte>
    ghost var largest: nat  // of all appends so far

    ghost predicate Valid()
      reads this
    {
      && Covers(segments, baseOffset, log) && writeOffset == |log|
      && (closed <==> closeErr.Some?)
      && writeOffset - baseOffset <= Retention(maxRetain, largest)
    }

    constructor (maxRetain: int)
      ensures Valid() && log == [] && baseOffset == 0 && !closed && largest == 0
      ensures this.maxRetain == maxRetain
    {
      this.maxRetain := maxRetain;
      segments, baseOffset, writeOffset := [], 0, 0;
      closed, closeErr := false, None;
      log, largest := [], 0;
    }

    /** Append waits while the retained bytes are at the limit and the buffer is open. */
    method Append(data: seq<byte>) returns (r: AppendResult)
      requires Valid()
      modifies this
      ensures Valid() && baseOffset == old(baseOffset) && closeErr == old(closeErr)
      ensures r == if old(closed) then BufferClosed
                   else if old(writeOffset - baseOffset) >= maxRetain then WouldBlock else Appended
      ensures log == if r.Appended? then old(log) + data else old(log)
      ensures r.Appended? ==> largest == Max(|data|, old(largest))
      ensures !r.Appended? ==> largest == old(largest)
    {
      hide Covers;
      if closed {
        return BufferClosed;
      }
      if writeOffset - baseOffset >= maxRetain {
        return WouldBlock;
      }
      var written := 0;
      assert log + data[..0] == log;
      while written < |data|
        invariant written <= |data|
        invariant Covers(segments, baseOffset, log + data[..written])
        invariant unchanged(`log, `baseOffset, `writeOffset, `closed, `closeErr, `largest)
      {
        written := AppendPiece(data, written);
      }
      assert data[..written] == data;
      writeOffset := writeOffset + |data|;
      log := log + data;
      largest := Max(|data|, largest);
      return Appended;
    }

    /** One turn of Append's loop: open a segment if the last is full, then fill it. */
    method AppendPiece(data: seq<byte>, written: nat) returns (written': nat)
      requires written < |data| && writeOffset == |log|
      requires Covers(segments, baseOffset, log + data[..written])
      modifies `segments
      ensures written < written' <= |data|
      ensures Covers(segments, baseOffset, log + data[..written'])
    {
      hide Covers, Holds;
      ghost var was := segments;
      if |segments| == 0 || |segments[|segments| - 1].data| >= SEGMENT_SIZE {
        segments := segments + [Segment(writeOffset + written, [])];
      }
      var last := segments[|segments| - 1];
      var avail := SEGMENT_SIZE - |last.data|;
      var n := |data| - written;
      if n > avail {
        n := avail;
      }
      var piece := data[written..written + n];
      segments := segments[|segments| - 1 := last.(data := last.data + piece)];
      written' := written + n;
      assert log + data[..written'] == (log + data[..written]) + piece;
      if was == [] || |was[|was| - 1].data| >= SEGMENT_SIZE {
        ExtendNew(was, baseOffset, log + data[..written], piece);
        assert [] + piece == piece;
        assert segments == was + [Segment(writeOffset + written, piece)];
      } else {
        ExtendLast(was, baseOffset, log + data[..written], piece);
      }
    }

    method Close(err: Option<IoError>)
      requires Valid()
      modifies `closed, `closeErr
      ensures Valid()
      ensures closeErr == if old(closed) then old(closeErr) else Some(if err.Some? then err.value else Eof)
      ensures closed
    {
      if closed {
        return;
      }
      closed := true;
      closeErr := Some(if err.Some? then err.value else Eof);
    }

    /** sort.Search for the first segment that ends after `offset`. */
    method Search(offset: int) returns (i: nat)
      requires Valid()
      ensures i <= |segments|
      ensures forall k | 0 <= k < i :: segments[k].End() <= offset
      ensures forall k | i <= k < |segments| :: offset < segments[k].End()
    {
      hide Covers;
      i := 0;
      var j := |segments|;
      while i < j
        invariant i <= j <= |segments|
        invariant forall k | 0 <= k < i :: segments[k].End() <= offset
        invariant forall k | j <= k < |segments| :: offset < segments[k].End()
      {
        var h := (i + j) / 2;
        if segments[h].End() > offset {
          forall k | h <= k < |segments| ensures offset < segments[k].End() {
            if h < k {
              EndsAscend(segments, baseOffset, log, h, k);
            }
          }
          j := h;
        } else {
          forall k | 0 <= k <= h ensures segments[k].End() <= offset {
            if k < h {
              EndsAscend(segments, baseOffset, log, k, h);
            }
          }
          i := h + 1;
        }
      }
    }

    /** Read fills buf from the log at `offset`, across as many segments as it takes. */
    method Read(offset: int, buf: array<byte>) returns (r: LogRead)
      requires Valid()
      modifies buf
      ensures r == ReadLog(log, baseOffset, closeErr, offset, buf.Length)
      ensures buf[..] == if r.Got? then r.bytes + old(buf[|r.bytes|..]) else old(buf[..])
    {
      if offset < baseOffset {
        return Evicted;
      }
      if offset >= writeOffset {
        if closed {
          return Ended(closeErr.value);
        }
        return Got([]);
      }
      var i := Search(offset);
      var n := CopyFrom(i, offset, buf);
      assert buf[..] == buf[..n] + buf[n..];
      return Got(buf[..n]);
    }

    /** Read's copy loop, from the first segment that ends after `offset`. */
    method CopyFrom(first: nat, offset: nat, buf: array<byte>) returns (n: nat)
      requires Valid() && baseOffset <= offset < |log| && first <= |segments|
      requires forall k | 0 <= k < first :: segments[k].End() <= offset
      requires forall k | first <= k < |segments| :: offset < segments[k].End()
      modifies buf
      ensures n == Min(buf.Length, |log| - offset)
      ensures buf[..n] == log[offset..offset + n] && buf[n..] == old(buf[..])[n..]
    {
      hide Covers, Retention;
      var i := first;
      n := 0;
      StartsInside(segments, baseOffset, log, i, offset);
      while i < |segments| && n < buf.Length
        invariant i <= |segments| && n <= buf.Length && offset + n <= |log|
        invariant buf[..n] == log[offset..offset + n] && buf[n..] == old(buf[..])[n..]
        invariant n == buf.Length || (i < |segments| && segments[i].base <= offset + n < segments[i].End())
                  || (i == |segments| && offset + n == |log|)
      {
        var taken := CopySegment(i, offset, n, buf);
        NextInside(segments, baseOffset, log, i);
        n := n + taken;
        i := i + 1;
      }
    }

    /** One turn of Read's loop: copy what segment i has, or what still fits. */
    method CopySegment(i: nat, offset: nat, n: nat, buf: array<byte>) returns (taken: nat)
      requires Valid() && i < |segments| && n < buf.Length
      requires segments[i].base <= offset + n < segments[i].End()
      requires offset + n <= |log| && buf[..n] == log[offset..offset + n]
      modifies buf
      ensures taken == Min(segments[i].End() - (offset + n), buf.Length - n)
      ensures offset + n + taken <= |log|
      ensures buf[n + taken..] == old(buf[n..])[taken..]
      ensures buf[..n + taken] == log[offset..offset + n + taken]
    {
      hide Covers, Retention, Concat, Holds;
      var seg := segments[i];
      var start: int := offset + n - seg.base;
      if start < 0 {
        start := 0;
      }
      var end := |seg.data|;
      var want := buf.Length - n;
      if end - start > want {
        end := start + want;
      }
      SegmentBytes(segments, baseOffset, log, i, start, end);
      Copy(buf, n, seg.data[start..end]);
      taken := end - start;
      Glue(buf[..], n, taken, log, offset);
    }

    /** Trim drops the segments that end at or before minOffset. */
    method Trim(minOffset: int)
      requires Valid()
      modifies `segments, `baseOffset
      ensures Valid() && baseOffset == TrimmedBase(old(baseOffset), writeOffset, minOffset)
    {
      hide Covers, TrimmedBase, Retention;
      var trimCount := Search(minOffset);
      TrimBounds(segments, baseOffset, log, trimCount, minOffset);
      if trimCount == 0 {
        return;
      }
      segments := segments[trimCount..];
      if |segments| > 0 {
        baseOffset := segments[0].base;
      } else {
        baseOffset := writeOffset;
      }
    }

    /** PushBroker.Push: append what the origin's body delivers, then close.  The body is given as
        the results of its reads, none larger than the 256 KiB buffer, and how it ended; `blocked`
        means that Append would wait for ever without a trim.  `k` reads have been stored. */
    method Push(parts: seq<seq<byte>>, end: Option<IoError>) returns (total: nat, blocked: bool, k: nat)
      requires Valid()
      requires forall i | 0 <= i < |parts| :: |parts[i]| <= PUSH_CHUNK
      modifies this
      ensures Valid() && baseOffset == old(baseOffset)
      ensures k <= |parts| && log == old(log) + Concat(parts[..k]) && total == |Concat(parts[..k])|
      ensures k < |parts| ==> blocked || old(closed)
      ensures blocked ==> k < |parts| && parts[k] != [] && !closed && writeOffset - baseOffset >= maxRetain
      ensures !blocked ==> closed && (!old(closed) ==> closeErr == Some(if end.Some? then end.value else Eof))
      ensures largest <= Max(old(largest), PUSH_CHUNK)
      ensures maxRetain > 0 && old(largest) <= PUSH_CHUNK ==> writeOffset - baseOffset < maxRetain + PUSH_CHUNK
    {
      hide Covers, Concat;
      total, k := 0, 0;
      ConcatNone(parts);
      assert old(log) + [] == old(log);
      while k < |parts|
        invariant k <= |parts| && Valid() && unchanged(`baseOffset, `closed, `closeErr)
        invariant log == old(log) + Concat(parts[..k]) && total == |Concat(parts[..k])|
        invariant largest <= Max(old(largest), PUSH_CHUNK)
      {
        ConcatStep(parts, k);
        assert (old(log) + Concat(parts[..k])) + parts[k] == old(log) + (Concat(parts[..k]) + parts[k]);
        if |parts[k]| > 0 {
          var r := Append(parts[k]);
          if r.WouldBlock? {
            return total, true, k;
          } else if r.BufferClosed? {
            return total, false, k;
          }
          total := total + |parts[k]|;
        }
        k := k + 1;
      }
      Close(end);
      return total, false, k;
    }
  }

  /** A piece of a segment is that piece of the log. */
  lemma SegmentBytes(segs: seq<Segment>, base: nat, log: seq<byte>, i: nat, start: nat, end: nat)
    requires Covers(segs, base, log) && i < |segs| && start <= end <= |segs[i].data|
    ensures segs[i].End() <= |log|
    ensures segs[i].data[start..end] == log[segs[i].base + start..segs[i].base + end]
  {
    assert Holds(segs[i], base + i * SEGMENT_SIZE, log);
    hide Covers;
    SliceOfSlice(log, segs[i].base, segs[i].End(), start, end);
  }

  function Max(a: nat, b: nat): nat {
    if a >= b then a else b
  }

  /** Two adjacent slices copied side by side are the joined slice. */
  lemma Glue(b: seq<byte>, n: nat, taken: nat, log: seq<byte>, offset: nat)
    requires n + taken <= |b| && offset + n + taken <= |log|
    requires b[..n] == log[offset..offset + n]
    requires b[n..n + taken] == log[offset + n..offset + n + taken]
    ensures b[..n + taken] == log[offset..offset + n + taken]
  {
    assert b[..n + taken] == b[..n] + b[n..n + taken];
    assert log[offset..offset + n + taken] == log[offset..offset + n] + log[offset + n..offset + n + taken];
  }

  lemma SliceOfSlice(s: seq<byte>, from: nat, to: nat, i: nat, j: nat)
    requires from <= to <= |s| && i <= j <= to - from
    ensures s[from..to][i..j] == s[from + i..from + j]
  {
    var a, b := s[from..to][i..j], s[from + i..from + j];
    forall k | 0 <= k < j - i ensures a[k] == b[k] {
      assert a[k] == s[from..to][i + k] == s[from + (i + k)];
    }
  }

  /** The first segment ending after an offset in [base, |log|) contains that offset. */
  lemma StartsInside(segs: seq<Segment>, base: nat, log: seq<byte>, i: nat, offset: nat)
    requires Covers(segs, base, log) && base <= offset < |log| && i <= |segs|
    requires forall k | 0 <= k < i :: segs[k].End() <= offset
    requires forall k | i <= k < |segs| :: offset < segs[k].End()
    ensures i < |segs| && segs[i].base <= offset < segs[i].End()
  {
    assert segs != [];
    assert Holds(segs[0], base, log);
    if i < |segs| {
      assert Holds(segs[i], base + i * SEGMENT_SIZE, log);
      if i > 0 {
        EndsAscend(segs, base, log, i - 1, i);
      }
    }
  }

  /** Where segment i ends, the next begins, or the log ends. */
  lemma NextInside(segs: seq<Segment>, base: nat, log: seq<byte>, i: nat)
    requires Covers(segs, base, log) && i < |segs|
    ensures if i + 1 < |segs| then segs[i].End() == segs[i + 1].base < segs[i + 1].End()
            else segs[i].End() == |log|
  {
    if i + 1 < |segs| {
      assert Holds(segs[i], base + i * SEGMENT_SIZE, log);
      assert Holds(segs[i + 1], base + (i + 1) * SEGMENT_SIZE, log);
    }
  }

  /** The number of segments that end at or before minOffset. */
  ghost predicate TrimCount(segs: seq<Segment>, k: nat, minOffset: int) {
    && k <= |segs|
    && (forall i | 0 <= i < k :: segs[i].End() <= minOffset)
    && (forall i | k <= i < |segs| :: minOffset < segs[i].End())
  }

  /** Dropping the first k segments, those that end at or before minOffset. */
  lemma TrimBounds(segs: seq<Segment>, base: nat, log: seq<byte>, k: nat, minOffset: int)
    requires Covers(segs, base, log) && TrimCount(segs, k, minOffset)
    ensures var base' := if k == 0 then base else if k < |segs| then segs[k].base else |log|;
            base' == TrimmedBase(base, |log|, minOffset)
            && Covers(segs[k..], base', log) && base <= base'
  {
    if k == 0 {
      assert segs[k..] == segs;
      if segs != [] {
        assert Holds(segs[0], base, log);
      }
    } else if k < |segs| {
      hide Covers;
      TrimmedInside(segs, base, log, k, minOffset);
      DropFirst(segs, base, log, k);
    } else {
      assert Holds(segs[k - 1], base + (k - 1) * SEGMENT_SIZE, log);
    }
  }

  lemma DropFirst(segs: seq<Segment>, base: nat, log: seq<byte>, k: nat)
    requires Covers(segs, base, log) && k < |segs|
    ensures Covers(segs[k..], segs[k].base, log) && base <= segs[k].base
  {
    assert Holds(segs[k], base + k * SEGMENT_SIZE, log);
    hide Holds;
    var rest := segs[k..];
    forall i | 0 <= i < |rest|
      ensures Holds(rest[i], segs[k].base + i * SEGMENT_SIZE, log)
    {
      assert Holds(segs[k + i], base + (k + i) * SEGMENT_SIZE, log);
    }
  }

  lemma TrimmedInside(segs: seq<Segment>, base: nat, log: seq<byte>, k: nat, minOffset: int)
    requires Covers(segs, base, log) && 0 < k < |segs|
    requires segs[k - 1].End() <= minOffset < segs[k].End()
    ensures segs[k].base == TrimmedBase(base, |log|, minOffset)
  {
    EndsAscend(segs, base, log, k - 1, k);
    assert Holds(segs[k], base + k * SEGMENT_SIZE, log);
    assert base + k * SEGMENT_SIZE <= minOffset < base + k * SEGMENT_SIZE + SEGMENT_SIZE;
    assert (minOffset - base) / SEGMENT_SIZE == k;
  }
}
