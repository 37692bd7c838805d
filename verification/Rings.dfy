/**
 The bounded byte queues.  `Pipe` is the queue as a value; the classes StreamPipe
 (internal/mux/muxproto/pipe.go) and RecvBuffer (buffer.go of both clients) keep it in a ring
 with wrap-around copies, and every method is proved to do what the value says.
 A wait on a condition variable becomes an outcome: `Blocked` means the caller would still wait.
 */
module Rings {
  import opened Bytes

  datatype IoError = Eof | ErrClosedPipe | ErrPipeFull | CtxCancelled | Reset(reason: string)

  // ---- the queue as a value ----

  datatype Pipe = Pipe(contents: seq<byte>, cap: nat, closed: bool, closeErr: Option<IoError>)
  {
    predicate Valid() {
      |contents| <= cap && (closeErr.Some? ==> closed)
    }

    function WriteNonBlock(data: seq<byte>): (Pipe, Option<IoError>) {
      if closed then (this, Some(ErrClosedPipe))
      else if |data| > cap - |contents| then (this, Some(ErrPipeFull))
      else (this.(contents := contents + data), None)
    }

    /** What a read of at most `want` bytes does; `end` is the error of a closed empty queue. */
    function Read(want: nat, end: IoError): (Pipe, ReadOutcome) {
      if contents == [] then (this, if closed then End(end) else Blocked)
      else
        var n := Min(want, |contents|);
        (this.(contents := contents[n..]), Data(contents[..n]))
    }

    function CloseWrite(err: Option<IoError>): Pipe {
      if closed then this else this.(closed := true, closeErr := err)
    }

    function EndError(): IoError {
      if closeErr.Some? then closeErr.value else Eof
    }
  }

  /** Operations on a queue, as other goroutines perform them one after the other. */
  datatype Op = PutOp(data: seq<byte>) | GetOp(want: nat) | CloseOp(err: Option<IoError>) | ReopenOp

  function Apply(p: Pipe, op: Op): Pipe {
    match op
    case PutOp(data) => p.WriteNonBlock(data).0
    case GetOp(want) => p.Read(want, Eof).0
    case CloseOp(err) => p.CloseWrite(err)
    case ReopenOp => p.(closed := false, closeErr := None)
  }

  /** What an operation puts in (a refused write nothing), and what it takes out. */
  function In(p: Pipe, op: Op): seq<byte> {
    if op.PutOp? && p.WriteNonBlock(op.data).1.None? then op.data else []
  }

  function Out(p: Pipe, op: Op): seq<byte> {
    if op.GetOp? && p.Read(op.want, Eof).1.Data? then p.Read(op.want, Eof).1.bytes else []
  }

  /** The queue after a sequence of operations, with all that went in and all that came out. */
  function ApplyAll(p: Pipe, ops: seq<Op>): (Pipe, seq<byte>, seq<byte>)
    decreases |ops|
  {
    if ops == [] then (p, [], [])
    else
      var (p', put, got) := ApplyAll(Apply(p, ops[0]), ops[1..]);
      (p', In(p, ops[0]) + put, Out(p, ops[0]) + got)
  }

  /** A bounded FIFO: over any operation sequence, closing and reopening included, what was in the
      queue and what was accepted comes out in order or is still there, within the capacity. */
  lemma {:induction false} QueueIsFifo(p: Pipe, ops: seq<Op>)
    requires p.Valid()
    ensures var (p', put, got) := ApplyAll(p, ops);
            p.contents + put == got + p'.contents && p'.Valid() && p'.cap == p.cap
    decreases |ops|
  {
    hide Apply, In, Out;
    if ops == [] {
      assert p.contents + [] == [] + p.contents;
    } else {
      OneOp(p, ops[0]);
      var q := Apply(p, ops[0]);
      QueueIsFifo(q, ops[1..]);
      var (p', put, got) := ApplyAll(q, ops[1..]);
      var i, o := In(p, ops[0]), Out(p, ops[0]);
      assert p.contents + (i + put) == (p.contents + i) + put;
      assert (o + q.contents) + put == o + (q.contents + put);
      assert o + (got + p'.contents) == (o + got) + p'.contents;
    }
  }

  lemma OneOp(p: Pipe, op: Op)
    requires p.Valid()
    ensures p.contents + In(p, op) == Out(p, op) + Apply(p, op).contents
    ensures Apply(p, op).Valid() && Apply(p, op).cap == p.cap
  {
    assert p.contents + [] == [] + p.contents;
  }

  /** A write is taken whole by an open queue with room for it, and otherwise not at all. */
  lemma WriteIsAllOrNothing(p: Pipe, data: seq<byte>)
    ensures var (q, err) := p.WriteNonBlock(data);
            && (err.None? <==> !p.closed && |p.contents + data| <= p.cap)
            && q == p.(contents := if err.None? then p.contents + data else p.contents)
            && (err.Some? ==> err.value == if p.closed then ErrClosedPipe else ErrPipeFull)
  {
  }

  /** A read takes as much as was asked for, or all there is; it waits only on an open empty queue. */
  lemma ReadIsGreedy(p: Pipe, want: nat, end: IoError)
    ensures var (q, r) := p.Read(want, end);
            && q == p.(contents := q.contents)
            && (r.Data? <==> p.contents != []) && (r.Blocked? <==> p.contents == [] && !p.closed)
            && (r.Data? ==> r.bytes + q.contents == p.contents
                            && (|r.bytes| == want || (|r.bytes| < want && q.contents == [])))
            && (r.End? ==> q == p && r.error == end)
  {
  }

  /** Closing is final until the queue is reopened: whatever is tried afterwards, nothing more goes
      in, the first error stays, every buffered byte can still be read, and the error comes last. */
  lemma {:induction false} CloseIsFinal(p: Pipe, err: Option<IoError>, ops: seq<Op>)
    requires p.Valid() && !p.closed && ReopenOp !in ops
    ensures var (q, put, got) := ApplyAll(p.CloseWrite(err), ops);
            && put == [] && p.contents == got + q.contents && q.closed && q.closeErr == err
            && (q.contents == [] ==> forall want :: q.Read(want, q.EndError()).1
                                                    == End(if err.Some? then err.value else Eof))
  {
    ClosedStaysClosed(p.CloseWrite(err), ops);
    QueueIsFifo(p.CloseWrite(err), ops);
    assert p.contents + [] == p.contents;
  }

  lemma {:induction false} ClosedStaysClosed(p: Pipe, ops: seq<Op>)
    requires p.closed && ReopenOp !in ops
    ensures var (q, put, got) := ApplyAll(p, ops); put == [] && q.closed && q.closeErr == p.closeErr
    decreases |ops|
  {
    if ops != [] {
      assert ops[0] in ops && ReopenOp !in ops[1..];
      ClosedStaysClosed(Apply(p, ops[0]), ops[1..]);
    }
  }

  datatype ReadOutcome = Blocked | Data(bytes: seq<byte>) | End(error: IoError)

  // ---- ring arithmetic ----

  function Wrap(i: nat, cap: nat): nat {
    if i < cap then i else i - cap
  }

  /** The index n places after i: (i + n) % cap, which wraps at most once. */
  method Advance(i: nat, n: nat, cap: nat) returns (j: nat)
    requires i < cap && n <= cap
    ensures j == Wrap(i + n, cap) && j < cap
  {
    j := (i + n) % cap;
    ghost var q := (i + n) / cap;
    assert q * cap + j == i + n;
    assert q >= 2 ==> q * cap >= 2 * cap;
    assert q <= 0 ==> q * cap <= 0;
  }

  /** The unread bytes: `size` of them from `head`, going round the end of the buffer. */
  ghost function View(buf: seq<byte>, head: nat, size: nat): (v: seq<byte>)
    requires head <= |buf| && size <= |buf|
    ensures |v| == size
  {
    if head + size <= |buf| then buf[head..head + size] else buf[head..] + buf[..head + size - |buf|]
  }

  lemma ViewAt(buf: seq<byte>, head: nat, size: nat, k: nat)
    requires head < |buf| && size <= |buf| && k < size
    ensures View(buf, head, size)[k] == buf[Wrap(head + k, |buf|)]
  {
  }

  /** A view splits at any point into two consecutive views. */
  lemma ViewSplit(buf: seq<byte>, head: nat, size: nat, n: nat)
    requires head < |buf| && n <= size <= |buf|
    ensures Wrap(head + n, |buf|) < |buf|
    ensures View(buf, head, size) == View(buf, head, n) + View(buf, Wrap(head + n, |buf|), size - n)
  {
    hide View;
    var mid := Wrap(head + n, |buf|);
    var v := View(buf, head, n) + View(buf, mid, size - n);
    forall k: nat | k < size
      ensures View(buf, head, size)[k] == v[k]
    {
      ViewAt(buf, head, size, k);
      if k < n {
        ViewAt(buf, head, n, k);
      } else {
        ViewAt(buf, mid, size - n, k - n);
      }
    }
  }

  /** Changing only the n cells from the tail on leaves the unread bytes alone. */
  lemma ViewKept(was: seq<byte>, now: seq<byte>, head: nat, size: nat, n: nat)
    requires |was| == |now| && head < |was| && size + n <= |was|
    requires var tail := Wrap(head + size, |was|);
             forall i | 0 <= i < |was| && !(tail <= i < tail + n) && !(i < tail + n - |was|) :: now[i] == was[i]
    ensures View(now, head, size) == View(was, head, size)
  {
    hide View;
    forall k: nat | k < size
      ensures View(now, head, size)[k] == View(was, head, size)[k]
    {
      ViewAt(was, head, size, k);
      ViewAt(now, head, size, k);
    }
  }

  /** ringWrite: copy src in at tail, wrapping at most once.  Returns the new tail. */
  method RingWrite(buf: array<byte>, ghost head: nat, tail: nat, ghost size: nat, src: seq<byte>)
    returns (tail': nat)
    requires buf.Length > 0 && head < buf.Length && size + |src| <= buf.Length
    requires tail == Wrap(head + size, buf.Length)
    modifies buf
    ensures tail' == Wrap(head + size + |src|, buf.Length) && tail' < buf.Length
    ensures View(buf[..], head, size + |src|) == old(View(buf[..], head, size)) + src
  {
    tail' := CopyIn(buf, tail, src);
    ViewKept(old(buf[..]), buf[..], head, size, |src|);
    ViewSplit(buf[..], head, size + |src|, size);
  }

  method CopyIn(buf: array<byte>, tail: nat, src: seq<byte>) returns (tail': nat)
    requires tail < buf.Length && |src| <= buf.Length
    modifies buf
    ensures tail' == Wrap(tail + |src|, buf.Length)
    ensures View(buf[..], tail, |src|) == src
    ensures forall i | 0 <= i < buf.Length && !(tail <= i < tail + |src|) && !(i < tail + |src| - buf.Length)
              :: buf[i] == old(buf[i])
  {
    var n := |src|;
    var first := buf.Length - tail;
    if first >= n {
      Copy(buf, tail, src);
    } else {
      Copy(buf, tail, src[..first]);
      assert buf[tail..] == src[..first];
      Copy(buf, 0, src[first..]);
      assert buf[tail..] == src[..first];
    }
    tail' := Advance(tail, n, buf.Length);
  }

  /** ringRead: copy n bytes out from head into dst[..n].  Returns the new head. */
  method RingRead(buf: array<byte>, head: nat, ghost size: nat, dst: array<byte>, n: nat)
    returns (head': nat)
    requires head < buf.Length && n <= size <= buf.Length
    requires n <= dst.Length && dst != buf
    modifies dst
    ensures head' == Wrap(head + n, buf.Length) && head' < buf.Length
    ensures dst[..n] == View(buf[..], head, size)[..n]
    ensures dst[n..] == old(dst[n..])
    ensures View(buf[..], head', size - n) == View(buf[..], head, size)[n..]
  {
    CopyOut(buf, head, dst, n);
    head' := Advance(head, n, buf.Length);
    ViewSplit(buf[..], head, size, n);
    hide View;
    assert View(buf[..], head, size)[..n] == View(buf[..], head, n);
  }

  method CopyOut(buf: array<byte>, head: nat, dst: array<byte>, n: nat)
    requires head < buf.Length && n <= buf.Length && n <= dst.Length && dst != buf
    modifies dst
    ensures dst[..n] == View(buf[..], head, n) && dst[n..] == old(dst[n..])
  {
    var first := buf.Length - head;
    if first >= n {
      Copy(dst, 0, buf[head..head + n]);
      assert dst[..n] == dst[0..n];
    } else {
      CopyBoth(dst, buf[head..], buf[..n - first]);
    }
    assert dst[n..] == old(dst[n..]);
  }

  /** The two copies of a read that wraps. */
  method CopyBoth(dst: array<byte>, a: seq<byte>, b: seq<byte>)
    requires |a| + |b| <= dst.Length
    modifies dst
    ensures dst[..|a| + |b|] == a + b
    ensures forall i | |a| + |b| <= i < dst.Length :: dst[i] == old(dst[i])
  {
    Copy(dst, 0, a);
    assert dst[..|a|] == dst[0..|a|];
    Copy(dst, |a|, b);
    assert dst[..|a|] == a;
    assert dst[..|a| + |b|] == dst[..|a|] + dst[|a|..|a| + |b|];
  }

  /** What other goroutines do to a queue while a blocking writer has let go of the lock. */
  datatype Interference = ReaderTakes(want: nat) | Closes(err: Option<IoError>) | CtxDone

  // ---- StreamPipe ----

  const DEFAULT_PIPE_CAP := 256 * 1024

  class StreamPipe {
    const cap: nat
    var buf: array?<byte>  // allocated on the first write
    var head: nat
    var tail: nat
    var size: nat
    var closed: bool
    var closeErr: Option<IoError>

    ghost predicate Valid()
      reads this, buf
    {
      && 0 < cap && head < cap && size <= cap && tail == Wrap(head + size, cap)
      && (buf == null ==> size == 0)
      && (buf != null ==> buf.Length == cap)
      && (closeErr.Some? ==> closed)
    }

    ghost function Contents(): seq<byte>
      reads this, buf
      requires Valid()
    {
      if buf == null then [] else View(buf[..], head, size)
    }

    ghost function Abs(): (p: Pipe)
      reads this, buf
      requires Valid()
      ensures p.Valid() && |p.contents| == size
    {
      Pipe(Contents(), cap, closed, closeErr)
    }

    constructor (capacity: int)
      ensures Valid() && buf == null
      ensures Abs() == Pipe([], if capacity <= 0 then DEFAULT_PIPE_CAP else capacity, false, None)
    {
      cap := if capacity <= 0 then DEFAULT_PIPE_CAP else capacity;
      buf := null;
      head, tail, size := 0, 0, 0;
      closed, closeErr := false, None;
    }

    method EnsureBuf() returns (b: array<byte>)
      requires Valid()
      modifies `buf
      ensures Valid() && Abs() == old(Abs())
      ensures b == buf && (buf == old(buf) || (old(buf) == null && fresh(buf)))
    {
      if buf == null {
        buf := new byte[cap](_ => 0);
      }
      b := buf;
    }

    method WriteNonBlock(data: seq<byte>) returns (n: nat, err: Option<IoError>)
      requires Valid()
      modifies this, buf
      ensures Valid() && (buf == old(buf) || (old(buf) == null && fresh(buf)))
      ensures (Abs(), err) == old(Abs()).WriteNonBlock(data)
      ensures n == if err.None? then |data| else 0
    {
      if closed {
        return 0, Some(ErrClosedPipe);
      }
      if |data| > cap - size {
        return 0, Some(ErrPipeFull);
      }
      Put(data);
      return |data|, None;
    }

    /** ensureBuf and ringWrite under the lock. */
    method Put(data: seq<byte>)
      requires Valid() && !closed && size + |data| <= cap
      modifies this, buf
      ensures Valid() && (buf == old(buf) || (old(buf) == null && fresh(buf)))
      ensures Abs() == old(Abs()).(contents := old(Contents()) + data)
    {
      hide View;
      var b := EnsureBuf();
      tail := RingWrite(b, head, tail, size, data);
      size := size + |data|;
    }

    method Read(b: array<byte>) returns (r: ReadOutcome)
      requires Valid() && b != buf
      modifies this, b
      ensures Valid() && buf == old(buf)
      ensures (Abs(), r) == old(Abs()).Read(b.Length, old(Abs()).EndError())
      ensures b[..] == if r.Data? then r.bytes + old(b[|r.bytes|..]) else old(b[..])
    {
      hide View;
      if size == 0 {
        if closed {
          return End(if closeErr.Some? then closeErr.value else Eof);
        }
        return Blocked;
      }
      var n := b.Length;
      if n > size {
        n := size;
      }
      head := RingRead(buf, head, size, b, n);
      size := size - n;
      assert b[..] == b[..n] + b[n..];
      return Data(b[..n]);
    }

    method CloseWrite(err: Option<IoError>)
      requires Valid()
      modifies `closed, `closeErr
      ensures Valid() && Abs() == old(Abs()).CloseWrite(err)
    {
      if closed {
        return;
      }
      closed := true;
      closeErr := err;
    }

    /** One step of another goroutine; `got` is what a reader took. */
    method Interfere(e: Interference) returns (got: seq<byte>)
      requires Valid()
      modifies this
      ensures Valid() && buf == old(buf) && old(Contents()) == got + Contents()
      ensures old(closed) ==> closed && closeErr == old(closeErr)
    {
      hide View;
      got := [];
      match e
      case ReaderTakes(want) =>
        var b := new byte[want](_ => 0);
        var r := Read(b);
        if r.Data? {
          got := r.bytes;
        }
      case Closes(err) => CloseWrite(err);
      case CtxDone =>
    }

    /** The blocking Write, with other goroutines doing `env` whenever the lock is free.  `taken`
        is what readers removed meanwhile; `blocked` means that env ran out while the pipe was
        still full and open.  However long data is, nothing is lost, repeated or reordered. */
    method Write(data: seq<byte>, env: seq<Interference>)
      returns (written: nat, err: Option<IoError>, blocked: bool, taken: seq<byte>)
      requires Valid()
      modifies this, buf
      ensures Valid() && (buf == old(buf) || (old(buf) == null && fresh(buf)))
      ensures written <= |data| && old(Contents()) + data[..written] == taken + Contents()
      ensures err.None? && !blocked ==> written == |data|
      ensures blocked ==> err.None? && size == cap && !closed && written < |data|
      ensures err.Some? ==> closed && written < |data|
      ensures old(closed) && data != [] ==> err.Some? && written == 0
      ensures data != [] && err.None? && !blocked ==> !closed
      ensures env == [] && !old(closed) && old(size) + |data| <= cap ==> err.None? && !blocked && taken == []
      ensures err.Some? ==> err == Some(if closeErr.Some? then closeErr.value else ErrClosedPipe)
    {
      hide View, Wrap;
      written, taken, blocked := 0, [], false;
      var left := env;
      while written < |data|
        invariant Valid() && (buf == old(buf) || (old(buf) == null && fresh(buf)))
        invariant written <= |data|
        invariant old(Contents()) + data[..written] == taken + Contents()
        invariant env == [] ==> left == [] && taken == [] && closed == old(closed)
        invariant if written == 0 then old(closed) ==> closed else !old(closed) && !closed
        decreases |data| - written
      {
        left, taken, blocked := AwaitRoom(left, taken);
        if blocked {
          return written, None, true, taken;
        }
        if closed {
          err := Some(if closeErr.Some? then closeErr.value else ErrClosedPipe);
          return;
        }
        written := PutNext(data, written, old(Contents()), taken);
      }
      return written, None, false, taken;
    }

    /** One turn of Write's loop: as much of the rest as there is room for. */
    method PutNext(data: seq<byte>, written: nat, ghost was: seq<byte>, ghost taken: seq<byte>) returns (written': nat)
      requires Valid() && !closed && size < cap && written < |data|
      requires was + data[..written] == taken + Contents()
      modifies this, buf
      ensures Valid() && !closed && (buf == old(buf) || (old(buf) == null && fresh(buf)))
      ensures written < written' <= |data| && was + data[..written'] == taken + Contents()
      ensures written' == |data| || size == cap
    {
      hide View, Wrap;
      var avail := cap - size;
      var chunk := |data| - written;
      if chunk > avail {
        chunk := avail;
      }
      AppendSlice(was, data, written, written + chunk, taken, Contents());
      Put(data[written..written + chunk]);
      written' := written + chunk;
    }

    /** Wait for room or the close; `blocked` means that the wait would never end. */
    method AwaitRoom(env: seq<Interference>, taken: seq<byte>)
      returns (env': seq<Interference>, taken': seq<byte>, blocked: bool)
      requires Valid()
      modifies this
      ensures Valid() && buf == old(buf)
      ensures taken + old(Contents()) == taken' + Contents()
      ensures old(closed) ==> closed && closeErr == old(closeErr)
      ensures blocked <==> size == cap && !closed
      ensures env == [] ==> env' == [] && taken' == taken && closed == old(closed)
    {
      hide View;
      env', taken' := Unlocked(env, taken);
      while size == cap && !closed
        invariant Valid() && buf == old(buf)
        invariant taken + old(Contents()) == taken' + Contents()
        invariant old(closed) ==> closed && closeErr == old(closeErr)
        invariant env == [] ==> env' == [] && taken' == taken && closed == old(closed)
        decreases |env'|
      {
        if env' == [] {
          return env', taken', true;
        }
        env', taken' := Step(env', taken');
        env', taken' := Unlocked(env', taken');
      }
      blocked := false;
    }

    /** Any number of steps of other goroutines. */
    method Unlocked(env: seq<Interference>, taken: seq<byte>)
      returns (env': seq<Interference>, taken': seq<byte>)
      requires Valid()
      modifies this
      ensures Valid() && buf == old(buf)
      ensures taken + old(Contents()) == taken' + Contents()
      ensures old(closed) ==> closed && closeErr == old(closeErr)
      ensures |env'| <= |env| && (env == [] ==> taken' == taken && closed == old(closed))
    {
      hide View;
      env', taken' := env, taken;
      var more: bool := *;
      while more && env' != []
        invariant Valid() && buf == old(buf) && |env'| <= |env|
        invariant old(closed) ==> closed && closeErr == old(closeErr)
        invariant env == [] ==> taken' == taken && closed == old(closed)
        invariant taken + old(Contents()) == taken' + Contents()
        decreases |env'|
      {
        env', taken' := Step(env', taken');
        more := *;
      }
    }

    method Step(env: seq<Interference>, taken: seq<byte>)
      returns (env': seq<Interference>, taken': seq<byte>)
      requires Valid()
      modifies this
      ensures Valid() && buf == old(buf)
      ensures taken + old(Contents()) == taken' + Contents()
      ensures old(closed) ==> closed && closeErr == old(closeErr)
      ensures env != [] ==> |env'| < |env|
      ensures env == [] ==> env' == []
    {
      hide View;
      if env == [] {
        return env, taken;
      }
      var got := Interfere(env[0]);
      assert taken + (got + Contents()) == (taken + got) + Contents();
      return env[1..], taken + got;
    }
  }

  lemma AppendSlice(was: seq<byte>, data: seq<byte>, i: nat, j: nat, taken: seq<byte>, now: seq<byte>)
    requires i <= j <= |data| && was + data[..i] == taken + now
    ensures was + data[..j] == taken + (now + data[i..j])
  {
    assert data[..j] == data[..i] + data[i..j];
    assert was + data[..j] == (was + data[..i]) + data[i..j];
    assert taken + (now + data[i..j]) == (taken + now) + data[i..j];
  }

  // ---- RecvBuffer ----

  class RecvBuffer {
    const cap: nat
    const buf: array<byte>
    var head: nat
    var tail: nat
    var size: nat
    var closed: bool
    var closeErr: Option<IoError>

    ghost predicate Valid()
      reads this, buf
    {
      && buf.Length == cap && (cap == 0 ==> head == 0) && (cap > 0 ==> head < cap)
      && size <= cap && tail == Wrap(head + size, cap)
      && (closed <==> closeErr.Some?)
    }

    ghost function Contents(): seq<byte>
      reads this, buf
      requires Valid()
    {
      View(buf[..], head, size)
    }

    ghost function Abs(): (p: Pipe)
      reads this, buf
      requires Valid()
      ensures p.Valid() && |p.contents| == size
    {
      Pipe(Contents(), cap, closed, closeErr)
    }

    constructor (capacity: nat)
      ensures Valid() && fresh(buf) && Abs() == Pipe([], capacity, false, None)
    {
      cap := capacity;
      buf := new byte[capacity](_ => 0);
      head, tail, size := 0, 0, 0;
      closed, closeErr := false, None;
    }

    method Read(p: array<byte>) returns (r: ReadOutcome)
      requires Valid() && p != buf
      modifies `head, `size, p
      ensures Valid()
      ensures (Abs(), r) == old(Abs()).Read(p.Length, old(Abs()).EndError())
      ensures p[..] == if r.Data? then r.bytes + old(p[|r.bytes|..]) else old(p[..])
    {
      hide View;
      if size == 0 {
        if closed {
          return End(closeErr.value);
        }
        return Blocked;
      }
      var n := p.Length;
      if n > size {
        n := size;
      }
      head := RingRead(buf, head, size, p, n);
      size := size - n;
      assert p[..] == p[..n] + p[n..];
      return Data(p[..n]);
    }

    /** Close(nil) is a clean end: readers see io.EOF once the buffer is drained. */
    method Close(err: Option<IoError>)
      requires Valid()
      modifies `closed, `closeErr
      ensures Valid()
      ensures Abs() == old(Abs()).CloseWrite(Some(if err.Some? then err.value else Eof))
    {
      if closed {
        return;
      }
      closed := true;
      closeErr := Some(if err.Some? then err.value else Eof);
    }

    /** Reopen forgets that the buffer was closed and keeps every buffered byte. */
    method Reopen()
      requires Valid()
      modifies `closed, `closeErr
      ensures Valid() && Abs() == old(Abs()).(closed := false, closeErr := None)
    {
      if !closed {
        return;
      }
      closed := false;
      closeErr := None;
    }

    method Interfere(e: Interference) returns (got: seq<byte>, ctxDone: bool)
      requires Valid()
      modifies `head, `size, `closed, `closeErr
      ensures Valid() && old(Contents()) == got + Contents()
      ensures old(closed) ==> closed && closeErr == old(closeErr)
      ensures ctxDone <==> e.CtxDone?
    {
      hide View;
      got, ctxDone := [], e.CtxDone?;
      match e
      case ReaderTakes(want) =>
        var b := new byte[want](_ => 0);
        var r := Read(b);
        if r.Data? {
          got := r.bytes;
        }
      case Closes(err) => Close(err);
      case CtxDone =>
    }

    /** The blocking Write(ctx, data).  The context is looked at only while the buffer is full. */
    method Write(data: seq<byte>, env: seq<Interference>)
      returns (written: nat, err: Option<IoError>, blocked: bool, taken: seq<byte>)
      requires Valid()
      modifies `head, `tail, `size, `closed, `closeErr, buf
      ensures Valid()
      ensures written <= |data| && old(Contents()) + data[..written] == taken + Contents()
      ensures err.None? && !blocked ==> written == |data|
      ensures blocked ==> err.None? && size == cap && !closed && written < |data|
      ensures err.Some? ==> written < |data|
      ensures err.Some? ==> (closed && err == closeErr)
                            || (CtxDone in env && err == Some(CtxCancelled) && old(size) + written >= cap)
      ensures old(closed) && data != [] ==> err == old(closeErr) && written == 0
      ensures data != [] && err.None? && !blocked ==> !closed
      ensures env == [] && !old(closed) && old(size) + |data| <= cap ==> err.None? && !blocked && taken == []
    {
      hide View;
      written, taken, blocked := 0, [], false;
      var left, cancelled := env, false;
      while written < |data|
        invariant Valid()
        invariant written <= |data|
        invariant old(Contents()) + data[..written] == taken + Contents()
        invariant env == [] ==> left == [] && taken == [] && !cancelled && closed == old(closed)
        invariant if written == 0 then old(closed) ==> closed && closeErr == old(closeErr) else !old(closed) && !closed
        invariant cancelled ==> CtxDone in env
        invariant CtxDone in left ==> CtxDone in env
        decreases |data| - written
      {
        var gaveUp;
        assert |old(Contents()) + data[..written]| == |taken + Contents()|;
        left, taken, cancelled, gaveUp, blocked := AwaitRoom(left, taken, cancelled);
        if blocked {
          return written, None, true, taken;
        } else if gaveUp {
          return written, Some(CtxCancelled), false, taken;
        }
        if closed {
          return written, closeErr, false, taken;
        }
        var avail := cap - size;
        var chunk := |data| - written;
        if chunk > avail {
          chunk := avail;
        }
        AppendSlice(old(Contents()), data, written, written + chunk, taken, Contents());
        Put(data[written..written + chunk]);
        written := written + chunk;
      }
      return written, None, false, taken;
    }

    /** ringWrite under the lock. */
    method Put(data: seq<byte>)
      requires Valid() && !closed && size + |data| <= cap && cap > 0
      modifies `tail, `size, buf
      ensures Valid() && Contents() == old(Contents()) + data
    {
      hide View;
      tail := RingWrite(buf, head, tail, size, data);
      size := size + |data|;
    }

    /** Wait for room or the close, or, only while the buffer is full, for the context: `gaveUp`.
        `blocked` means that the wait would never end. */
    method AwaitRoom(env: seq<Interference>, taken: seq<byte>, cancelled: bool)
      returns (env': seq<Interference>, taken': seq<byte>, cancelled': bool, gaveUp: bool, blocked: bool)
      requires Valid()
      modifies `head, `size, `closed, `closeErr
      ensures Valid()
      ensures taken + old(Contents()) == taken' + Contents()
      ensures old(closed) ==> closed && closeErr == old(closeErr)
      ensures CtxDone in env' || (cancelled' && !cancelled) ==> CtxDone in env
      ensures gaveUp ==> cancelled' && old(size) == cap && !old(closed)
      ensures blocked ==> size == cap && !closed
      ensures !gaveUp && !blocked ==> size < cap || closed
      ensures env == [] ==> env' == [] && taken' == taken && cancelled' == cancelled && closed == old(closed)
    {
      hide View;
      gaveUp, blocked := false, false;
      env', taken', cancelled' := Unlocked(env, taken, cancelled);
      if size == cap && !closed {
        assert |taken + old(Contents())| == |taken' + Contents()| && |taken'| >= |taken|;
        while size == cap && !closed && !cancelled'
          invariant Valid()
          invariant taken + old(Contents()) == taken' + Contents()
          invariant CtxDone in env' || (cancelled' && !cancelled) ==> CtxDone in env
          invariant env == [] ==> env' == [] && taken' == taken && cancelled' == cancelled && closed == old(closed)
          decreases |env'|
        {
          if env' == [] {
            blocked := true;
            return;
          }
          env', taken', cancelled' := Step(env', taken', cancelled');
          env', taken', cancelled' := Unlocked(env', taken', cancelled');
        }
        gaveUp := cancelled';
      }
    }

    /** Any number of steps of other goroutines. */
    method Unlocked(env: seq<Interference>, taken: seq<byte>, cancelled: bool)
      returns (env': seq<Interference>, taken': seq<byte>, cancelled': bool)
      requires Valid()
      modifies `head, `size, `closed, `closeErr
      ensures Valid()
      ensures taken + old(Contents()) == taken' + Contents()
      ensures old(closed) ==> closed && closeErr == old(closeErr)
      ensures env == [] ==> taken' == taken && cancelled' == cancelled && closed == old(closed)
      ensures |taken| <= |taken'| && |env'| <= |env|
      ensures CtxDone in env' || (cancelled' && !cancelled) ==> CtxDone in env
    {
      hide View;
      env', taken', cancelled' := env, taken, cancelled;
      var more: bool := *;
      while more && env' != []
        invariant Valid() && |taken| <= |taken'| && |env'| <= |env|
        invariant env == [] ==> taken' == taken && cancelled' == cancelled && closed == old(closed)
        invariant old(closed) ==> closed && closeErr == old(closeErr)
        invariant taken + old(Contents()) == taken' + Contents()
        invariant CtxDone in env' || (cancelled' && !cancelled) ==> CtxDone in env
        decreases |env'|
      {
        env', taken', cancelled' := Step(env', taken', cancelled');
        more := *;
      }
    }

    method Step(env: seq<Interference>, taken: seq<byte>, cancelled: bool)
      returns (env': seq<Interference>, taken': seq<byte>, cancelled': bool)
      requires Valid() && env != []
      modifies `head, `size, `closed, `closeErr
      ensures Valid()
      ensures taken + old(Contents()) == taken' + Contents()
      ensures old(closed) ==> closed && closeErr == old(closeErr)
      ensures |taken| <= |taken'| && |env'| < |env|
      ensures (CtxDone in env' || (cancelled' && !cancelled) ==> CtxDone in env)
    {
      hide View;
      var got, done := Interfere(env[0]);
      assert taken + (got + Contents()) == (taken + got) + Contents();
      return env[1..], taken + got, cancelled || done;
    }
  }
}
