/**
 The two frame codecs: the 9-byte header of internal/mux_http and the 13-byte header of
 internal/mux.  `Encode` and `Decode` are the wire format; the classes below write and read it
 step by step, and the lemmas say what a whole connection delivers.
 */
module Frames {
  import opened Bytes

  const MAX_PAYLOAD_SIZE := 8 * 1024 * 1024
  const DATA_CHUNK_SIZE := 32 * 1024

  const CONTROL_STREAM_ID: uint32 := 0

  // Frame types of the request direction of internal/mux.
  const TYPE_HEADERS: byte := 0x20
  const TYPE_DATA: byte := 0x21
  const TYPE_RST: byte := 0x22
  const TYPE_WINDOW_UPDATE: byte := 0x30

  const TYPE_GOAWAY: byte := 0x09  // on the control stream

  const FLAG_END_STREAM: byte := 0x01

  datatype Format = MuxHttp | Mux

  /** One frame.  Frames of the MuxHttp format have no flags; `flags` is 0 there. */
  datatype Frame = Frame(streamId: uint32, typ: byte, flags: byte, payload: seq<byte>) {
    /** Flags.Has(FlagEndStream): the test of bit 0. */
    predicate EndsStream()
      ensures EndsStream() <==> exists k: nat :: flags == 2 * k + FLAG_END_STREAM
    {
      assert flags % 2 == 1 ==> flags == 2 * (flags / 2) + FLAG_END_STREAM;
      flags % 2 == 1
    }
  }

  function HeaderSize(fmt: Format): nat {
    match fmt
    case MuxHttp => 9
    case Mux => 13
  }

  predicate Writable(fmt: Format, f: Frame) {
    |f.payload| <= MAX_PAYLOAD_SIZE && (fmt.MuxHttp? ==> f.flags == 0)
  }

  function Header(fmt: Format, f: Frame): (h: seq<byte>)
    requires |f.payload| <= MAX_PAYLOAD_SIZE
    ensures |h| == HeaderSize(fmt)
  {
    match fmt
    case MuxHttp => PutUint32(f.streamId) + [f.typ] + PutUint32(|f.payload|)
    case Mux => PutUint32(f.streamId) + [f.typ, f.flags] + PutUint32(|f.payload|) + [0, 0, 0]
  }

  function Encode(fmt: Format, f: Frame): (s: seq<byte>)
    requires |f.payload| <= MAX_PAYLOAD_SIZE
    ensures |s| == HeaderSize(fmt) + |f.payload|
  {
    Header(fmt, f) + f.payload
  }

  datatype ReadError = EndOfFile | UnexpectedEof | PayloadTooLarge

  datatype ReadResult = Got(frame: Frame, used: nat) | Failed(error: ReadError)

  /** io.ReadFull reports EOF only when it got no byte at all. */
  function ShortRead(got: nat): ReadError {
    if got == 0 then EndOfFile else UnexpectedEof
  }

  function LengthField(fmt: Format, header: seq<byte>): uint32
    requires |header| == HeaderSize(fmt)
  {
    match fmt
    case MuxHttp => Uint32(header[5..9])
    case Mux => Uint32(header[6..10])
  }

  /** What one ReadFrame makes of the bytes the connection still has to deliver. */
  function Decode(fmt: Format, s: seq<byte>): (r: ReadResult)
    ensures r.Got? ==> HeaderSize(fmt) <= r.used <= |s| && r.used == HeaderSize(fmt) + |r.frame.payload|
    ensures r.Got? ==> Writable(fmt, r.frame)
  {
    var h := HeaderSize(fmt);
    if |s| < h then Failed(ShortRead(|s|))
    else
      var n := LengthField(fmt, s[..h]);
      if n > MAX_PAYLOAD_SIZE then Failed(PayloadTooLarge)
      else if |s| - h < n then Failed(ShortRead(|s| - h))
      else Got(Frame(Uint32(s[..4]), s[4], if fmt.Mux? then s[5] else 0, s[h..h + n]), h + n)
  }

  predicate AllWritable(fmt: Format, fs: seq<Frame>) {
    forall i | 0 <= i < |fs| :: Writable(fmt, fs[i])
  }

  function EncodeAll(fmt: Format, fs: seq<Frame>): seq<byte>
    requires AllWritable(fmt, fs)
  {
    if fs == [] then [] else Encode(fmt, fs[0]) + EncodeAll(fmt, fs[1..])
  }

  /** A read loop: decode until the first error. */
  function DecodeAll(fmt: Format, s: seq<byte>): (seq<Frame>, ReadError)
    decreases |s|
  {
    match Decode(fmt, s)
    case Failed(e) => ([], e)
    case Got(f, used) =>
      var (fs, e) := DecodeAll(fmt, s[used..]);
      ([f] + fs, e)
  }

  // ---- one frame ----

  lemma HeaderFields(fmt: Format, f: Frame)
    requires Writable(fmt, f)
    ensures var h := Header(fmt, f);
            Uint32(h[..4]) == f.streamId && h[4] == f.typ && (fmt.Mux? ==> h[5] == f.flags)
            && LengthField(fmt, h) == |f.payload|
  {
    var h := Header(fmt, f);
    assert h[..4] == PutUint32(f.streamId);
    Uint32RoundTrip(f.streamId);
    Uint32RoundTrip(|f.payload|);
    match fmt
    case MuxHttp => assert h[5..9] == PutUint32(|f.payload|);
    case Mux => assert h[6..10] == PutUint32(|f.payload|);
  }

  /** Decoding what was just encoded returns the frame, whatever follows it on the wire. */
  lemma DecodeEncode(fmt: Format, f: Frame, rest: seq<byte>)
    requires Writable(fmt, f)
    ensures Decode(fmt, Encode(fmt, f) + rest) == Got(f, |Encode(fmt, f)|)
  {
    var h := HeaderSize(fmt);
    var s := Encode(fmt, f) + rest;
    assert s[..h] == Header(fmt, f);
    HeaderFields(fmt, f);
    assert s[..4] == s[..h][..4];
    assert s[h..h + |f.payload|] == f.payload;
  }

  /** The header's layout, in bytes: the stream id and the length big-endian, the type in byte 4, and
      in the 13-byte format the flags in byte 5 and three reserved bytes at the end. */
  lemma HeaderLayout(fmt: Format, f: Frame)
    requires Writable(fmt, f)
    ensures var h, at := Header(fmt, f), if fmt.Mux? then 6 else 5;
            && |h| == (if fmt.Mux? then 13 else 9)
            && h[..4] == PutUint32(f.streamId) && h[4] == f.typ && h[at..at + 4] == PutUint32(|f.payload|)
            && (fmt.Mux? ==> h[5] == f.flags && h[10..] == [0, 0, 0])
  {
    hide PutUint32;
  }

  /** A length above the limit is refused as soon as the header is there, whatever follows. */
  lemma OversizeRefused(fmt: Format, s: seq<byte>)
    requires |s| >= HeaderSize(fmt)
    requires var at := if fmt.Mux? then 6 else 5;
             Uint32(s[at..at + 4]) > MAX_PAYLOAD_SIZE
    ensures Decode(fmt, s) == Failed(PayloadTooLarge)
  {
    var at := if fmt.Mux? then 6 else 5;
    assert s[..HeaderSize(fmt)][at..at + 4] == s[at..at + 4];
  }

  /** A strict prefix of a frame never decodes; the error tells where the cut was. */
  lemma DecodeCut(fmt: Format, f: Frame, k: nat)
    requires Writable(fmt, f) && k < |Encode(fmt, f)|
    ensures Decode(fmt, Encode(fmt, f)[..k]) ==
            Failed(if k == 0 || k == HeaderSize(fmt) then EndOfFile else UnexpectedEof)
  {
    var h := HeaderSize(fmt);
    var s := Encode(fmt, f)[..k];
    if k >= h {
      assert s[..h] == Header(fmt, f);
      HeaderFields(fmt, f);
    }
  }

  predicate ReservedZero(fmt: Format, s: seq<byte>)
    requires |s| >= HeaderSize(fmt)
  {
    fmt.Mux? ==> s[10..13] == [0, 0, 0]
  }

  /** The header of a decoded frame, encoded again. */
  lemma HeaderOfDecoded(fmt: Format, s: seq<byte>)
    requires Decode(fmt, s).Got?
    ensures var f := Decode(fmt, s).frame;
            Header(fmt, f) == if fmt.MuxHttp? then s[..9] else s[..10] + [0, 0, 0]
  {
    hide PutUint32, Uint32;
    PutUint32RoundTrip(s[..4]);
    match fmt
    case MuxHttp =>
      PutUint32RoundTrip(s[..9][5..9]);
      assert s[..9] == s[..4] + [s[4]] + s[..9][5..9];
    case Mux =>
      PutUint32RoundTrip(s[..13][6..10]);
      assert s[..10] == s[..4] + [s[4], s[5]] + s[..13][6..10];
  }

  lemma SamePrefix(a: seq<byte>, b: seq<byte>, x: seq<byte>, y: seq<byte>)
    requires |b| == |x|
    ensures a + b + y == a + x + y <==> b == x
  {
    assert (a + b + y)[|a|..|a| + |b|] == b;
    assert (a + x + y)[|a|..|a| + |x|] == x;
  }

  /** Encoding a decoded frame gives back the very bytes it came from, except that the reader
      ignores the reserved bytes of the 13-byte header and the writer always clears them. */
  lemma EncodeDecode(fmt: Format, s: seq<byte>)
    requires Decode(fmt, s).Got?
    ensures var r := Decode(fmt, s);
            Encode(fmt, r.frame) == s[..r.used] <==> ReservedZero(fmt, s)
  {
    HeaderOfDecoded(fmt, s);
    hide PutUint32, Uint32, Header;
    var r := Decode(fmt, s);
    var h := HeaderSize(fmt);
    match fmt
    case MuxHttp =>
      assert s[..r.used] == s[..h] + s[h..r.used];
    case Mux =>
      assert s[..r.used] == s[..10] + s[10..13] + s[h..r.used];
      SamePrefix(s[..10], s[10..13], [0, 0, 0], s[h..r.used]);
  }

  // ---- whole connections ----

  lemma {:induction false} DecodeAllAppend(fmt: Format, fs: seq<Frame>, rest: seq<byte>)
    requires AllWritable(fmt, fs)
    ensures DecodeAll(fmt, EncodeAll(fmt, fs) + rest) ==
            (fs + DecodeAll(fmt, rest).0, DecodeAll(fmt, rest).1)
  {
    hide Encode, Decode;
    var s := EncodeAll(fmt, fs) + rest;
    if fs == [] {
      assert s == rest;
      assert fs + DecodeAll(fmt, rest).0 == DecodeAll(fmt, rest).0;
    } else {
      var e := Encode(fmt, fs[0]);
      var tail := EncodeAll(fmt, fs[1..]) + rest;
      assert s == e + tail;
      DecodeEncode(fmt, fs[0], tail);
      assert s[|e|..] == tail;
      DecodeAllAppend(fmt, fs[1..], rest);
      assert fs + DecodeAll(fmt, rest).0 == [fs[0]] + (fs[1..] + DecodeAll(fmt, rest).0);
    }
  }

  /** The stream round trip: the reader gets exactly the frames written, then end of file. */
  lemma StreamRoundTrip(fmt: Format, fs: seq<Frame>)
    requires AllWritable(fmt, fs)
    ensures DecodeAll(fmt, EncodeAll(fmt, fs)) == (fs, EndOfFile)
  {
    DecodeAllAppend(fmt, fs, []);
    assert EncodeAll(fmt, fs) + [] == EncodeAll(fmt, fs);
    assert fs + [] == fs;
  }

  lemma {:induction false} EncodeAllSplit(fmt: Format, fs: seq<Frame>, gs: seq<Frame>)
    requires AllWritable(fmt, fs)
    requires AllWritable(fmt, gs)
    ensures AllWritable(fmt, fs + gs)
    ensures EncodeAll(fmt, fs + gs) == EncodeAll(fmt, fs) + EncodeAll(fmt, gs)
  {
    hide Encode;
    if fs == [] {
      assert fs + gs == gs;
    } else {
      assert (fs + gs)[1..] == fs[1..] + gs;
      EncodeAllSplit(fmt, fs[1..], gs);
    }
  }

  /** Where frame i lies in the byte stream. */
  lemma EncodeAllAround(fmt: Format, fs: seq<Frame>, i: nat)
    requires AllWritable(fmt, fs) && i < |fs|
    ensures |EncodeAll(fmt, fs[..i + 1])| == |EncodeAll(fmt, fs[..i])| + |Encode(fmt, fs[i])|
    ensures EncodeAll(fmt, fs[..i]) + Encode(fmt, fs[i]) <= EncodeAll(fmt, fs)
  {
    hide Encode, EncodeAll;
    assert fs == fs[..i] + fs[i..];
    EncodeAllSplit(fmt, fs[..i], fs[i..]);
    assert fs[..i + 1] == fs[..i] + [fs[i]];
    EncodeAllSplit(fmt, fs[..i], [fs[i]]);
    EncodeFirst(fmt, [fs[i]]);
    EncodeFirst(fmt, fs[i..]);
    assert fs[i..][1..] == fs[i + 1..];
    assert EncodeAll(fmt, fs)
        == (EncodeAll(fmt, fs[..i]) + Encode(fmt, fs[i])) + EncodeAll(fmt, fs[i + 1..]);
  }

  lemma EncodeFirst(fmt: Format, fs: seq<Frame>)
    requires AllWritable(fmt, fs) && fs != []
    ensures EncodeAll(fmt, fs) == Encode(fmt, fs[0]) + EncodeAll(fmt, fs[1..])
    ensures |fs| == 1 ==> EncodeAll(fmt, fs) == Encode(fmt, fs[0])
  {
  }

  /** A connection cut after k bytes, inside frame i: the reader gets exactly the first i frames.
      The error it then sees is a plain EOF if the cut fell on a frame boundary, and also if it
      fell between a header and its (non-empty) payload; anywhere else it is UnexpectedEof. */
  lemma TruncatedStream(fmt: Format, fs: seq<Frame>, i: nat, k: nat)
    requires AllWritable(fmt, fs)
    requires i < |fs|
    requires |EncodeAll(fmt, fs[..i])| <= k < |EncodeAll(fmt, fs[..i + 1])|
    ensures k <= |EncodeAll(fmt, fs)|
    ensures var cut := k - |EncodeAll(fmt, fs[..i])|;
            DecodeAll(fmt, EncodeAll(fmt, fs)[..k]) ==
            (fs[..i], if cut == 0 || cut == HeaderSize(fmt) then EndOfFile else UnexpectedEof)
  {
    hide Encode, Decode;
    var cut := k - |EncodeAll(fmt, fs[..i])|;
    EncodeAllAround(fmt, fs, i);
    assert EncodeAll(fmt, fs)[..k] == EncodeAll(fmt, fs[..i]) + Encode(fmt, fs[i])[..cut];
    DecodeAllAppend(fmt, fs[..i], Encode(fmt, fs[i])[..cut]);
    DecodeCut(fmt, fs[i], cut);
    assert fs[..i] + [] == fs[..i];
  }

  // ---- the writer and the reader ----

  /** The header arrays as WriteTo fills them in; what is not assigned stays 0. */
  method FillHeader9(f: Frame) returns (hdr: array<byte>)
    requires |f.payload| <= MAX_PAYLOAD_SIZE
    ensures fresh(hdr) && hdr[..] == Header(MuxHttp, f)
  {
    hide PutUint32;
    var id, len := PutUint32(f.streamId), PutUint32(|f.payload|);
    hdr := new byte[9](_ => 0);
    Copy(hdr, 0, id);
    hdr[4] := f.typ;
    Copy(hdr, 5, len);
    assert hdr[..4] == hdr[0..4] == id;
    assert hdr[..] == hdr[..4] + [hdr[4]] + hdr[5..9];
  }

  method FillHeader13(f: Frame) returns (hdr: array<byte>)
    requires |f.payload| <= MAX_PAYLOAD_SIZE
    ensures fresh(hdr) && hdr[..] == Header(Mux, f)
  {
    hide PutUint32;
    var id, len := PutUint32(f.streamId), PutUint32(|f.payload|);
    hdr := new byte[13](_ => 0);
    Copy(hdr, 0, id);
    hdr[4], hdr[5] := f.typ, f.flags;
    Copy(hdr, 6, len);
    assert hdr[..4] == hdr[0..4] == id;
    assert hdr[..] == hdr[..4] + [hdr[4], hdr[5]] + hdr[6..10] + hdr[10..13];
  }

  method FillHeader(fmt: Format, f: Frame) returns (hdr: array<byte>)
    requires |f.payload| <= MAX_PAYLOAD_SIZE
    ensures fresh(hdr) && hdr[..] == Header(fmt, f)
  {
    match fmt
    case MuxHttp => hdr := FillHeader9(f);
    case Mux => hdr := FillHeader13(f);
  }

  /** The first n bytes of a header and payload, behind what was written before. */
  lemma Written(was: seq<byte>, h: seq<byte>, payload: seq<byte>, n: nat)
    requires n <= |h| + |payload|
    ensures was + (h + payload)[..n] == if n <= |h| then was + h[..n] else (was + h) + payload[..n - |h|]
  {
    if n > |h| {
      assert (h + payload)[..n] == h + payload[..n - |h|];
    } else {
      assert (h + payload)[..n] == h[..n];
    }
  }

  /** The io.Writer side: everything written so far.  It may break after any number of bytes; the
      write that reaches that point fails and gets only its first bytes out. */
  class ByteWriter {
    var out: seq<byte>
    const lasts: Option<nat>  // how many bytes it takes; None if it never breaks

    constructor (lasts: Option<nat>)
      ensures out == [] && this.lasts == lasts
    {
      out, this.lasts := [], lasts;
    }

    /** How much of a write of n more bytes gets out. */
    function Room(n: nat): (m: nat)
      reads this
      ensures m <= n
    {
      if lasts.None? || |out| + n <= lasts.value then n else if |out| >= lasts.value then 0 else lasts.value - |out|
    }

    method Write(p: seq<byte>) returns (ok: bool, n: nat)
      modifies this
      ensures n == old(Room(|p|)) && out == old(out) + p[..n]
      ensures ok <==> n == |p|
    {
      n := Room(|p|);
      out := out + p[..n];
      ok := n == |p|;
    }

    /** Frame.WriteTo: fill the header array, write it, then the payload if there is one.  The wire
        gets as much of the encoded frame as the writer still takes, and the call succeeds if that is
        all of it; a payload that is too large is refused before anything is written. */
    method WriteTo(fmt: Format, f: Frame) returns (ok: bool, n: nat)
      requires fmt.MuxHttp? ==> f.flags == 0
      modifies this
      ensures Writable(fmt, f) ==> n == old(Room(|Encode(fmt, f)|)) && out == old(out) + Encode(fmt, f)[..n]
      ensures ok <==> Writable(fmt, f) && n == |Encode(fmt, f)|
      ensures !Writable(fmt, f) ==> out == old(out)
    {
      hide Header;
      if |f.payload| > MAX_PAYLOAD_SIZE {
        return false, 0;
      }
      var hdr := FillHeader(fmt, f);
      ok, n := Write(hdr[..]);
      Written(old(out), hdr[..], f.payload, n);
      if ok && |f.payload| > 0 {
        var m;
        ok, m := Write(f.payload);
        n := n + m;
        Written(old(out), hdr[..], f.payload, n);
      }
    }
  }

  /** The io.Reader side: the bytes the connection will still deliver before it ends. */
  class ByteReader {
    var pending: seq<byte>

    constructor (bytes: seq<byte>)
      ensures pending == bytes
    {
      pending := bytes;
    }

    /** Reader.Read: any number of bytes between 1 and what is asked for and available. */
    method Read(want: nat) returns (got: seq<byte>)
      requires want > 0
      modifies this
      ensures |got| <= want && got + pending == old(pending)
      ensures got == [] <==> old(pending) == []
    {
      if pending == [] {
        return [];
      }
      var n: nat :| 1 <= n <= want && n <= |pending|;
      got := pending[..n];
      pending := pending[n..];
    }

    /** io.ReadFull: keep reading, however short the reads are, until p is full. */
    method ReadFull(p: array<byte>) returns (err: Option<ReadError>)
      modifies this, p
      ensures err.None? <==> |old(pending)| >= p.Length
      ensures err.None? ==> old(pending) == p[..] + pending
      ensures err.Some? ==> err.value == ShortRead(|old(pending)|)
    {
      var i := 0;
      while i < p.Length
        invariant 0 <= i <= p.Length
        invariant old(pending) == p[..i] + pending
      {
        var got := Read(p.Length - i);
        if got == [] {
          assert pending == [];
          return Some(ShortRead(i));
        }
        label before:
        forall j | 0 <= j < |got| {
          p[i + j] := got[j];
        }
        assert p[..i + |got|] == old@before(p[..i]) + got;
        i := i + |got|;
      }
      return None;
    }

    method ReadFrame(fmt: Format) returns (r: ReadResult)
      modifies this
      ensures r == Decode(fmt, old(pending))
      ensures r.Got? ==> pending == old(pending)[r.used..]
    {
      hide Uint32;
      ghost var s := pending;
      var h := HeaderSize(fmt);
      var hdr := new byte[h];
      var err := ReadFull(hdr);
      if err.Some? {
        return Failed(err.value);
      }
      assert s[..h] == hdr[..] && s[..4] == hdr[..4];
      var length := LengthField(fmt, hdr[..]);
      if length > MAX_PAYLOAD_SIZE {
        return Failed(PayloadTooLarge);
      }
      var payload: seq<byte> := [];
      if length > 0 {
        var buf := new byte[length];
        err := ReadFull(buf);
        if err.Some? {
          return Failed(err.value);
        }
        payload := buf[..];
      }
      assert s == hdr[..] + (payload + pending);
      assert payload == s[h..h + length];
      return Got(Frame(Uint32(hdr[..4]), hdr[4], if fmt.Mux? then hdr[5] else 0, payload), h + length);
    }

    /** A session's read loop, up to the error that ends it. */
    method ReadLoop(fmt: Format) returns (frames: seq<Frame>, err: ReadError)
      modifies this
      ensures (frames, err) == DecodeAll(fmt, old(pending))
    {
      hide Decode;
      frames := [];
      assert [] + DecodeAll(fmt, pending).0 == DecodeAll(fmt, pending).0;
      while true
        invariant DecodeAll(fmt, old(pending)) ==
                  (frames + DecodeAll(fmt, pending).0, DecodeAll(fmt, pending).1)
        decreases |pending|
      {
        var r := ReadFrame(fmt);
        if r.Failed? {
          assert frames + [] == frames;
          return frames, r.error;
        }
        ghost var rest := DecodeAll(fmt, pending).0;
        assert frames + ([r.frame] + rest) == (frames + [r.frame]) + rest;
        frames := frames + [r.frame];
      }
    }
  }
}
