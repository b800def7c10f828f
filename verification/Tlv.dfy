/** The framing of tlvdata.py: send writes a four-byte header and the data, recv reads them
    back from a stream that hands out its bytes in pieces of any size. */
module Tlv {
  import opened Common

  /** Text and JSON documents, the latter as the bytes json.dumps makes of them. */
  datatype Frame = Text(data: Bytes) | Json(data: Bytes)

  /** What recv gives: a frame, None, or an exception. A frame of a type it does not know is
      read and also gives None. */
  datatype Received = Got(frame: Frame) | Nothing | ReadError | ReservedBit | FileHandle

  // ----- a stream that arrives in pieces -----

  /** A socket. hint says how many bytes at most each read finds waiting, but a read waits
      for at least one while the stream lasts. */
  class Handle {
    var pending: Bytes
    var hint: seq<nat>

    constructor (pending: Bytes, hint: seq<nat>)
      ensures this.pending == pending && this.hint == hint
    {
      this.pending, this.hint := pending, hint;
    }

    /** recv(size): some of the bytes waiting, and none only at the end. */
    method Recv(size: nat) returns (rd: Bytes)
      modifies this
      ensures |rd| <= size && old(pending) == rd + pending
      ensures rd == [] ==> size == 0 || old(pending) == []
    {
      var n := if hint == [] then size else 1 + hint[0];
      hint := if hint == [] then [] else hint[1..];
      n := if n < size then n else size;
      n := if n < |pending| then n else |pending|;
      rd := pending[..n];
      pending := pending[n..];
    }
  }

  // ----- the format -----

  /** struct.pack("!I", n) */
  function Header(n: nat): (r: Bytes)
    requires n < 0x1_0000_0000
    ensures |r| == 4
  {
    [(n / 0x100_0000) as Byte, (n / 0x1_0000 % 0x100) as Byte, (n / 0x100 % 0x100) as Byte, (n % 0x100) as Byte]
  }

  /** struct.unpack("!I", ...) */
  function HeaderValue(h: Bytes): nat
    requires |h| == 4
  {
    h[0] as int * 0x100_0000 + h[1] as int * 0x1_0000 + h[2] as int * 0x100 + h[3] as int
  }

  lemma HeaderIsRead(n: nat)
    requires n < 0x1_0000_0000
    ensures HeaderValue(Header(n)) == n
  {
    assert n / 0x1_0000 == n / 0x1_0000 / 0x100 * 0x100 + n / 0x1_0000 % 0x100;
    assert n / 0x100 == n / 0x100 / 0x100 * 0x100 + n / 0x100 % 0x100;
  }

  /** What send writes; None for the exception that the data is too long. An empty text
      writes nothing. */
  datatype Sent = Wrote(bytes: Bytes) | TooLong

  function Encode(frame: Frame): Sent {
    if |frame.data| >= 16777216 then TooLong
    else match frame
      case Text(data) => Wrote(if data == [] then [] else Header(|data|) + data)
      case Json(data) => Wrote(Header(|data| + 16777216) + data)
  }

  /** The frame on the wire: its type, 0 for text and 1 for JSON, then the length in three
      bytes, most significant first, then the data. */
  lemma FrameLooks(frame: Frame)
    requires 0 < |frame.data| < 0x100_0000
    ensures Encode(frame).Wrote?
    ensures var s, n := Encode(frame).bytes, |frame.data|;
      && |s| == 4 + n && s[0] == (if frame.Text? then 0 else 1) && s[4..] == frame.data
      && s[1] as int * 0x1_0000 + s[2] as int * 0x100 + s[3] as int == n
  {
    var n := |frame.data|;
    var h := Header(if frame.Text? then n else n + 16777216);
    assert Encode(frame).bytes == h + frame.data;
    HeaderIsRead(if frame.Text? then n else n + 16777216);
  }

  /** What one recv makes of a whole stream, and what it leaves. */
  function Decode(s: Bytes): (Received, Bytes) {
    if s == [] then (Nothing, [])
    else if |s| < 4 then (ReadError, [])
    else
      var tl := HeaderValue(s[..4]);
      var dlen, kind := tl % 16777216, tl / 16777216;
      if tl >= 0x8000_0000 then (ReservedBit, s[4..])
      else if dlen == 0 then (Nothing, s[4..])
      else if kind == 2 then (FileHandle, s[4..])
      else if |s| < 4 + dlen then (ReadError, [])
      else
        var data := s[4..4 + dlen];
        (if kind == 0 then Got(Text(data)) else if kind == 1 then Got(Json(data)) else Nothing, s[4 + dlen..])
  }

  /** The frames that send never writes: a set top bit is an error, no length means no data
      whatever the type, type 2 announces a file handle, and of any other type the data is
      read and dropped. */
  lemma OtherFrames(s: Bytes)
    requires |s| >= 4 && s[0] >= 2
    ensures var n := s[1] as int * 0x1_0000 + s[2] as int * 0x100 + s[3] as int;
      Decode(s) == if s[0] >= 128 then (ReservedBit, s[4..])
                   else if n == 0 then (Nothing, s[4..])
                   else if s[0] == 2 then (FileHandle, s[4..])
                   else if |s| < 4 + n then (ReadError, [])
                   else (Nothing, s[4 + n..])
  {
    var n := s[1] as int * 0x1_0000 + s[2] as int * 0x100 + s[3] as int;
    assert HeaderValue(s[..4]) == s[0] as int * 16777216 + n && n < 16777216;
  }

  /** recv's two loops: more is read until there is enough, or nothing comes. */
  method ReadAll(handle: Handle, size: nat) returns (data: Bytes, ok: bool)
    modifies handle
    ensures ok <==> |old(handle.pending)| >= size
    ensures ok ==> data == old(handle.pending)[..size] && handle.pending == old(handle.pending)[size..]
    ensures !ok ==> data == old(handle.pending) && handle.pending == []
  {
    ghost var s := handle.pending;
    data := handle.Recv(size);
    while |data| < size
      invariant |data| <= size && s == data + handle.pending
      decreases size - |data|
    {
      var ndata := handle.Recv(size - |data|);
      if ndata == [] {
        return data, false;
      }
      data := data + ndata;
    }
    ok := true;
  }

  /** recv. File handles are not read here. */
  method Receive(handle: Handle) returns (r: Received)
    modifies handle
    ensures (r, handle.pending) == Decode(old(handle.pending))
  {
    ghost var s := handle.pending;
    var h, ok := ReadAll(handle, 4);
    if h == [] {
      return Nothing;
    }
    if !ok {
      return ReadError;
    }
    var tl := HeaderValue(h);
    if tl >= 0x8000_0000 {
      return ReservedBit;
    }
    var dlen, kind := tl % 16777216, tl / 16777216;
    if dlen == 0 {
      return Nothing;
    }
    if kind == 2 {
      return FileHandle;
    }
    ghost var rest := handle.pending;
    var data;
    data, ok := ReadAll(handle, dlen);
    if !ok {
      return ReadError;
    }
    assert s[4..4 + dlen] == rest[..dlen] && s[4 + dlen..] == rest[dlen..];
    r := if kind == 0 then Got(Text(data)) else if kind == 1 then Got(Json(data)) else Nothing;
  }

  // ----- what was sent is what is received -----

  /** Frames that send accepts and that are not empty; a JSON document never is. */
  predicate Sendable(frame: Frame) { 0 < |frame.data| < 16777216 }

  predicate AllSendable(frames: seq<Frame>) { forall i :: 0 <= i < |frames| ==> Sendable(frames[i]) }

  function FrameBytes(frame: Frame): (r: Bytes)
    requires Sendable(frame)
    ensures |r| > 4
  {
    Header(|frame.data| + if frame.Json? then 16777216 else 0) + frame.data
  }

  /** All that is written for the frames, one after another. */
  function Stream(frames: seq<Frame>): Bytes
    requires AllSendable(frames)
  {
    if frames == [] then [] else FrameBytes(frames[0]) + Stream(frames[1..])
  }

  /** send, onto what was written before. */
  method Send(written: Bytes, frame: Frame) returns (written': Bytes, ok: bool)
    ensures ok <==> |frame.data| < 16777216
    ensures written' == written + if ok then Encode(frame).bytes else []
    ensures Sendable(frame) ==> Encode(frame) == Wrote(FrameBytes(frame))
  {
    var tl := |frame.data|;
    if frame.Text? && tl == 0 {
      return written, true;
    }
    if tl > 16777215 {
      return written, false;
    }
    written' := written + Header(tl + if frame.Json? then 16777216 else 0) + frame.data;
    assert written' == written + (Header(tl + if frame.Json? then 16777216 else 0) + frame.data);
    ok := true;
  }

  lemma FrameIsRead(frame: Frame, rest: Bytes)
    requires Sendable(frame)
    ensures Decode(FrameBytes(frame) + rest) == (Got(frame), rest)
  {
    var n := |frame.data| + if frame.Json? then 16777216 else 0;
    var s := FrameBytes(frame) + rest;
    HeaderIsRead(n);
    hide Header, HeaderValue;
    assert s[..4] == Header(n) && s[4..4 + |frame.data|] == frame.data && s[4 + |frame.data|..] == rest;
  }

  /** A frame cut short is an error, wherever it is cut. */
  lemma CutFrameIsAnError(frame: Frame, k: nat)
    requires Sendable(frame) && 0 < k < |FrameBytes(frame)|
    ensures Decode(FrameBytes(frame)[..k]) == (ReadError, [])
  {
    var n := |frame.data| + if frame.Json? then 16777216 else 0;
    HeaderIsRead(n);
    hide Header, HeaderValue;
    var s := FrameBytes(frame)[..k];
    if k >= 4 {
      assert s[..4] == Header(n);
    }
  }

  lemma NothingSent()
    ensures Stream([]) == []
  {
  }

  lemma {:induction false} StreamAppends(a: seq<Frame>, b: seq<Frame>)
    requires AllSendable(a) && AllSendable(b)
    ensures Stream(a + b) == Stream(a) + Stream(b)
  {
    hide FrameBytes;
    if a == [] {
      assert a + b == b;
    } else {
      assert (a + b)[1..] == a[1..] + b;
      StreamAppends(a[1..], b);
    }
  }

  lemma OneFrame(frame: Frame)
    requires Sendable(frame)
    ensures Stream([frame]) == FrameBytes(frame)
  {
    hide FrameBytes;
    assert [frame][1..] == [];
  }

  /** One recv on a stream that breaks off after m bytes. */
  lemma Arrives(frames: seq<Frame>, m: nat)
    requires AllSendable(frames) && m <= |Stream(frames)|
    ensures Decode(Stream(frames)[..m])
         == if m == 0 then (Nothing, [])
            else if m < |FrameBytes(frames[0])| then (ReadError, [])
            else (Got(frames[0]), Stream(frames[1..])[..m - |FrameBytes(frames[0])|])
  {
    if m > 0 {
      hide FrameBytes, Decode;
      var f, rest := frames[0], Stream(frames[1..]);
      var n := |FrameBytes(f)|;
      if m < n {
        CutFrameIsAnError(f, m);
        assert Stream(frames)[..m] == FrameBytes(f)[..m];
      } else {
        FrameIsRead(f, rest[..m - n]);
        assert Stream(frames)[..m] == FrameBytes(f) + rest[..m - n];
      }
    } else {
      assert Stream(frames)[..m] == [];
    }
  }

  /** Calls recv until it gives no frame. However the stream is cut into reads, and wherever
      it breaks off, what is received is just the frames that arrived whole, in order; and
      the end is an error exactly when a frame was cut. */
  method ReceiveAll(handle: Handle, ghost frames: seq<Frame>, ghost k: nat) returns (got: seq<Frame>, end: Received)
    requires AllSendable(frames) && k <= |Stream(frames)| && handle.pending == Stream(frames)[..k]
    modifies handle
    ensures got <= frames
    ensures |Stream(got)| <= k && (|got| < |frames| ==> k < |Stream(frames[..|got| + 1])|)
    ensures end == if |Stream(got)| == k then Nothing else ReadError
    ensures k == |Stream(frames)| ==> got == frames && end == Nothing
  {
    hide Decode, FrameBytes, Stream;
    got := [];
    ghost var left := frames;
    ghost var m: nat := k;
    NothingSent();
    while true
      invariant AllSendable(got) && AllSendable(left) && frames == got + left && m <= |Stream(left)|
      invariant handle.pending == Stream(left)[..m] && k == |Stream(got)| + m
      decreases m
    {
      end := Receive(handle);
      Arrives(left, m);
      if !end.Got? {
        break;
      }
      ghost var f := left[0];
      OneFrame(f);
      StreamAppends(got, [f]);
      StreamAppends([f], left[1..]);
      assert left == [f] + left[1..];
      got := got + [end.frame];
      m := m - |FrameBytes(f)|;
      left := left[1..];
    }
    StreamAppends(got, left);
    if left != [] {
      OneFrame(left[0]);
      StreamAppends(got, [left[0]]);
      assert frames[..|got| + 1] == got + [left[0]];
      StreamAppends(got + [left[0]], left[1..]);
      assert frames == got + [left[0]] + left[1..];
    }
  }
}
