/** Length-prefixed frames over streams that deliver and accept bytes in arbitrary pieces
    (`_read_exact`, `read_frame`, `write_frame`). */
module Framing {
  import opened Basics
  import opened Utf8

  const MAX_FRAME_SIZE: nat := 1_048_576

  datatype ReadResult = Complete(bytes: seq<Byte>) | UnexpectedEof | ReadFailed

  datatype FrameResult = Frame(payload: seq<Byte>) | InvalidLength | TooLarge | Broken

  /** The four big-endian bytes of a length. */
  function Header(n: nat): seq<Byte>
    requires n < 0x1_0000_0000
  {
    [n / 256 / 256 / 256, n / 256 / 256 % 256, n / 256 % 256, n % 256]
  }

  function Length(header: seq<Byte>): int
    requires |header| == 4
  {
    ((header[0] * 256 + header[1]) * 256 + header[2]) * 256 + header[3]
  }

  lemma LengthOfHeader(n: nat)
    requires n < 0x1_0000_0000
    ensures Length(Header(n)) == n
  {
  }

  ghost predicate AreBytes(s: seq<Byte>) {
    forall i | 0 <= i < |s| :: 0 <= s[i] < 256
  }

  lemma HeaderOfLength(header: seq<Byte>)
    requires |header| == 4 && AreBytes(header)
    ensures 0 <= Length(header) < 0x1_0000_0000 && Header(Length(header)) == header
  {
    var a, b := header[0] * 256 + header[1], (header[0] * 256 + header[1]) * 256 + header[2];
    LowDigit(header[0], header[1]);
    LowDigit(a, header[2]);
    LowDigit(b, header[3]);
  }

  lemma LowDigit(high: int, low: int)
    requires 0 <= high && 0 <= low < 256
    ensures (high * 256 + low) / 256 == high && (high * 256 + low) % 256 == low
  {
  }

  function FrameBytes(payload: seq<Byte>): seq<Byte>
    requires |payload| <= MAX_FRAME_SIZE
  {
    Header(|payload|) + payload
  }

  /** The reading end: `rest` is what the peer has sent and will still send before closing. */
  class Reader {
    ghost var rest: seq<Byte>
    var pieces: seq<seq<Byte>>
    var failing: bool

    ghost predicate Valid()
      reads this
    {
      rest == Concat(pieces)
    }

    constructor (pieces: seq<seq<Byte>>, failing: bool)
      ensures Valid() && rest == Concat(pieces) && this.failing == failing
    {
      this.pieces := pieces;
      this.failing := failing;
      this.rest := Concat(pieces);
    }

    /** One `recv`: at most `size` bytes, none only at the end of the stream; it may fail. */
    method Receive(size: nat) returns (r: ReadResult)
      requires Valid() && 0 < size
      modifies this
      ensures Valid() && failing == old(failing)
      ensures r.UnexpectedEof? ==> old(rest) == [] && rest == []
      ensures r.Complete? ==> 0 < |r.bytes| <= size && r.bytes + rest == old(rest)
      ensures r.ReadFailed? ==> failing
    {
      if failing {
        return ReadFailed;
      }
      while pieces != [] && pieces[0] == []
        invariant Valid() && rest == old(rest) && failing == old(failing)
        decreases |pieces|
      {
        ConcatFirst(pieces);
        assert [] + Concat(pieces[1..]) == Concat(pieces[1..]);
        pieces := pieces[1..];
      }
      if pieces == [] {
        return UnexpectedEof;
      }
      ghost var after := Concat(pieces[1..]);
      ConcatFirst(pieces);
      var piece := pieces[0];
      if |piece| <= size {
        pieces := pieces[1..];
        rest := after;
        return Complete(piece);
      }
      ghost var later := pieces[1..];
      pieces := [piece[size..]] + pieces[1..];
      ConcatFirst(pieces);
      assert pieces[1..] == later;
      rest := piece[size..] + after;
      TakeDrop(piece, size, after);
      return Complete(piece[..size]);
    }

    static lemma TakeDrop(piece: seq<Byte>, n: nat, after: seq<Byte>)
      requires n <= |piece|
      ensures piece[..n] + (piece[n..] + after) == piece + after
    {
    }
  }

  /** `_read_exact`: exactly `size` bytes, or an error; nothing beyond them is consumed. */
  method ReadExact(reader: Reader, size: nat) returns (r: ReadResult)
    requires reader.Valid()
    modifies reader
    ensures reader.Valid() && reader.failing == old(reader.failing)
    ensures r.Complete? ==>
              |r.bytes| == size && r.bytes + reader.rest == old(reader.rest)
    ensures r.UnexpectedEof? ==> |old(reader.rest)| < size
    ensures r.ReadFailed? ==> reader.failing
  {
    var buffer := new Byte[size];
    var offset := 0;
    ghost var all := reader.rest;
    while offset < size
      invariant 0 <= offset <= size
      invariant reader.Valid() && reader.failing == old(reader.failing)
      invariant offset + |reader.rest| == |all|
      invariant forall i | 0 <= i < offset :: buffer[i] == all[i]
      invariant reader.rest == all[offset..]
    {
      var remaining := size - offset;
      var chunk := reader.Receive(remaining);
      if !chunk.Complete? {
        return chunk;
      }
      var bytes := chunk.bytes;
      assert all[offset..] == bytes + reader.rest;
      forall i | 0 <= i < |bytes| {
        buffer[offset + i] := bytes[i];
      }
      forall i | 0 <= i < |bytes| ensures bytes[i] == all[offset + i] {
        assert all[offset..][i] == all[offset + i];
      }
      assert reader.rest == all[offset..][|bytes|..];
      offset := offset + |bytes|;
    }
    assert buffer[..] == all[..size];
    r := Complete(buffer[..]);
  }

  /** `read_frame` up to the JSON parser. */
  method ReadFrame(reader: Reader) returns (r: FrameResult)
    requires reader.Valid() && AreBytes(reader.rest)
    modifies reader
    ensures reader.Valid()
    ensures forall payload, tail |
              0 < |payload| <= MAX_FRAME_SIZE && old(reader.rest) == FrameBytes(payload) + tail && !old(reader.failing) ::
              r == Frame(payload) && reader.rest == tail
    ensures r.Frame? ==>
              0 < |r.payload| <= MAX_FRAME_SIZE && old(reader.rest) == FrameBytes(r.payload) + reader.rest
  {
    ghost var all := reader.rest;
    var header := ReadExact(reader, 4);
    if !header.Complete? {
      forall payload: seq<Byte> | 0 < |payload| <= MAX_FRAME_SIZE ensures 4 <= |FrameBytes(payload)| {}
      return Broken;
    }
    assert header.bytes == all[..4];
    HeaderOfLength(header.bytes);
    var length := Length(header.bytes);
    ghost var body := reader.rest;
    forall payload, tail | 0 < |payload| <= MAX_FRAME_SIZE && all == FrameBytes(payload) + tail
      ensures header.bytes == Header(|payload|) && body == payload + tail && length == |payload|
    {
      SameHeader(header.bytes, body, payload, tail);
      LengthOfHeader(|payload|);
    }
    if length <= 0 {
      return InvalidLength;
    }
    if MAX_FRAME_SIZE < length {
      return TooLarge;
    }
    var payload := ReadExact(reader, length);
    if !payload.Complete? {
      forall p: seq<Byte>, tail: seq<Byte> | body == p + tail && length == |p| ensures length <= |body| {}
      return Broken;
    }
    forall p: seq<Byte>, tail: seq<Byte> | body == p + tail && length == |p|
      ensures payload.bytes == p && reader.rest == tail
    {
      SamePrefix(payload.bytes, reader.rest, p, tail);
    }
    ConcatAssociative(header.bytes, payload.bytes, reader.rest);
    r := Frame(payload.bytes);
  }

  lemma SamePrefix(a: seq<Byte>, b: seq<Byte>, c: seq<Byte>, d: seq<Byte>)
    requires a + b == c + d && |a| == |c|
    ensures a == c && b == d
  {
    assert a == (a + b)[..|a|] && c == (c + d)[..|c|];
    assert b == (a + b)[|a|..] && d == (c + d)[|c|..];
  }

  lemma SameHeader(header: seq<Byte>, body: seq<Byte>, payload: seq<Byte>, tail: seq<Byte>)
    requires |header| == 4 && 0 < |payload| <= MAX_FRAME_SIZE
    requires header + body == FrameBytes(payload) + tail
    ensures header == Header(|payload|) && body == payload + tail
  {
    ConcatAssociative(Header(|payload|), payload, tail);
    SamePrefix(header, body, Header(|payload|), payload + tail);
  }

  /** The writing end: a write takes some of the bytes, or fails. */
  class Writer {
    ghost var sent: seq<Byte>
    var failing: bool

    constructor (failing: bool)
      ensures sent == [] && this.failing == failing
    {
      this.sent := [];
      this.failing := failing;
    }

    method Write(view: seq<Byte>) returns (written: int)
      requires view != []
      modifies this`sent
      ensures written <= |view|
      ensures sent == old(sent) + view[..if written < 0 then 0 else written]
      ensures written <= 0 ==> failing
    {
      if failing {
        assert old(sent) + view[..0] == old(sent);
        return 0;
      }
      written :| 1 <= written <= |view|;
      sent := sent + view[..written];
    }
  }

  /** `write_frame` without `sendall`: the whole frame in order, or an error after a prefix of it. */
  method WriteFrame(writer: Writer, payload: seq<Byte>) returns (ok: bool)
    modifies writer
    ensures ok ==> |payload| <= MAX_FRAME_SIZE && writer.sent == old(writer.sent) + FrameBytes(payload)
    ensures !ok ==> MAX_FRAME_SIZE < |payload| || old(writer.failing)
    ensures MAX_FRAME_SIZE < |payload| ==> !ok && writer.sent == old(writer.sent)
  {
    if MAX_FRAME_SIZE < |payload| {
      return false;
    }
    var view := Header(|payload|) + payload;
    ghost var frame := view;
    ghost var before := writer.sent;
    assert before + [] == before;
    while view != []
      invariant |view| <= |frame| && view == frame[|frame| - |view|..]
      invariant writer.sent == before + frame[..|frame| - |view|]
      invariant writer.failing == old(writer.failing)
      decreases |view|
    {
      ghost var done := |frame| - |view|;
      var written := writer.Write(view);
      if written <= 0 {
        return false;
      }
      PrefixGrows(frame, done, written);
      ConcatAssociative(before, frame[..done], view[..written]);
      view := view[written..];
    }
    assert frame[..|frame|] == frame;
    ok := true;
  }

  lemma PrefixGrows(frame: seq<Byte>, done: nat, written: nat)
    requires done + written <= |frame|
    ensures frame[..done] + frame[done..][..written] == frame[..done + written]
    ensures frame[done..][written..] == frame[done + written..]
  {
  }
}
