/**
 What a command looks like on the wire: `NSQEncoder` writes the line, then one framed message
 (PUB) or a counted list of framed messages behind a total size (MPUB).
 */
module NsqEncoding {
  import opened Common

  type Byte = b: int | 0 <= b < 256

  type Bytes = seq<Byte>

  const INT_RANGE := 0x1_0000_0000

  /** `ChannelBuffer.writeInt`: the low 32 bits, most significant byte first. */
  function WriteInt(n: int): (r: Bytes)
    ensures |r| == 4
  {
    [(n / 0x100_0000) % 256, (n / 0x1_0000) % 256, (n / 0x100) % 256, n % 256]
  }

  function ReadInt(b: Bytes): (n: nat)
    requires |b| >= 4
  {
    (b[0] as int) * 0x100_0000 + (b[1] as int) * 0x1_0000 + (b[2] as int) * 0x100 + (b[3] as int)
  }

  lemma ReadsWhatWasWritten(n: int, rest: Bytes)
    ensures ReadInt(WriteInt(n) + rest) == n % INT_RANGE
  {
    var a := n / 0x100;
    var b := a / 0x100;
    assert b == n / 0x1_0000;
    var c := b / 0x100;
    assert c == n / 0x100_0000;
  }

  /** A number in front of anything can be read, and what follows it is left. */
  lemma Header(n: nat, rest: Bytes)
    requires n < INT_RANGE
    ensures ReadInt(WriteInt(n) + rest) == n && (WriteInt(n) + rest)[4..] == rest
  {
    ReadsWhatWasWritten(n, rest);
    assert n % INT_RANGE == n;
  }

  // ----- messages -----

  /** The framed messages, one after the other. */
  function Framed(data: seq<Bytes>): Bytes {
    if data == [] then []
    else Framed(data[..|data| - 1]) + WriteInt(|data[|data| - 1]|) + data[|data| - 1]
  }

  /** What `Batch` counts as `totalBytes`: four bytes for the number of messages, and four for the
      length of each. */
  function WireSize(data: seq<Bytes>): nat {
    if data == [] then 4 else WireSize(data[..|data| - 1]) + 4 + |data[|data| - 1]|
  }

  /** What follows the line of a command. */
  function Payload(data: seq<Bytes>): Bytes {
    if |data| > 1 then WriteInt(WireSize(data)) + WriteInt(|data|) + Framed(data) else Framed(data)
  }

  /** `encode`. */
  method Encode(line: Bytes, data: seq<Bytes>) returns (buf: Bytes)
    ensures buf == line + Payload(data)
    ensures data == [] ==> buf == line
    ensures |data| == 1 ==> buf == line + WriteInt(|data[0]|) + data[0]
  {
    hide WriteInt;
    buf := line;
    if |data| > 1 {
      var bodySize := 4;
      for i := 0 to |data|
        invariant bodySize == WireSize(data[..i])
      {
        assert data[..i + 1][..i] == data[..i];
        bodySize := bodySize + 4;
        bodySize := bodySize + |data[i]|;
      }
      assert data[..|data|] == data;
      buf := buf + WriteInt(bodySize);
      buf := buf + WriteInt(|data|);
    }
    ghost var start := buf;
    for i := 0 to |data|
      invariant buf == start + Framed(data[..i])
    {
      assert data[..i + 1][..i] == data[..i];
      Regroup(start, Framed(data[..i]), WriteInt(|data[i]|), data[i]);
      buf := buf + WriteInt(|data[i]|);
      buf := buf + data[i];
    }
    assert data[..|data|] == data;
    ShortPayload(data);
  }

  /** Nothing follows the line when there are no messages, and one framed message is not announced. */
  lemma ShortPayload(data: seq<Bytes>)
    ensures data == [] ==> Payload(data) == []
    ensures |data| == 1 ==> Payload(data) == WriteInt(|data[0]|) + data[0]
  {
    if |data| == 1 {
      assert data[..0] == [] && Framed(data[..0]) == [];
    }
  }

  /** The size an MPUB announces is the number of bytes that follow it. */
  lemma AnnouncedSize(data: seq<Bytes>)
    requires |data| > 1
    ensures |Payload(data)| == 4 + WireSize(data)
  {
    FramedSize(data);
  }

  lemma {:induction false} FramedSize(data: seq<Bytes>)
    ensures |Framed(data)| == WireSize(data) - 4
  {
    if data != [] {
      FramedSize(data[..|data| - 1]);
    }
  }

  // ----- reading the messages back -----

  /** `n` framed messages from the front of `b`. */
  function Unframe(b: Bytes, n: nat): Option<seq<Bytes>> {
    if n == 0 then (if b == [] then Some([]) else None)
    else if |b| < 4 || |b| < 4 + ReadInt(b) then None
    else
      var size := ReadInt(b);
      var rest := Unframe(b[4 + size..], n - 1);
      if rest.None? then None else Some([b[4..4 + size]] + rest.value)
  }

  /** A server that reads the size, then the count, then the messages. */
  function ReadMpub(b: Bytes): Option<seq<Bytes>> {
    if |b| < 8 || ReadInt(b) != |b| - 4 then None else Unframe(b[8..], ReadInt(b[4..]))
  }

  predicate Sized(data: seq<Bytes>) {
    WireSize(data) < INT_RANGE
  }

  /** The first message comes first. */
  lemma {:induction false} FramedCons(first: Bytes, rest: seq<Bytes>)
    ensures Framed([first] + rest) == WriteInt(|first|) + first + Framed(rest)
    ensures WireSize([first] + rest) == 4 + |first| + WireSize(rest)
  {
    hide WriteInt;
    var data := [first] + rest;
    if rest == [] {
      assert data[..0] == [];
      assert Framed(data[..0]) == [] && Framed(rest) == [];
    } else {
      var n := |rest| - 1;
      FramedCons(first, rest[..n]);
      assert data[..|data| - 1] == [first] + rest[..n];
      assert data[|data| - 1] == rest[n];
      Regroup(WriteInt(|first|) + first, Framed(rest[..n]), WriteInt(|rest[n]|), rest[n]);
    }
  }

  lemma Regroup(a: Bytes, b: Bytes, c: Bytes, d: Bytes)
    ensures a + b + c + d == a + (b + c + d)
  {
  }

  lemma {:induction false} UnframesFramed(data: seq<Bytes>)
    requires Sized(data)
    ensures Unframe(Framed(data), |data|) == Some(data)
  {
    if data != [] {
      var first, rest := data[0], data[1..];
      assert data == [first] + rest;
      FramedCons(first, rest);
      var b := Framed(data);
      assert b == WriteInt(|first|) + (first + Framed(rest));
      FramedSize(rest);
      Header(|first|, first + Framed(rest));
      assert b[4..4 + |first|] == first && b[4 + |first|..] == Framed(rest);
      UnframesFramed(rest);
    }
  }

  /** Whatever list of two or more messages is sent, the server reads back that list. */
  lemma MpubRoundTrip(data: seq<Bytes>)
    requires |data| > 1 && Sized(data)
    ensures ReadMpub(Payload(data)) == Some(data)
  {
    var b := Payload(data);
    AnnouncedSize(data);
    CountFits(data);
    var tail := WriteInt(|data|) + Framed(data);
    assert b == WriteInt(WireSize(data)) + tail;
    Header(WireSize(data), tail);
    Header(|data|, Framed(data));
    assert b[8..] == b[4..][4..];
    UnframesFramed(data);
  }

  lemma {:induction false} CountFits(data: seq<Bytes>)
    ensures |data| < WireSize(data)
  {
    if data != [] {
      CountFits(data[..|data| - 1]);
    }
  }

  /** A single message, sent by PUB, comes back as well. */
  lemma PubRoundTrip(message: Bytes)
    requires Sized([message])
    ensures Unframe(Payload([message]), 1) == Some([message])
  {
    UnframesFramed([message]);
  }
}
