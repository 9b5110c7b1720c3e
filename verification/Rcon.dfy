/**
  RCON framing, section "Basic Packet Structure" of the Source RCON Protocol: a little-endian
  32-bit size, then id, type, body and two zero bytes.  The network may deliver the stream in
  pieces of any size.
 */
module Rcon {
  import opened Wrappers
  import opened Utf8

  const TWO31: int := 0x8000_0000
  const TWO32: int := 0x1_0000_0000

  predicate FitsInt32(n: int) { -TWO31 <= n < TWO31 }

  /** Two's complement, least significant byte first. */
  function PackInt(n: int): (b: seq<Byte>)
    requires FitsInt32(n)
    ensures |b| == 4
  {
    var u := if n < 0 then n + TWO32 else n;
    [u % 256, u / 256 % 256, u / 65536 % 256, u / 16777216]
  }

  function UnpackInt(b: seq<Byte>): int
    requires |b| == 4
  {
    var u := Sum4(b[0], b[1], b[2], b[3]);
    if u >= TWO31 then u - TWO32 else u
  }

  function Sum4(a: int, b: int, c: int, d: int): int { a + b * 256 + c * 65536 + d * 16777216 }

  lemma SumOfDigits(u: int)
    requires 0 <= u < TWO32
    ensures Sum4(u % 256, u / 256 % 256, u / 65536 % 256, u / 16777216) == u
  {
    var q1 := u / 256;
    var q2 := q1 / 256;
    assert u / 65536 == q2 && u / 16777216 == q2 / 256;
    assert u == u % 256 + 256 * q1 && q1 == q1 % 256 + 256 * q2 && q2 == q2 % 256 + 256 * (q2 / 256);
  }

  /** Every 32-bit number survives the wire. */
  lemma UnpackPack(n: int)
    requires FitsInt32(n)
    ensures UnpackInt(PackInt(n)) == n
  {
    SumOfDigits(if n < 0 then n + TWO32 else n);
  }

  lemma PackUnpack(b: seq<Byte>)
    requires |b| == 4
    ensures FitsInt32(UnpackInt(b)) && PackInt(UnpackInt(b)) == b
  {
    var n := UnpackInt(b);
    var u := if n < 0 then n + TWO32 else n;
    assert u == Sum4(b[0], b[1], b[2], b[3]);
    DigitsOf(b[0], b[1], b[2], b[3]);
  }

  lemma DigitsOf(a: int, b: int, c: int, d: int)
    requires 0 <= a < 256 && 0 <= b < 256 && 0 <= c < 256 && 0 <= d < 256
    ensures var u := Sum4(a, b, c, d);
            u % 256 == a && u / 256 % 256 == b && u / 65536 % 256 == c && u / 16777216 == d
  {
    var u := Sum4(a, b, c, d);
    assert u / 256 == b + c * 256 + d * 65536;
    assert u / 65536 == c + d * 256;
  }

  datatype Packet = Packet(id: int, ptype: int, payload: Text)

  function Body(p: Packet): seq<Byte>
    requires FitsInt32(p.id) && FitsInt32(p.ptype)
  {
    PackInt(p.id) + PackInt(p.ptype) + Encode(p.payload) + [0, 0]
  }

  /** Packing refuses numbers outside 32 bits, the size of the body included. */
  predicate Sendable(p: Packet) {
    FitsInt32(p.id) && FitsInt32(p.ptype) && FitsInt32(|Body(p)|)
  }

  function PacketBytes(p: Packet): seq<Byte>
    requires Sendable(p)
  {
    PackInt(|Body(p)|) + Body(p)
  }

  // ----- Reading, on the whole stream -----

  /** A received packet, its payload still undecoded. */
  datatype Received = Received(id: int, ptype: int, payload: seq<Byte>)

  datatype RconError = NotConnected | ConnectionClosed | Malformed | Unpackable

  /** The first n bytes of a stream and what follows; asking for fewer than none gives none. */
  function Split(stream: seq<Byte>, n: int): Result<(seq<Byte>, seq<Byte>), RconError> {
    if n <= 0 then Ok(([], stream))
    else if n <= |stream| then Ok((stream[..n], stream[n..]))
    else Err(ConnectionClosed)
  }

  function ParseBody(body: seq<Byte>): Result<Received, RconError> {
    if |body| < 8 then Err(Malformed)
    else Ok(Received(UnpackInt(body[..4]), UnpackInt(body[4..8]), if |body| < 10 then [] else body[8..|body| - 2]))
  }

  /** One packet off the front of a stream. */
  function Parse(stream: seq<Byte>): Result<(Received, seq<Byte>), RconError> {
    if |stream| < 4 then Err(ConnectionClosed)
    else
      var split := Split(stream[4..], UnpackInt(stream[..4]));
      if split.Err? then Err(split.error)
      else
        var parsed := ParseBody(split.value.0);
        if parsed.Err? then Err(parsed.error) else Ok((parsed.value, split.value.1))
  }

  lemma ParseBodyOf(p: Packet)
    requires Sendable(p)
    ensures ParseBody(Body(p)) == Ok(Received(p.id, p.ptype, Encode(p.payload)))
  {
    var body, text := Body(p), Encode(p.payload);
    assert body[..4] == PackInt(p.id) && body[4..8] == PackInt(p.ptype) && body[8..|body| - 2] == text;
    UnpackPack(p.id);
    UnpackPack(p.ptype);
  }

  /** A sent packet is read back whole, and reading stops exactly at its end. */
  lemma ParseOne(p: Packet, rest: seq<Byte>)
    requires Sendable(p)
    ensures Parse(PacketBytes(p) + rest) == Ok((Received(p.id, p.ptype, Encode(p.payload)), rest))
  {
    var stream := PacketBytes(p) + rest;
    assert stream[..4] == PackInt(|Body(p)|) && stream[4..] == Body(p) + rest;
    UnpackPack(|Body(p)|);
    assert (Body(p) + rest)[..|Body(p)|] == Body(p) && (Body(p) + rest)[|Body(p)|..] == rest;
    ParseBodyOf(p);
  }

  predicate AllSendable(ps: seq<Packet>) {
    forall k :: 0 <= k < |ps| ==> Sendable(ps[k])
  }

  function StreamOf(ps: seq<Packet>): seq<Byte>
    requires AllSendable(ps)
  {
    if ps == [] then [] else PacketBytes(ps[0]) + StreamOf(ps[1..])
  }

  /** n packets in a row, until one cannot be read. */
  function ParseMany(stream: seq<Byte>, n: nat): Result<(seq<Received>, seq<Byte>), RconError> {
    if n == 0 then Ok(([], stream))
    else
      var first := Parse(stream);
      if first.Err? then Err(first.error)
      else
        var more := ParseMany(first.value.1, n - 1);
        if more.Err? then Err(more.error) else Ok(([first.value.0] + more.value.0, more.value.1))
  }

  function Expected(ps: seq<Packet>): (out: seq<Received>)
    ensures |out| == |ps|
  {
    seq(|ps|, k requires 0 <= k < |ps| => Received(ps[k].id, ps[k].ptype, Encode(ps[k].payload)))
  }

  lemma ParseManyStep(stream: seq<Byte>, n: nat, r: Received, tail: seq<Byte>, rs: seq<Received>, end: seq<Byte>)
    requires Parse(stream) == Ok((r, tail)) && ParseMany(tail, n) == Ok((rs, end))
    ensures ParseMany(stream, n + 1) == Ok(([r] + rs, end))
  {}

  /** A sequence of sent packets is read back in order, each exactly, up to the last boundary. */
  lemma {:induction false} ParseAll(ps: seq<Packet>, rest: seq<Byte>)
    requires AllSendable(ps)
    ensures ParseMany(StreamOf(ps) + rest, |ps|) == Ok((Expected(ps), rest))
  {
    if ps == [] {
      assert StreamOf(ps) + rest == rest;
    } else {
      var tail := StreamOf(ps[1..]) + rest;
      ParseAll(ps[1..], rest);
      ParseHead(ps[0], tail, |ps| - 1, Expected(ps[1..]), rest);
      StreamSplit(ps, rest);
      ExpectedSplit(ps);
    }
  }

  lemma ParseHead(p: Packet, tail: seq<Byte>, n: nat, rs: seq<Received>, end: seq<Byte>)
    requires Sendable(p) && ParseMany(tail, n) == Ok((rs, end))
    ensures ParseMany(PacketBytes(p) + tail, n + 1)
            == Ok(([Received(p.id, p.ptype, Encode(p.payload))] + rs, end))
  {
    ParseOne(p, tail);
    ParseManyStep(PacketBytes(p) + tail, n, Received(p.id, p.ptype, Encode(p.payload)), tail, rs, end);
  }

  lemma ExpectedSplit(ps: seq<Packet>)
    requires ps != []
    ensures Expected(ps) == [Received(ps[0].id, ps[0].ptype, Encode(ps[0].payload))] + Expected(ps[1..])
  {}

  lemma StreamSplit(ps: seq<Packet>, rest: seq<Byte>)
    requires ps != [] && AllSendable(ps)
    ensures StreamOf(ps) + rest == PacketBytes(ps[0]) + (StreamOf(ps[1..]) + rest)
  {
    Associates(PacketBytes(ps[0]), StreamOf(ps[1..]), rest);
  }

  /** The text of every received payload is the text that was sent. */
  lemma TextsReturn(ps: seq<Packet>, k: nat)
    requires k < |ps|
    ensures DecodeIgnore(Expected(ps)[k].payload) == ps[k].payload
  {
    RoundTrip(ps[k].payload);
  }

  // ----- The client -----

  class RconClient {
    var connected: bool
    var incoming: seq<Byte>
    var outgoing: seq<Byte>
    var requestId: int

    constructor (incoming: seq<Byte>)
      ensures connected && this.incoming == incoming && outgoing == [] && requestId == 1
    {
      connected, this.incoming, outgoing, requestId := true, incoming, [], 1;
    }

    /** The socket hands over some of what has arrived, at most `limit` bytes; nothing when the peer is done. */
    method Recv(limit: nat) returns (chunk: seq<Byte>)
      requires limit > 0
      modifies this`incoming
      ensures chunk + incoming == old(incoming) && |chunk| <= limit
      ensures chunk == [] <==> old(incoming) == []
    {
      if incoming == [] {
        return [];
      }
      var n: nat :| 1 <= n <= limit && n <= |incoming|;
      chunk := incoming[..n];
      incoming := incoming[n..];
    }

    /** Exactly n bytes, however they are cut up on the way. */
    method RecvExact(n: int) returns (r: Result<seq<Byte>, RconError>)
      modifies this`incoming
      ensures !connected ==> r == Err(NotConnected) && incoming == old(incoming)
      ensures connected ==>
                match Split(old(incoming), n)
                case Ok(parts) => r == Ok(parts.0) && incoming == parts.1
                case Err(e) => r == Err(e)
    {
      if !connected {
        return Err(NotConnected);
      }
      var chunks: seq<Byte> := [];
      var remaining := n;
      while remaining > 0
        invariant chunks + incoming == old(incoming)
        invariant n > 0 ==> remaining >= 0 && |chunks| + remaining == n
        invariant n <= 0 ==> chunks == [] && remaining == n
        decreases remaining
      {
        var chunk := Recv(remaining);
        if chunk == [] {
          return Err(ConnectionClosed);
        }
        chunks := chunks + chunk;
        remaining := remaining - |chunk|;
      }
      assert n > 0 ==> chunks == old(incoming)[..n] && incoming == old(incoming)[n..];
      return Ok(chunks);
    }

    method Receive() returns (r: Result<Received, RconError>)
      modifies this`incoming
      ensures !connected ==> r == Err(NotConnected) && incoming == old(incoming)
      ensures connected ==>
                match Parse(old(incoming))
                case Ok(parsed) => r == Ok(parsed.0) && incoming == parsed.1
                case Err(e) => r == Err(e)
    {
      if !connected {
        return Err(NotConnected);
      }
      var rawLen := RecvExact(4);
      if rawLen.Err? {
        return Err(rawLen.error);
      }
      var body := RecvExact(UnpackInt(rawLen.value));
      if body.Err? {
        return Err(body.error);
      }
      if |body.value| < 8 {
        return Err(Malformed);
      }
      var payload := if |body.value| < 10 then [] else body.value[8..|body.value| - 2];
      return Ok(Received(UnpackInt(body.value[..4]), UnpackInt(body.value[4..8]), payload));
    }

    /** Writes one packet, or nothing when a number does not fit. */
    method Send(requestId: int, ptype: int, payload: Text) returns (r: Result<(), RconError>)
      modifies this`outgoing
      ensures r.Ok? <==> connected && Sendable(Packet(requestId, ptype, payload))
      ensures outgoing ==
                if r.Ok? then old(outgoing) + PacketBytes(Packet(requestId, ptype, payload)) else old(outgoing)
    {
      if !connected {
        return Err(NotConnected);
      }
      if !FitsInt32(requestId) || !FitsInt32(ptype) {
        return Err(Unpackable);
      }
      var body := PackInt(requestId) + PackInt(ptype) + Encode(payload) + [0, 0];
      if !FitsInt32(|body|) {
        return Err(Unpackable);
      }
      outgoing := outgoing + (PackInt(|body|) + body);
      return Ok(());
    }

    method NextRequestId() returns (id: int)
      modifies this`requestId
      ensures id == old(requestId) && requestId == id + 1
    {
      id := requestId;
      requestId := requestId + 1;
    }

    /** Receiving as often as packets were sent yields them all, for any cutting of the stream. */
    method ReceiveAll(n: nat) returns (r: Result<seq<Received>, RconError>)
      requires connected
      modifies this`incoming
      ensures match ParseMany(old(incoming), n)
              case Ok(parsed) => r == Ok(parsed.0) && incoming == parsed.1
              case Err(e) => r == Err(e)
      ensures forall ps, rest :: AllSendable(ps) && |ps| == n && old(incoming) == StreamOf(ps) + rest ==>
                r == Ok(Expected(ps)) && incoming == rest
      decreases n
    {
      forall ps, rest | AllSendable(ps) && |ps| == n && incoming == StreamOf(ps) + rest
        ensures ParseMany(incoming, n) == Ok((Expected(ps), rest))
      {
        ParseAll(ps, rest);
      }
      if n == 0 {
        return Ok([]);
      }
      var first := Receive();
      if first.Err? {
        return Err(first.error);
      }
      var more := ReceiveAll(n - 1);
      if more.Err? {
        return Err(more.error);
      }
      return Ok([first.value] + more.value);
    }
  }

  // ----- The layout in words -----

  /** Four bytes, least significant first, of the number or of its two's complement. */
  lemma PackedInWords(n: int)
    requires -2147483648 <= n < 2147483648
    ensures |PackInt(n)| == 4
    ensures var (a: int, b: int, c: int, d: int) := (PackInt(n)[0], PackInt(n)[1], PackInt(n)[2], PackInt(n)[3]);
            a + b * 256 + c * 65536 + d * 16777216 == if n < 0 then n + 4294967296 else n
  {
    SumOfDigits(if n < 0 then n + TWO32 else n);
  }

  /** A packet: size, id, type, text and two zero bytes; the size counts everything after itself. */
  lemma PacketInWords(p: Packet)
    requires Sendable(p)
    ensures var b, text := PacketBytes(p), Encode(p.payload);
            && |b| == |text| + 14
            && b[..4] == PackInt(|text| + 10) && b[4..8] == PackInt(p.id) && b[8..12] == PackInt(p.ptype)
            && b[12..12 + |text|] == text && b[12 + |text|..] == [0, 0]
  {}

  /** What is made of a packet's body: two numbers, and the text between them and the last two bytes. */
  lemma BodyInWords(body: seq<Byte>)
    ensures |body| < 8 ==> ParseBody(body) == Err(Malformed)
    ensures |body| >= 8 ==>
              && ParseBody(body).Ok?
              && ParseBody(body).value.id == UnpackInt(body[..4])
              && ParseBody(body).value.ptype == UnpackInt(body[4..8])
              && ParseBody(body).value.payload == if |body| < 10 then [] else body[8..|body| - 2]
  {}

  /** What is made of a stream: four bytes of size, that many bytes of body, and the rest is left. */
  lemma ParseInWords(stream: seq<Byte>)
    ensures |stream| < 4 ==> Parse(stream) == Err(ConnectionClosed)
    ensures |stream| >= 4 ==>
              var size := UnpackInt(stream[..4]);
              if size > |stream| - 4 then Parse(stream) == Err(ConnectionClosed)
              else
                var n := if size < 0 then 0 else size;
                match ParseBody(stream[4..4 + n])
                case Err(e) => Parse(stream) == Err(e)
                case Ok(r) => Parse(stream) == Ok((r, stream[4 + n..]))
  {
    if |stream| >= 4 && UnpackInt(stream[..4]) <= |stream| - 4 {
      var size := UnpackInt(stream[..4]);
      var n := if size < 0 then 0 else size;
      assert stream[4..][..n] == stream[4..4 + n] && stream[4..][n..] == stream[4 + n..];
    }
  }
}
