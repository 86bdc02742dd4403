/**
 * The bytes an account signs: a domain, then one frame per entry, each an opcode and a
 * two-byte length before its body. The crate that fixes the field order is not part of
 * this model; the order here charges what the manager's tests say the format charges.
 */
module Codec {
  import opened Basics
  import opened AccountLog

  /** Only the length of the domain is ever used. */
  const ACCOUNT_LOG_DOMAIN: Bytes := Ascii("logos-account-log")
  const DOMAIN_BYTES := 17
  const MAX_PAYLOAD_BYTES := 128 * 1024

  const KEY_KIND: Byte := 1
  const TEXT_KIND: Byte := 2

  /** A big-endian number of two bytes, and of four. */
  function Two(high: int, low: int): int {
    high * 256 + low
  }

  function Four(b0: int, b1: int, b2: int, b3: int): int {
    Two(b0, b1) * 0x1_0000 + Two(b2, b3)
  }

  function U16(n: nat): (b: Bytes)
    requires n < 0x1_0000
    ensures |b| == 2 && Two(b[0], b[1]) == n
  {
    [n / 256, n % 256]
  }

  function U32(n: nat): (b: Bytes)
    requires n < 0x1_0000_0000
    ensures |b| == 4 && Four(b[0], b[1], b[2], b[3]) == n
  {
    U16(n / 0x1_0000) + U16(n % 0x1_0000)
  }

  function Opcode(e: Entry): Byte {
    match e
    case Add(_, _) => ADD_OPCODE
    case Remove(_) => REMOVE_OPCODE
    case Unknown(opcode, _) => opcode
  }

  function Kind(data: Data): Byte {
    if data.Text? then TEXT_KIND else KEY_KIND
  }

  function Body(e: Entry): (b: Bytes)
    requires Encodable(e)
    ensures |b| <= MAX_BODY_BYTES
  {
    match e
    case Add(context, data) => [|context|] + context + [Kind(data)] + DataBytes(data)
    case Remove(index) => U32(index)
    case Unknown(_, body) => body
  }

  function Frame(e: Entry): (b: Bytes)
    requires Encodable(e)
    ensures |b| >= 3
  {
    var body := Body(e);
    [Opcode(e)] + U16(|body|) + body
  }

  predicate AllEncodable(log: Log) {
    forall i :: 0 <= i < |log| ==> Encodable(log[i])
  }

  function Frames(log: Log): Bytes
    requires AllEncodable(log)
  {
    if log == [] then [] else Frame(log[0]) + Frames(log[1..])
  }

  function Payload(log: Log): Bytes
    requires AllEncodable(log)
  {
    ACCOUNT_LOG_DOMAIN + Frames(log)
  }

  /** The length of an entry's frame, and of a log's payload, told without building either. */
  function FrameBytes(e: Entry): nat {
    match e
    case Add(context, data) => 5 + |context| + |DataBytes(data)|
    case Remove(_) => 7
    case Unknown(_, body) => 3 + |body|
  }

  function PayloadBytes(log: Log): nat {
    if log == [] then DOMAIN_BYTES else PayloadBytes(log[..|log| - 1]) + FrameBytes(log[|log| - 1])
  }

  /** Why a log has no payload, if it has none. */
  function EncodeError(log: Log): Option<LogError> {
    if !AllEncodable(log) then Some(NotAuthored)
    else if PayloadBytes(log) > MAX_PAYLOAD_BYTES then Some(TooLarge)
    else None
  }

  /** The payload a log signs, refused past the format's cap. */
  function Encode(log: Log): (r: Result<Bytes, LogError>) {
    match EncodeError(log)
    case Some(error) => Err(error)
    case None => Ok(Payload(log))
  }

  function ParseBody(opcode: Byte, body: Bytes): Option<Entry> {
    if opcode == ADD_OPCODE then
      var n: int := if body == [] then 0 else body[0];
      if |body| < 2 + n then None
      else
        var context, kind, data := body[1..1 + n], body[1 + n], body[2 + n..];
        if kind == KEY_KIND && |data| == KEY_BYTES then Some(Add(context, Ed25519Key(data)))
        else if kind == TEXT_KIND then Some(Add(context, Text(data)))
        else None
    else if opcode == REMOVE_OPCODE then
      if |body| != 4 then None
      else Some(Remove(Four(body[0], body[1], body[2], body[3])))
    else Some(Unknown(opcode, body))
  }

  function ParseFrame(b: Bytes): Option<(Entry, Bytes)> {
    if |b| < 3 || |b| < 3 + Two(b[1], b[2]) then None
    else
      var n := Two(b[1], b[2]);
      match ParseBody(b[0], b[3..3 + n])
      case None => None
      case Some(e) => Some((e, b[3 + n..]))
  }

  function ParseFrames(b: Bytes): Option<Log>
    decreases |b|
  {
    if b == [] then Some([])
    else
      match ParseFrame(b)
      case None => None
      case Some(first) =>
        match ParseFrames(first.1)
        case None => None
        case Some(rest) => Some([first.0] + rest)
  }

  function Decode(payload: Bytes): Option<Log> {
    if |payload| > MAX_PAYLOAD_BYTES || !(ACCOUNT_LOG_DOMAIN <= payload) then None
    else ParseFrames(payload[DOMAIN_BYTES..])
  }

  lemma ParseOfBody(e: Entry)
    requires Encodable(e)
    ensures ParseBody(Opcode(e), Body(e)) == Some(e)
  {
    match e
    case Add(context, data) =>
      var body, n := Body(e), |context|;
      assert body[1..1 + n] == context;
      assert body[2 + n..] == DataBytes(data);
    case Remove(_) =>
    case Unknown(_, _) =>
  }

  lemma AdditionOfParse(body: Bytes)
    requires |body| <= MAX_BODY_BYTES && ParseBody(ADD_OPCODE, body).Some?
    ensures
      var e := ParseBody(ADD_OPCODE, body).value;
      Encodable(e) && Opcode(e) == ADD_OPCODE && Body(e) == body
  {
    var n: int := body[0];
    assert body == [body[0]] + body[1..1 + n] + [body[1 + n]] + body[2 + n..];
  }

  lemma TwoParts(high: int, low: int)
    requires 0 <= low < 256
    ensures Two(high, low) / 256 == high && Two(high, low) % 256 == low
  {
  }

  lemma FourParts(b0: int, b1: int, b2: int, b3: int)
    requires 0 <= Two(b2, b3) < 0x1_0000
    ensures Four(b0, b1, b2, b3) / 0x1_0000 == Two(b0, b1)
    ensures Four(b0, b1, b2, b3) % 0x1_0000 == Two(b2, b3)
  {
  }

  lemma U32OfFour(b0: Byte, b1: Byte, b2: Byte, b3: Byte)
    ensures 0 <= Four(b0, b1, b2, b3) < 0x1_0000_0000
    ensures U32(Four(b0, b1, b2, b3)) == [b0, b1, b2, b3]
  {
    FourParts(b0, b1, b2, b3);
    TwoParts(b0, b1);
    TwoParts(b2, b3);
  }

  lemma RemovalOfParse(body: Bytes)
    requires |body| == 4
    ensures
      var e := Remove(Four(body[0], body[1], body[2], body[3]));
      Encodable(e) && Opcode(e) == REMOVE_OPCODE && Body(e) == body
  {
    U32OfFour(body[0], body[1], body[2], body[3]);
    assert body == [body[0], body[1], body[2], body[3]];
  }

  lemma BodyOfParse(opcode: Byte, body: Bytes)
    requires |body| <= MAX_BODY_BYTES && ParseBody(opcode, body).Some?
    ensures
      var e := ParseBody(opcode, body).value;
      Encodable(e) && Opcode(e) == opcode && Body(e) == body
  {
    if opcode == ADD_OPCODE {
      AdditionOfParse(body);
    } else if opcode == REMOVE_OPCODE {
      RemovalOfParse(body);
    }
  }

  lemma ParseOfFrame(e: Entry, rest: Bytes)
    requires Encodable(e)
    ensures ParseFrame(Frame(e) + rest) == Some((e, rest))
  {
    ParseOfBody(e);
    var body := Body(e);
    var b := Frame(e) + rest;
    assert Two(b[1], b[2]) == |body|;
    assert b[3..3 + |body|] == body && b[3 + |body|..] == rest;
  }

  lemma FrameOfParse(b: Bytes)
    requires ParseFrame(b).Some?
    ensures Encodable(ParseFrame(b).value.0) && b == Frame(ParseFrame(b).value.0) + ParseFrame(b).value.1
  {
    var n := Two(b[1], b[2]);
    var body := b[3..3 + n];
    BodyOfParse(b[0], body);
    var length := U16(n);
    assert length == [b[1], b[2]];
    assert b == [b[0]] + length + body + b[3 + n..];
  }

  lemma {:induction false} ParseOfFrames(log: Log)
    requires AllEncodable(log)
    ensures ParseFrames(Frames(log)) == Some(log)
  {
    if log != [] {
      ParseOfFrame(log[0], Frames(log[1..]));
      ParseOfFrames(log[1..]);
      assert [log[0]] + log[1..] == log;
    }
  }

  lemma {:induction false} FramesOfParse(b: Bytes)
    requires ParseFrames(b).Some?
    ensures AllEncodable(ParseFrames(b).value) && Frames(ParseFrames(b).value) == b
    decreases |b|
  {
    if b != [] {
      FrameOfParse(b);
      var first := ParseFrame(b).value;
      FramesOfParse(first.1);
      var log := ParseFrames(b).value;
      assert log[1..] == ParseFrames(first.1).value;
    }
  }

  lemma ConcatAssociates(x: Bytes, y: Bytes, z: Bytes)
    ensures (x + y) + z == x + (y + z)
  {
  }

  lemma PrefixAndRest(start: Bytes, b: Bytes)
    requires start <= b
    ensures b == start + b[|start|..]
  {
  }

  lemma {:induction false} FramesConcat(a: Log, b: Log)
    requires AllEncodable(a) && AllEncodable(b)
    ensures AllEncodable(a + b) && Frames(a + b) == Frames(a) + Frames(b)
  {
    if a == [] {
      assert a + b == b;
    } else {
      assert (a + b)[1..] == a[1..] + b;
      FramesConcat(a[1..], b);
      ConcatAssociates(Frame(a[0]), Frames(a[1..]), Frames(b));
    }
  }

  lemma FramesOfOne(e: Entry)
    requires Encodable(e)
    ensures AllEncodable([e]) && Frames([e]) == Frame(e)
  {
    assert [e][1..] == [];
    assert Frame(e) + [] == Frame(e);
  }

  lemma FrameLength(e: Entry)
    requires Encodable(e)
    ensures |Frame(e)| == FrameBytes(e)
  {
  }

  lemma {:induction false} FramesLength(log: Log)
    requires AllEncodable(log)
    ensures PayloadBytes(log) == DOMAIN_BYTES + |Frames(log)|
  {
    if log != [] {
      var before, last := log[..|log| - 1], log[|log| - 1];
      FramesLength(before);
      FrameLength(last);
      FramesOfOne(last);
      FramesConcat(before, [last]);
      assert log == before + [last];
    }
  }

  /** The length told is the length of the payload. */
  lemma PayloadLength(log: Log)
    requires AllEncodable(log)
    ensures PayloadBytes(log) == |Payload(log)|
  {
    FramesLength(log);
  }

  lemma {:induction false} PayloadBytesConcat(a: Log, b: Log)
    ensures PayloadBytes(a + b) + DOMAIN_BYTES == PayloadBytes(a) + PayloadBytes(b)
  {
    if b == [] {
      assert a + b == a;
    } else {
      var n := |b| - 1;
      assert (a + b)[..|a| + n] == a + b[..n];
      PayloadBytesConcat(a, b[..n]);
    }
  }

  lemma DecodeOfEncode(log: Log)
    requires Encode(log).Ok?
    ensures Decode(Encode(log).value) == Some(log)
  {
    PayloadLength(log);
    var payload := Payload(log);
    ParseOfFrames(log);
    assert payload[..DOMAIN_BYTES] == ACCOUNT_LOG_DOMAIN;
    assert payload[DOMAIN_BYTES..] == Frames(log);
  }

  lemma EncodeOfDecode(payload: Bytes)
    requires Decode(payload).Some?
    ensures Encode(Decode(payload).value) == Ok(payload)
  {
    FramesOfParse(payload[DOMAIN_BYTES..]);
    PrefixAndRest(ACCOUNT_LOG_DOMAIN, payload);
    PayloadLength(Decode(payload).value);
  }

  /** Decoding exactly inverts encoding, so a payload and its entries are one thing in two spellings. */
  lemma DecodeInvertsEncode(payload: Bytes, log: Log)
    ensures Decode(payload) == Some(log) <==> Encode(log) == Ok(payload)
  {
    if Encode(log).Ok? {
      DecodeOfEncode(log);
    }
    if Decode(payload).Some? {
      EncodeOfDecode(payload);
    }
  }

  lemma {:induction false} FramesAtLeast(log: Log)
    ensures PayloadBytes(log) >= DOMAIN_BYTES + 3 * |log|
  {
    if log != [] {
      FramesAtLeast(log[..|log| - 1]);
    }
  }

  /** The cap keeps every index far inside 32 bits, so no index of a log that encodes is cut short. */
  lemma IndicesFit(log: Log)
    requires EncodeError(log).None?
    ensures |log| < 0x1_0000_0000
  {
    FramesAtLeast(log);
  }

  /** A frame says where it ends, so two runs that agree on bytes agree on their first frame. */
  lemma FirstFrame(e: Entry, rest: Bytes, f: Entry, others: Bytes)
    requires Encodable(e) && Encodable(f) && Frame(e) + rest == Frame(f) + others
    ensures e == f && rest == others
  {
    ParseOfFrame(e, rest);
    ParseOfFrame(f, others);
  }

  /** So one run of frames starts another only where its entries do. */
  lemma {:induction false} FramesPrefix(a: Log, b: Log)
    requires AllEncodable(a) && AllEncodable(b)
    requires Frames(a) <= Frames(b)
    ensures a <= b
    decreases |a|
  {
    if a != [] {
      var tail := Frames(b)[|Frames(a)|..];
      PrefixAndRest(Frames(a), Frames(b));
      ConcatAssociates(Frame(a[0]), Frames(a[1..]), tail);
      assert |Frames(b)| >= |Frame(a[0])|;
      FirstFrame(a[0], Frames(a[1..]) + tail, b[0], Frames(b[1..]));
      FramesPrefix(a[1..], b[1..]);
    }
  }

  /** The store's byte test is the entry test: payloads extend one another exactly where logs do. */
  lemma PayloadPrefix(a: Log, b: Log)
    requires AllEncodable(a) && AllEncodable(b)
    ensures Payload(a) <= Payload(b) <==> a <= b
    ensures Payload(a) == Payload(b) <==> a == b
  {
    var n := DOMAIN_BYTES;
    assert Payload(a)[n..] == Frames(a) && Payload(b)[n..] == Frames(b);
    if Payload(a) <= Payload(b) {
      assert Frames(a) == Payload(b)[n..n + |Frames(a)|];
      FramesPrefix(a, b);
    }
    if a <= b {
      assert b == a + b[|a|..];
      FramesConcat(a, b[|a|..]);
    }
    if Payload(a) == Payload(b) {
      FramesPrefix(b, a);
    }
  }
}
