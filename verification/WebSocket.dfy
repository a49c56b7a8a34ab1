/** WebSocket framing of the DevTools client (syte/cdp_client.py), after sections 5.2, 5.3, 5.5.2
    and 5.5.3 of RFC 6455. */
module WebSocket {
  import opened Wrappers
  import opened ByteStream

  // Bytes are numbers below 256: taking the low four or seven bits is a remainder by 16 or 128,
  // testing the top bit is comparing with 128, and setting it in a smaller number is adding 128.

  // ----- numbers in frames

  /** `n.to_bytes(width, "big")` and `int.from_bytes(_, "big")`. */
  function ToBytes(n: nat, width: nat): (bs: seq<Byte>)
    ensures |bs| == width
  {
    if width == 0 then [] else ToBytes(n / 256, width - 1) + [n % 256]
  }

  function FromBytes(bs: seq<Byte>): nat {
    if bs == [] then 0 else FromBytes(bs[..|bs| - 1]) * 256 + bs[|bs| - 1]
  }

  function Power256(k: nat): nat {
    if k == 0 then 1 else 256 * Power256(k - 1)
  }

  lemma {:induction false} BytesRoundTrip(n: nat, width: nat)
    requires n < Power256(width)
    ensures FromBytes(ToBytes(n, width)) == n
  {
    if width > 0 {
      assert n / 256 < Power256(width - 1);
      BytesRoundTrip(n / 256, width - 1);
      assert ToBytes(n, width)[..width - 1] == ToBytes(n / 256, width - 1);
    }
  }

  // ----- masking

  /** Exclusive or of the low `bits` bits. */
  function Xor(a: nat, b: nat, bits: nat): nat {
    if bits == 0 then 0 else 2 * Xor(a / 2, b / 2, bits - 1) + if a % 2 == b % 2 then 0 else 1
  }

  lemma Halves(q: nat, bit: nat)
    requires bit < 2
    ensures (2 * q + bit) / 2 == q && (2 * q + bit) % 2 == bit
  {
  }

  lemma {:induction false} XorTwice(a: nat, m: nat, bits: nat)
    requires a < Power2(bits)
    ensures Xor(a, m, bits) < Power2(bits) && Xor(Xor(a, m, bits), m, bits) == a
  {
    if bits > 0 {
      XorTwice(a / 2, m / 2, bits - 1);
      Halves(Xor(a / 2, m / 2, bits - 1), if a % 2 == m % 2 then 0 else 1);
    }
  }

  function Power2(k: nat): nat {
    if k == 0 then 1 else 2 * Power2(k - 1)
  }

  function XorByte(a: Byte, m: Byte): Byte {
    assert Power2(4) == 16 && Power2(8) == 256;
    XorTwice(a, m, 8);
    Xor(a, m, 8)
  }

  function Masked(data: seq<Byte>, mask: seq<Byte>): (r: seq<Byte>)
    requires |mask| == 4
    ensures |r| == |data|
  {
    seq(|data|, i requires 0 <= i < |data| => XorByte(data[i], mask[i % 4]))
  }

  lemma MaskTwice(data: seq<Byte>, mask: seq<Byte>)
    requires |mask| == 4
    ensures Masked(Masked(data, mask), mask) == data
  {
    forall i | 0 <= i < |data|
      ensures Masked(Masked(data, mask), mask)[i] == data[i]
    {
      assert Power2(4) == 16 && Power2(8) == 256;
      XorTwice(data[i], mask[i % 4], 8);
    }
  }

  // ----- frames

  /** A whole frame: its first byte, its masking key if it has one, and its unmasked payload. */
  datatype Frame = Frame(first: Byte, mask: Option<seq<Byte>>, payload: seq<Byte>) {
    ghost predicate Valid() {
      && (mask.Some? ==> |mask.value| == 4)
      && |payload| < 0x1_0000_0000_0000_0000
    }

    function Opcode(): Byte {
      first % 16
    }
  }

  /** The shortest length field (section 5.2): a code in the second byte, and up to 8 more bytes. */
  function LengthCode(n: nat): (code: Byte)
    ensures code < 128
  {
    if n < 126 then n else if n < 65536 then 126 else 127
  }

  function LengthBytes(n: nat): seq<Byte> {
    if n < 126 then [] else if n < 65536 then ToBytes(n, 2) else ToBytes(n, 8)
  }

  /** The bytes of a frame. */
  function Encode(f: Frame): seq<Byte>
    requires f.Valid()
  {
    var bit := if f.mask.Some? then 0x80 else 0;
    var key := if f.mask.Some? then f.mask.value else [];
    var body := if f.mask.Some? then Masked(f.payload, f.mask.value) else f.payload;
    [f.first, bit + LengthCode(|f.payload|)] + (LengthBytes(|f.payload|) + (key + body))
  }

  datatype Decoded = Short | Got(opcode: Byte, payload: seq<Byte>, rest: seq<Byte>)

  /** How many bytes of extended length follow the second byte. */
  function ExtendedBytes(second: Byte): nat {
    if second % 128 == 126 then 2 else if second % 128 == 127 then 8 else 0
  }

  /** Split one frame off the front of the bytes; Short when they end too early. */
  function Decode(bs: seq<Byte>): (d: Decoded)
    ensures d.Got? ==> |d.rest| < |bs|
  {
    if |bs| < 2 then Short else
    var first, second, afterHead := bs[0], bs[1], bs[2..];
    var ext := ExtendedBytes(second);
    if |afterHead| < ext then Short else
    var n, afterLength := if ext == 0 then second % 128 else FromBytes(afterHead[..ext]), afterHead[ext..];
    var keySize := if second >= 128 then 4 else 0;
    if |afterLength| < keySize then Short else
    var key, afterKey := afterLength[..keySize], afterLength[keySize..];
    if |afterKey| < n then Short else
    Got(first % 16, if second >= 128 then Masked(afterKey[..n], key) else afterKey[..n], afterKey[n..])
  }

  lemma SmallPowers()
    ensures Power256(2) == 65536 && Power256(8) == 0x1_0000_0000_0000_0000
  {
    assert Power256(4) == 0x1_0000_0000;
  }

  lemma Front(front: seq<Byte>, back: seq<Byte>)
    ensures (front + back)[..|front|] == front && (front + back)[|front|..] == back
  {
  }

  /** A frame is found in the bytes when its fields are laid out one after the other. */
  lemma DecodeFields(head: seq<Byte>, length: seq<Byte>, key: seq<Byte>, body: seq<Byte>, rest: seq<Byte>)
    requires |head| == 2 && |length| == ExtendedBytes(head[1])
    requires |key| == if head[1] >= 128 then 4 else 0
    requires |body| == if length == [] then head[1] % 128 else FromBytes(length)
    ensures Decode(head + (length + (key + (body + rest))))
            == Got(head[0] % 16, if head[1] >= 128 then Masked(body, key) else body, rest)
  {
    var bs := head + (length + (key + (body + rest)));
    assert bs[0] == head[0] && bs[1] == head[1];
    Front(head, length + (key + (body + rest)));
    Front(length, key + (body + rest));
    Front(key, body + rest);
    Front(body, rest);
  }

  /** Every frame decodes to its opcode and payload, whatever its length and mask, and the stream
      is left exactly at the next frame. */
  lemma DecodeEncode(f: Frame, rest: seq<Byte>)
    requires f.Valid()
    ensures Decode(Encode(f) + rest) == Got(f.Opcode(), f.payload, rest)
  {
    var n := |f.payload|;
    var head := [f.first, (if f.mask.Some? then 0x80 else 0) + LengthCode(n)];
    var key := if f.mask.Some? then f.mask.value else [];
    var body := if f.mask.Some? then Masked(f.payload, f.mask.value) else f.payload;
    assert Encode(f) + rest == head + (LengthBytes(n) + (key + (body + rest)));
    LengthReadBack(n);
    DecodeFields(head, LengthBytes(n), key, body, rest);
    if f.mask.Some? {
      MaskTwice(f.payload, f.mask.value);
    }
  }

  lemma LengthReadBack(n: nat)
    requires n < 0x1_0000_0000_0000_0000
    ensures |LengthBytes(n)| == ExtendedBytes(LengthCode(n))
    ensures n == if LengthBytes(n) == [] then LengthCode(n) else FromBytes(LengthBytes(n))
  {
    SmallPowers();
    if n >= 126 {
      BytesRoundTrip(n, |LengthBytes(n)|);
    }
  }

  // ----- the bytes of a frame, one by one

  /** Bit k of a number. */
  function Bit(b: nat, k: nat): nat {
    if k == 0 then b % 2 else Bit(b / 2, k - 1)
  }

  /** Digit j of a number to the base 256, from the lowest. */
  function Digit256(n: nat, j: nat): nat {
    if j == 0 then n % 256 else Digit256(n / 256, j - 1)
  }

  lemma {:induction false} ToBytesDigits(n: nat, width: nat, i: nat)
    requires i < width
    ensures ToBytes(n, width)[i] == Digit256(n, width - 1 - i)
  {
    if i < width - 1 {
      ToBytesDigits(n / 256, width - 1, i);
    }
  }

  lemma {:induction false} XorBits(a: nat, m: nat, bits: nat, k: nat)
    requires k < bits
    ensures Bit(Xor(a, m, bits), k) == (Bit(a, k) + Bit(m, k)) % 2
  {
    var bit := if a % 2 == m % 2 then 0 else 1;
    Halves(Xor(a / 2, m / 2, bits - 1), bit);
    if k > 0 {
      XorBits(a / 2, m / 2, bits - 1, k - 1);
    }
  }

  /** Every bit of a masked byte is the sum modulo 2 of that bit of the byte and of the key's byte at its
      place modulo 4. */
  ghost predicate MaskedWith(masked: seq<Byte>, data: seq<Byte>, mask: seq<Byte>)
    requires |mask| == 4
  {
    && |masked| == |data|
    && forall i, k :: 0 <= i < |data| && 0 <= k < 8 ==>
         Bit(masked[i], k) == (Bit(data[i], k) + Bit(mask[i % 4], k)) % 2
  }

  lemma MaskedBits(data: seq<Byte>, mask: seq<Byte>)
    requires |mask| == 4
    ensures MaskedWith(Masked(data, mask), data, mask)
  {
    forall i, k | 0 <= i < |data| && 0 <= k < 8
      ensures Bit(Masked(data, mask)[i], k) == (Bit(data[i], k) + Bit(mask[i % 4], k)) % 2
    {
      XorBits(data[i], mask[i % 4], 8, k);
    }
  }

  /** The layout of a frame (section 5.2): the first byte; the mask bit and the length, or a code for it;
      the length in network order, if it did not fit; the key, if there is one; the payload. */
  ghost predicate LaidOut(bs: seq<Byte>, first: Byte, mask: Option<seq<Byte>>, data: seq<Byte>)
    requires mask.Some? ==> |mask.value| == 4
  {
    var n := |data|;
    var ext := if n < 126 then 0 else if n < 65536 then 2 else 8;
    var key := if mask.Some? then 4 else 0;
    && |bs| == 2 + ext + key + n
    && bs[0] == first
    && bs[1] == (if mask.Some? then 128 else 0) + (if n < 126 then n else if n < 65536 then 126 else 127)
    && (forall j :: 2 <= j < 2 + ext ==> bs[j] == Digit256(n, ext + 1 - j))
    && (mask.Some? ==> bs[2 + ext..6 + ext] == mask.value && MaskedWith(bs[6 + ext..], data, mask.value))
    && (mask.None? ==> bs[2 + ext..] == data)
  }

  lemma LengthDigits(n: nat)
    ensures var ext := if n < 126 then 0 else if n < 65536 then 2 else 8;
      && |LengthBytes(n)| == ext
      && forall j :: 0 <= j < ext ==> LengthBytes(n)[j] == Digit256(n, ext - 1 - j)
  {
    var ext := if n < 126 then 0 else if n < 65536 then 2 else 8;
    forall j | 0 <= j < ext
      ensures LengthBytes(n)[j] == Digit256(n, ext - 1 - j)
    {
      ToBytesDigits(n, ext, j);
    }
  }

  lemma Middle(head: seq<Byte>, length: seq<Byte>, key: seq<Byte>, body: seq<Byte>)
    requires |head| == 2
    ensures var bs := head + (length + (key + body));
      && |bs| == 2 + |length| + |key| + |body| && bs[0] == head[0] && bs[1] == head[1]
      && (forall j :: 2 <= j < 2 + |length| ==> bs[j] == length[j - 2])
      && bs[2 + |length|..2 + |length| + |key|] == key && bs[2 + |length| + |key|..] == body
  {
    var bs := head + (length + (key + body));
    Front(head, length + (key + body));
    Front(length, key + body);
    Front(key, body);
    assert bs[2..] == length + (key + body);
    assert bs[2 + |length|..] == (length + (key + body))[|length|..];
    assert bs[2 + |length|..2 + |length| + |key|] == (key + body)[..|key|];
    assert bs[2 + |length| + |key|..] == (key + body)[|key|..];
  }

  lemma EncodedIsLaidOut(f: Frame)
    requires f.Valid()
    ensures LaidOut(Encode(f), f.first, f.mask, f.payload)
  {
    var n := |f.payload|;
    LengthDigits(n);
    var head := [f.first, (if f.mask.Some? then 0x80 else 0) + LengthCode(n)];
    if f.mask.Some? {
      MaskedBits(f.payload, f.mask.value);
      Middle(head, LengthBytes(n), f.mask.value, Masked(f.payload, f.mask.value));
    } else {
      Middle(head, LengthBytes(n), [], f.payload);
      assert [] + f.payload == f.payload;
    }
  }

  // ----- what recv_json makes of a byte stream

  /** recv_json returns None, returns a dict ({} unless a text payload parses), or raises. */
  datatype Received = Nothing | NotText | Text(payload: seq<Byte>) | ConnectionError | ValueError

  datatype Reply = Reply(received: Received, rest: seq<Byte>, sent: seq<Byte>)

  /** The pong that is sent for a ping; its length has to fit one byte. */
  function Pong(payload: seq<Byte>): seq<Byte>
    requires |payload| < 256
  {
    [0x8A, |payload|] + payload
  }

  function Classify(opcode: Byte, payload: seq<Byte>): Received {
    if opcode == 0x8 then Nothing else if opcode != 0x1 then NotText else Text(payload)
  }

  /** recv_json as a function of the bytes alone. */
  function Receive(bs: seq<Byte>): Reply
    decreases |bs|, 0
  {
    match Decode(bs)
    case Short => Reply(if |bs| < 2 then Nothing else ConnectionError, [], [])
    case Got(opcode, payload, rest) => Answer(opcode, payload, rest)
  }

  /** What it does about one frame: a ping is answered and the next frame is read. */
  function Answer(opcode: Byte, payload: seq<Byte>, rest: seq<Byte>): Reply
    decreases |rest|, 1
  {
    if opcode != 0x9 then Reply(Classify(opcode, payload), rest, [])
    else if |payload| >= 256 then Reply(ValueError, rest, [])
    else
      var later := Receive(rest);
      later.(sent := Pong(payload) + later.sent)
  }

  function EncodeAll(fs: seq<Frame>): seq<Byte>
    requires forall i :: 0 <= i < |fs| ==> fs[i].Valid()
  {
    if fs == [] then [] else Encode(fs[0]) + EncodeAll(fs[1..])
  }

  ghost predicate ShortPings(fs: seq<Frame>) {
    forall i :: 0 <= i < |fs| ==> fs[i].Valid() && fs[i].Opcode() == 0x9 && |fs[i].payload| < 256
  }

  function Pongs(fs: seq<Frame>): seq<Byte>
    requires ShortPings(fs)
  {
    if fs == [] then [] else Pong(fs[0].payload) + Pongs(fs[1..])
  }

  /** On a stream of unfragmented frames recv_json skips the pings, echoes each of them in order,
      returns what the first other frame says, and leaves the stream exactly after that frame. */
  lemma {:induction false} ReceiveSkipsPings(pings: seq<Frame>, f: Frame, rest: seq<Byte>)
    requires ShortPings(pings) && f.Valid() && f.Opcode() != 0x9
    ensures Receive(EncodeAll(pings) + (Encode(f) + rest)) == Reply(Classify(f.Opcode(), f.payload), rest, Pongs(pings))
  {
    if pings == [] {
      assert EncodeAll(pings) + (Encode(f) + rest) == Encode(f) + rest;
      DecodeEncode(f, rest);
    } else {
      var tail := EncodeAll(pings[1..]) + (Encode(f) + rest);
      assert EncodeAll(pings) + (Encode(f) + rest) == Encode(pings[0]) + tail;
      DecodeEncode(pings[0], tail);
      ReceiveSkipsPings(pings[1..], f, rest);
    }
  }

  /** Whatever is decoded, its parts make up the bytes. */
  lemma DecodedParts(bs: seq<Byte>)
    requires Decode(bs).Got?
    ensures |bs| >= 2
    ensures |bs| == 2 + ExtendedBytes(bs[1]) + (if bs[1] >= 128 then 4 else 0) + |Decode(bs).payload|
        + |Decode(bs).rest|
  {
  }

  /** A pong is a whole frame with the ping's payload exactly when the ping kept to the limit of
      125 bytes that section 5.5 sets for control frames. */
  lemma PongWellFormedIff(payload: seq<Byte>)
    requires |payload| < 256
    ensures Decode(Pong(payload)) == Got(0xA, payload, []) <==> |payload| <= 125
  {
    if |payload| <= 125 {
      PongDecodes(payload);
    } else if Decode(Pong(payload)).Got? {
      DecodedParts(Pong(payload));
    }
  }

  lemma PongDecodes(payload: seq<Byte>)
    requires |payload| <= 125
    ensures Decode(Pong(payload)) == Got(0xA, payload, [])
  {
    NothingBetween([0x8A, |payload|], payload);
    DecodeFields([0x8A, |payload|], [], [], payload, []);
  }

  lemma NothingBetween(head: seq<Byte>, payload: seq<Byte>)
    ensures head + payload == head + ([] + ([] + (payload + [])))
  {
  }

  /** What is done about a frame goes by the low half of its first byte: 1 is text, 8 ends the
      connection, and anything else but a ping is no text. */
  lemma AnsweredByOpcode(f: Frame, rest: seq<Byte>)
    requires f.Valid() && f.first % 16 != 9
    ensures var low := f.first % 16;
      Receive(Encode(f) + rest) ==
        Reply(if low == 1 then Text(f.payload) else if low == 8 then Nothing else NotText, rest, [])
  {
    ReceiveAnswers(f, rest);
    AnswerIs(f.first % 16, f.payload, rest);
  }

  lemma ReceiveAnswers(f: Frame, rest: seq<Byte>)
    requires f.Valid()
    ensures Receive(Encode(f) + rest) == Answer(f.Opcode(), f.payload, rest)
  {
    DecodeEncode(f, rest);
  }

  lemma AnswerIs(low: Byte, payload: seq<Byte>, rest: seq<Byte>)
    requires low != 9
    ensures Answer(low, payload, rest) ==
      Reply(if low == 1 then Text(payload) else if low == 8 then Nothing else NotText, rest, [])
  {
  }

  /** A pong is sent without a mask, though section 5.3 asks a client for one; from 128 bytes on its
      length is taken for the mask bit. */
  lemma PongIsUnmaskedIff(payload: seq<Byte>)
    requires |payload| < 256
    ensures Pong(payload)[1] < 128 <==> |payload| < 128
    ensures |payload| <= 125 ==> Pong(payload) == Encode(Frame(0x8A, None, payload))
  {
  }

  /** A ping of 256 bytes or more raises ValueError, after its frame has been taken off the stream and
      without an answer. */
  lemma LongPingRaises(f: Frame, rest: seq<Byte>)
    requires f.Valid() && f.Opcode() == 0x9 && |f.payload| >= 256
    ensures Receive(Encode(f) + rest) == Reply(ValueError, rest, [])
  {
    DecodeEncode(f, rest);
  }

  // ----- the client

  class Client {
    const incoming: Source
    var outgoing: seq<Byte>

    constructor (incoming: Source)
      ensures this.incoming == incoming && outgoing == []
    {
      this.incoming, outgoing := incoming, [];
    }

    /** `_recv_exact`: however the system splits the bytes, the result is the next n of them; when
        they run out everything has been consumed. */
    method RecvExact(n: nat) returns (r: Option<seq<Byte>>)
      modifies incoming
      ensures r.Some? <==> n <= |old(incoming.rest)|
      ensures r.Some? ==> r.value == old(incoming.rest)[..n] && incoming.rest == old(incoming.rest)[n..]
      ensures r.None? ==> incoming.rest == []
    {
      var buf: seq<Byte> := [];
      while |buf| < n
        invariant |buf| <= n && buf + incoming.rest == old(incoming.rest)
        decreases n - |buf|
      {
        var chunk := incoming.Recv(n - |buf|);
        if chunk == [] {
          return None;
        }
        buf := buf + chunk;
      }
      return Some(buf);
    }

    /** `send_json` on the bytes of the JSON text, with the random masking key given. */
    method SendText(data: seq<Byte>, mask: seq<Byte>)
      requires |mask| == 4 && |data| < 0x1_0000_0000_0000_0000
      modifies this
      ensures outgoing == old(outgoing) + Encode(Frame(0x81, Some(mask), data))
      ensures LaidOut(outgoing[|old(outgoing)|..], 0x81, Some(mask), data)
    {
      var header: seq<Byte> := [0x81];
      var n := |data|;
      if n < 126 {
        header := header + [0x80 + n];
      } else if n < 65536 {
        header := header + [0x80 + 126];
        header := header + ToBytes(n, 2);
      } else {
        header := header + [0x80 + 127];
        header := header + ToBytes(n, 8);
      }
      header := header + mask;
      var masked := Masked(data, mask);
      assert header + masked == [0x81, 0x80 + LengthCode(n)] + (LengthBytes(n) + (mask + masked));
      EncodedIsLaidOut(Frame(0x81, Some(mask), data));
      ghost var before := outgoing;
      outgoing := outgoing + (header + masked);
      assert outgoing[|before|..] == header + masked;
    }

    /** The part of `recv_json` that takes one frame off the stream. */
    method RecvFrame() returns (head: Option<seq<Byte>>, payload: Option<seq<Byte>>)
      modifies incoming
      ensures head.None? <==> |old(incoming.rest)| < 2
      ensures payload.Some? ==>
        && head.Some? && |head.value| == 2
        && Decode(old(incoming.rest)) == Got(head.value[0] % 16, payload.value, incoming.rest)
      ensures payload.None? ==> Decode(old(incoming.rest)).Short? && incoming.rest == []
    {
      payload := None;
      head := RecvExact(2);
      if head.None? {
        return;
      }
      var length := head.value[1] % 128;
      var extended: seq<Byte> := [];
      if length == 126 || length == 127 {
        var r := RecvExact(if length == 126 then 2 else 8);
        if r.None? {
          return;
        }
        extended := r.value;
        length := FromBytes(extended);
      }
      var masked := head.value[1] >= 128;
      var mask: seq<Byte> := [];
      if masked {
        var r := RecvExact(4);
        if r.None? {
          return;
        }
        mask := r.value;
      }
      var body := RecvExact(length);
      if body.None? {
        return;
      }
      payload := Some(if masked then Masked(body.value, mask) else body.value);
    }

    /** `recv_json`: what is returned, what is left of the stream and what is sent depend on the
        bytes alone, not on how they arrive; and the recursion on pings ends. */
    method RecvJson() returns (r: Received)
      modifies this, incoming
      ensures var reply := Receive(old(incoming.rest));
        r == reply.received && incoming.rest == reply.rest && outgoing == old(outgoing) + reply.sent
      decreases |incoming.rest|, 0
    {
      ghost var bs := incoming.rest;
      var head, frame := RecvFrame();
      if head.None? {
        return Nothing;
      }
      if frame.None? {
        return ConnectionError;
      }
      assert Receive(bs) == Answer(head.value[0] % 16, frame.value, incoming.rest);
      r := HandleFrame(head.value[0] % 16, frame.value);
    }

    /** The part of `recv_json` after a whole frame has been taken off the stream. */
    method HandleFrame(opcode: Byte, payload: seq<Byte>) returns (r: Received)
      modifies this, incoming
      ensures var reply := Answer(opcode, payload, old(incoming.rest));
        r == reply.received && incoming.rest == reply.rest && outgoing == old(outgoing) + reply.sent
      ensures opcode == 0x1 ==> r == Text(payload)
      ensures opcode == 0x8 ==> r == Nothing
      ensures opcode == 0x9 && |payload| < 256 ==> old(outgoing) + ([0x8A, |payload|] + payload) <= outgoing
      decreases |incoming.rest|, 1
    {
      if opcode == 0x8 {
        return Nothing;
      }
      if opcode == 0x9 {
        if |payload| >= 256 {
          return ValueError;
        }
        ghost var later := Receive(incoming.rest);
        outgoing := outgoing + Pong(payload);
        r := RecvJson();
        assert outgoing == old(outgoing) + (Pong(payload) + later.sent);
        return;
      }
      if opcode != 0x1 {
        return NotText;
      }
      return Text(payload);
    }
  }
}
