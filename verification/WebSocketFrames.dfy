/** WebSocket frames (sections 5.2 and 5.3 of RFC 6455) as the transport exerciser
    sends and reads them over a stream that arrives in arbitrary chunks. */
module WebSocketFrames {
  import opened Bytes
  import opened Wrappers

  const PAYLOAD_LIMIT: nat := 16 * 1024 * 1024

  datatype Fault = PayloadTooLarge | ByteOutOfRange | PeerClosed | FrameTooLarge

  type Key = k: seq<Byte> | |k| == 4 witness [0, 0, 0, 0]

  datatype Frame = Frame(opcode: int, payload: seq<Byte>, mask: Option<Key>)

  datatype Decoded = Decoded(opcode: Byte, payload: seq<Byte>, rest: seq<Byte>)

  // ---- Masking -----------------------------------------------------------

  /** Exclusive or of the lowest `bits` bits. */
  function XorBits(a: nat, b: nat, bits: nat): (x: nat) {
    if bits == 0 then 0 else (a + b) % 2 + 2 * XorBits(a / 2, b / 2, bits - 1)
  }

  function Pow2(bits: nat): (p: nat)
    ensures p >= 1
  {
    if bits == 0 then 1 else 2 * Pow2(bits - 1)
  }

  lemma {:induction false} XorIsAByte(a: nat, b: nat, bits: nat)
    ensures XorBits(a, b, bits) < Pow2(bits)
  {
    if bits > 0 {
      XorIsAByte(a / 2, b / 2, bits - 1);
    }
  }

  lemma {:induction false} HalvesOfXor(a: nat, b: nat, bits: nat)
    requires bits > 0
    ensures XorBits(a, b, bits) % 2 == (a + b) % 2 && XorBits(a, b, bits) / 2 == XorBits(a / 2, b / 2, bits - 1)
  {
  }

  lemma {:induction false} Parity(a: nat, b: nat, x: nat)
    requires x % 2 == (a + b) % 2
    ensures (x + b) % 2 == a % 2
  {
  }

  lemma {:induction false} XorTwice(a: nat, b: nat, bits: nat)
    requires a < Pow2(bits)
    ensures XorBits(XorBits(a, b, bits), b, bits) == a
  {
    if bits > 0 {
      XorTwice(a / 2, b / 2, bits - 1);
      HalvesOfXor(a, b, bits);
      XorOfHalves(a, b, XorBits(a, b, bits), bits);
    }
  }

  lemma {:induction false} XorOfHalves(a: nat, b: nat, x: nat, bits: nat)
    requires bits > 0 && x % 2 == (a + b) % 2 && XorBits(x / 2, b / 2, bits - 1) == a / 2
    ensures XorBits(x, b, bits) == a
  {
    Parity(a, b, x);
  }

  lemma {:induction false} EightBits()
    ensures Pow2(8) == 256
  {
    assert Pow2(4) == 16;
  }

  function Xor(a: Byte, b: Byte): Byte {
    EightBits();
    XorIsAByte(a, b, 8);
    XorBits(a, b, 8)
  }

  /** `value ^ mask_key[index % 4]` for every payload byte. */
  function Masked(payload: seq<Byte>, key: Key): (r: seq<Byte>)
    ensures |r| == |payload|
  {
    seq(|payload|, i requires 0 <= i < |payload| => Xor(payload[i], key[i % 4]))
  }

  lemma {:induction false} MaskingTwice(payload: seq<Byte>, key: Key)
    ensures Masked(Masked(payload, key), key) == payload
  {
    forall i | 0 <= i < |payload| ensures Masked(Masked(payload, key), key)[i] == payload[i] {
      EightBits();
      XorTwice(payload[i], key[i % 4], 8);
    }
  }

  // ---- Encoding ----------------------------------------------------------

  /** `0x80 | value` for a byte. */
  function WithHighBit(value: Byte): (r: Byte)
    ensures r >= 128 && r % 128 == value % 128
  {
    if value < 128 then value + 128 else value
  }

  function Second(masked: bool, length: nat): Byte
    requires length < 128
  {
    if masked then WithHighBit(length) else length
  }

  /** The length field and its extension. */
  function LengthField(masked: bool, length: nat): seq<Byte> {
    if length < 126 then [Second(masked, length)]
    else if length <= 0xFFFF then [Second(masked, 126)] + BigEndian(length, 2)
    else [Second(masked, 127)] + BigEndian(length, 8)
  }

  function Body(frame: Frame): seq<Byte> {
    if frame.mask.Some? then frame.mask.value + Masked(frame.payload, frame.mask.value) else frame.payload
  }

  /** The bytes `_send_frame` puts on the stream. */
  function Encode(frame: Frame): (r: Result<seq<Byte>, Fault>)
    ensures r.Ok? <==> |frame.payload| <= PAYLOAD_LIMIT && 0 <= frame.opcode < 256
  {
    if |frame.payload| > PAYLOAD_LIMIT then Err(PayloadTooLarge)
    else if !(0 <= frame.opcode < 256) then Err(ByteOutOfRange)
    else Ok([WithHighBit(frame.opcode)] + LengthField(frame.mask.Some?, |frame.payload|) + Body(frame))
  }

  // ---- What the bytes are ------------------------------------------------

  /** Bit `k` of a number. */
  predicate Bit(n: nat, k: nat) {
    n / Pow2(k) % 2 == 1
  }

  lemma {:induction false} XorBit(a: nat, b: nat, bits: nat, k: nat)
    requires k < bits
    ensures Bit(XorBits(a, b, bits), k) <==> Bit(a, k) != Bit(b, k)
  {
    HalvesOfXor(a, b, bits);
    if k == 0 {
      LowestBit(a, b, XorBits(a, b, bits));
    } else {
      XorBit(a / 2, b / 2, bits - 1, k - 1);
      Halving(a, k);
      Halving(b, k);
      Halving(XorBits(a, b, bits), k);
    }
  }

  lemma {:induction false} LowestBit(a: nat, b: nat, x: nat)
    requires x % 2 == (a + b) % 2
    ensures Bit(x, 0) <==> Bit(a, 0) != Bit(b, 0)
  {
    assert Pow2(0) == 1;
  }

  lemma {:induction false} Halving(n: nat, k: nat)
    requires k > 0
    ensures Bit(n, k) <==> Bit(n / 2, k - 1)
  {
    var p := Pow2(k - 1);
    var q := n / 2 / p;
    assert n / 2 == q * p + n / 2 % p;
    Quotient(n, 2 * p, q, 2 * (n / 2 % p) + n % 2);
  }

  /** The length of a payload as the second byte and its extension carry it. */
  predicate CarriesLength(field: seq<Byte>, masked: bool, length: nat) {
    var mark := if masked then 128 else 0;
    if length < 126 then field == [mark + length]
    else if length <= 0xFFFF then field == [mark + 126, length / 256, length % 256]
    else |field| == 9 && field[0] == mark + 127 && forall i | 1 <= i < 9 :: field[i] == length / Pow256(8 - i) % 256
  }

  /** The layout of section 5.2: the final-fragment bit with the opcode, the mask bit
      with the length in the network's byte order, the key, and the payload, each byte
      of it combined with byte `i` modulo four of the key. */
  lemma {:induction false} FrameLayout(frame: Frame) returns (field: seq<Byte>, body: seq<Byte>)
    requires Encode(frame).Ok? && frame.opcode < 128
    ensures Encode(frame).value ==
              [128 + frame.opcode] + field + (if frame.mask.Some? then frame.mask.value else []) + body
    ensures CarriesLength(field, frame.mask.Some?, |frame.payload|) && |body| == |frame.payload|
    ensures frame.mask.None? ==> body == frame.payload
    ensures frame.mask.Some? ==>
              forall i, k | 0 <= i < |body| && 0 <= k < 8 ::
                Bit(body[i], k) <==> Bit(frame.payload[i], k) != Bit(frame.mask.value[i % 4], k)
  {
    field := LengthField(frame.mask.Some?, |frame.payload|);
    body := if frame.mask.Some? then Masked(frame.payload, frame.mask.value) else frame.payload;
    FieldCarriesLength(frame.mask.Some?, |frame.payload|);
    if frame.mask.Some? {
      MaskedBits(frame.payload, frame.mask.value);
    }
  }

  lemma {:induction false} MaskedBits(payload: seq<Byte>, key: Key)
    ensures forall i, k | 0 <= i < |payload| && 0 <= k < 8 ::
              Bit(Masked(payload, key)[i], k) <==> Bit(payload[i], k) != Bit(key[i % 4], k)
  {
    forall i, k | 0 <= i < |payload| && 0 <= k < 8
      ensures Bit(Masked(payload, key)[i], k) <==> Bit(payload[i], k) != Bit(key[i % 4], k)
    {
      XorBit(payload[i], key[i % 4], 8, k);
    }
  }

  lemma {:induction false} FieldCarriesLength(masked: bool, length: nat)
    requires length <= PAYLOAD_LIMIT
    ensures CarriesLength(LengthField(masked, length), masked, length)
  {
    if 126 <= length <= 0xFFFF {
      BigEndianByte(length, 2, 0);
      BigEndianByte(length, 2, 1);
    } else if length > 0xFFFF {
      forall i: nat | i < 8 ensures BigEndian(length, 8)[i] == length / Pow256(7 - i) % 256 {
        BigEndianByte(length, 8, i);
      }
    }
  }

  // ---- Decoding ----------------------------------------------------------

  function ExtensionBytes(second: Byte): nat {
    if second % 128 == 126 then 2 else if second % 128 == 127 then 8 else 0
  }

  function Length(second: Byte, extension: seq<Byte>): nat {
    if ExtensionBytes(second) == 0 then second % 128 else Value(extension)
  }

  /** What the first bytes of a frame say, and how many they are. */
  datatype Header = Header(opcode: Byte, masked: bool, length: nat, bytes: nat)

  function DecodeHeader(stream: seq<Byte>): (r: Result<Header, Fault>)
    ensures r.Ok? ==> 2 <= r.value.bytes <= |stream| && r.value.opcode < 16
    ensures r.Err? ==> r.error == PeerClosed
  {
    if |stream| < 2 || |stream| < 2 + ExtensionBytes(stream[1]) then Err(PeerClosed)
    else
      var bytes := 2 + ExtensionBytes(stream[1]);
      Ok(Header(stream[0] % 16, stream[1] >= 128, Length(stream[1], stream[2..bytes]), bytes))
  }

  /** The key and the payload that follow a header. */
  function DecodeBody(header: Header, stream: seq<Byte>): (r: Result<Decoded, Fault>)
    requires header.opcode < 16
    ensures r.Ok? ==> |r.value.rest| <= |stream| && |r.value.payload| == header.length && r.value.opcode < 16
  {
    var key := if header.masked then 4 else 0;
    if |stream| < key + header.length then Err(PeerClosed)
    else
      var payload := stream[key..key + header.length];
      Ok(Decoded(header.opcode, if header.masked then Masked(payload, stream[..4]) else payload,
                 stream[key + header.length..]))
  }

  /** `_read_frame` on everything that will still arrive. */
  function Decode(stream: seq<Byte>): (r: Result<Decoded, Fault>)
    ensures r.Ok? ==> |r.value.rest| < |stream| && |r.value.payload| <= PAYLOAD_LIMIT && r.value.opcode < 16
  {
    var header := DecodeHeader(stream);
    if header.Err? then Err(header.error)
    else if header.value.length > PAYLOAD_LIMIT then Err(FrameTooLarge)
    else DecodeBody(header.value, stream[header.value.bytes..])
  }

  // ---- One frame there and back ------------------------------------------

  lemma {:induction false} SmallPowers()
    ensures Pow256(2) == 0x1_0000 && Pow256(8) == 0x1_0000_0000_0000_0000
  {
    LengthPrefixRange();
  }

  /** The length field reads back as the length it was written for. */
  lemma {:induction false} LengthRoundTrip(masked: bool, length: nat)
    requires length <= PAYLOAD_LIMIT
    ensures
      var field := LengthField(masked, length);
      && |field| >= 1 && |field| == 1 + ExtensionBytes(field[0])
      && Length(field[0], field[1..]) == length && (field[0] >= 128 <==> masked)
  {
    SmallPowers();
    var field := LengthField(masked, length);
    if 126 <= length <= 0xFFFF {
      BigEndianRoundTrip(length, 2);
      assert field[1..] == BigEndian(length, 2);
    } else if length > 0xFFFF {
      BigEndianRoundTrip(length, 8);
      assert field[1..] == BigEndian(length, 8);
    }
  }

  /** A decodable stream, taken apart: first byte, length field, key, payload, rest. */
  lemma {:induction false} DecodeParts(first: Byte, field: seq<Byte>, key: seq<Byte>, payload: seq<Byte>,
                                       rest: seq<Byte>)
    requires |field| >= 1 && |field| == 1 + ExtensionBytes(field[0])
    requires Length(field[0], field[1..]) == |payload| <= PAYLOAD_LIMIT && |key| == if field[0] >= 128 then 4 else 0
    ensures Decode([first] + field + (key + payload) + rest) ==
            Ok(Decoded(first % 16, if |key| == 4 then Masked(payload, key) else payload, rest))
  {
    var stream, tail := [first] + field + (key + payload) + rest, key + payload + rest;
    HeaderSlices(first, field, tail, stream);
    BodySlices(key, payload, rest, tail);
    assert DecodeHeader(stream) == Ok(Header(first % 16, field[0] >= 128, |payload|, 1 + |field|));
  }

  lemma {:induction false} HeaderSlices(first: Byte, field: seq<Byte>, tail: seq<Byte>, stream: seq<Byte>)
    requires |field| >= 1 && |stream| == 1 + |field| + |tail| && stream == [first] + field + tail
    ensures stream[0] == first && stream[1] == field[0]
    ensures stream[2..1 + |field|] == field[1..] && stream[1 + |field|..] == tail
  {
  }

  lemma {:induction false} BodySlices(key: seq<Byte>, payload: seq<Byte>, rest: seq<Byte>, tail: seq<Byte>)
    requires tail == key + payload + rest
    ensures tail[..|key|] == key && tail[|key|..|key| + |payload|] == payload && tail[|key| + |payload|..] == rest
  {
  }

  /** Reading what was sent gives the payload back, under any mask key and with
      anything following on the stream; the opcode comes back if and only if it
      fits the four bits that carry it. */
  lemma {:induction false} FrameRoundTrip(frame: Frame, rest: seq<Byte>)
    requires Encode(frame).Ok?
    ensures Decode(Encode(frame).value + rest) == Ok(Decoded(frame.opcode % 16, frame.payload, rest))
    ensures Decode(Encode(frame).value + rest).value.opcode == frame.opcode <==> frame.opcode < 16
  {
    var first := WithHighBit(frame.opcode);
    var field := LengthField(frame.mask.Some?, |frame.payload|);
    LengthRoundTrip(frame.mask.Some?, |frame.payload|);
    if frame.mask.Some? {
      var key := frame.mask.value;
      DecodeParts(first, field, key, Masked(frame.payload, key), rest);
      MaskingTwice(frame.payload, key);
    } else {
      DecodeParts(first, field, [], frame.payload, rest);
      assert [] + frame.payload == frame.payload;
    }
    HighBitKeepsTheOpcode(frame.opcode);
  }

  lemma {:induction false} HighBitKeepsTheOpcode(opcode: Byte)
    ensures WithHighBit(opcode) % 16 == opcode % 16
  {
  }

  // ---- A conversation ----------------------------------------------------

  /** All the bytes of a sequence of frames. */
  function EncodeAll(frames: seq<Frame>): Result<seq<Byte>, Fault> {
    if frames == [] then Ok([])
    else
      var first, others := Encode(frames[0]), EncodeAll(frames[1..]);
      if first.Err? then first else if others.Err? then others else Ok(first.value + others.value)
  }

  /** The first `n` frames of a stream. */
  function DecodeAll(stream: seq<Byte>, n: nat): Result<seq<(Byte, seq<Byte>)>, Fault> {
    if n == 0 then Ok([])
    else
      var first := Decode(stream);
      if first.Err? then Err(first.error)
      else
        var others := DecodeAll(first.value.rest, n - 1);
        if others.Err? then others else Ok([(first.value.opcode, first.value.payload)] + others.value)
  }

  function Contents(frames: seq<Frame>): seq<(Byte, seq<Byte>)>
    requires forall i | 0 <= i < |frames| :: 0 <= frames[i].opcode < 16
  {
    if frames == [] then [] else [(frames[0].opcode, frames[0].payload)] + Contents(frames[1..])
  }

  ghost predicate Sendable(frames: seq<Frame>) {
    forall i | 0 <= i < |frames| :: 0 <= frames[i].opcode < 16 && |frames[i].payload| <= PAYLOAD_LIMIT
  }

  lemma {:induction false} SendableEncodes(frames: seq<Frame>)
    requires Sendable(frames)
    ensures EncodeAll(frames).Ok?
  {
    if frames != [] {
      SendableEncodes(frames[1..]);
    }
  }

  /** The first frame's bytes and the bytes of the others. */
  lemma {:induction false} FirstBytes(frames: seq<Frame>) returns (first: seq<Byte>, others: seq<Byte>)
    requires frames != [] && EncodeAll(frames).Ok?
    ensures Encode(frames[0]) == Ok(first) && EncodeAll(frames[1..]) == Ok(others)
    ensures EncodeAll(frames).value == first + others
  {
    first, others := Encode(frames[0]).value, EncodeAll(frames[1..]).value;
  }

  /** Any sequence of frames decodes to the same opcodes and payloads, each frame
      taking exactly its own bytes. */
  lemma {:induction false} ConversationRoundTrip(frames: seq<Frame>, rest: seq<Byte>)
    requires Sendable(frames)
    ensures EncodeAll(frames).Ok?
    ensures DecodeAll(EncodeAll(frames).value + rest, |frames|) == Ok(Contents(frames))
  {
    SendableEncodes(frames);
    if frames != [] {
      var first, others := FirstBytes(frames);
      ConversationRoundTrip(frames[1..], rest);
      FirstOfConversation(frames[0], first, others + rest, |frames|, Contents(frames[1..]));
      Regroup(first, others, rest);
    }
  }

  lemma {:induction false} Regroup(a: seq<Byte>, b: seq<Byte>, c: seq<Byte>)
    ensures a + b + c == a + (b + c)
  {
  }

  lemma {:induction false} FirstOfConversation(frame: Frame, first: seq<Byte>, stream: seq<Byte>, n: nat,
                                               others: seq<(Byte, seq<Byte>)>)
    requires 0 <= frame.opcode < 16 && Encode(frame) == Ok(first)
    requires n > 0 && DecodeAll(stream, n - 1) == Ok(others)
    ensures DecodeAll(first + stream, n) == Ok([(frame.opcode, frame.payload)] + others)
  {
    FrameRoundTrip(frame, stream);
    DecodeNext(first + stream, Decoded(frame.opcode, frame.payload, stream), n, others);
  }

  lemma {:induction false} DecodeNext(stream: seq<Byte>, first: Decoded, n: nat, others: seq<(Byte, seq<Byte>)>)
    requires n > 0 && Decode(stream) == Ok(first) && DecodeAll(first.rest, n - 1) == Ok(others)
    ensures DecodeAll(stream, n) == Ok([(first.opcode, first.payload)] + others)
  {
  }

  // ---- The shortest form -------------------------------------------------

  lemma {:induction false} TwoByteValues(bytes: seq<Byte>)
    requires |bytes| == 2
    ensures Value(bytes) <= 0xFFFF
  {
    var high := bytes[..1];
    assert high[..0] == [] && Value(high) == 256 * Value(high[..0]) + high[0];
    assert Value(bytes) == 256 * Value(high) + bytes[1];
  }

  /** No frame that carries the same payload with or without a mask is shorter than
      the encoder's: whatever bytes decode to it, to their last byte, are at least
      as many. */
  lemma {:induction false} EncoderPicksTheShortest(frame: Frame, other: seq<Byte>)
    requires Encode(frame).Ok? && Decode(other).Ok? && Decode(other).value.rest == []
    requires Decode(other).value.payload == frame.payload && (other[1] >= 128 <==> frame.mask.Some?)
    ensures |Encode(frame).value| <= |other|
  {
    var header := DecodeHeader(other).value;
    assert |other| == header.bytes + (if header.masked then 4 else 0) + |frame.payload|;
    if header.bytes == 4 {
      TwoByteValues(other[2..4]);
    }
  }

  // ---- The connection ----------------------------------------------------

  /** `incoming` is what the peer will still deliver before it closes, `sent` what
      went out. How the delivery is cut into chunks is up to the network. */
  class Connection {
    var incoming: seq<Byte>
    var sent: seq<Byte>

    constructor (incoming: seq<Byte>)
      ensures this.incoming == incoming && sent == []
    {
      this.incoming, sent := incoming, [];
    }

    /** `recv`: some part of what is to come, at most `size` bytes, empty only at the end. */
    method Receive(size: nat) returns (chunk: seq<Byte>)
      requires size > 0
      modifies this`incoming
      ensures |chunk| <= size && chunk + incoming == old(incoming)
      ensures chunk == [] ==> incoming == []
    {
      if incoming == [] {
        return [];
      }
      var n :| 1 <= n <= size && n <= |incoming|;
      chunk, incoming := incoming[..n], incoming[n..];
    }

    /** `_read_exact`, whatever the chunks. */
    method ReadExact(size: nat) returns (r: Result<seq<Byte>, Fault>)
      modifies this`incoming
      ensures if size <= |old(incoming)| then r == Ok(old(incoming)[..size]) && incoming == old(incoming)[size..]
              else r == Err(PeerClosed) && incoming == []
    {
      var output: seq<Byte> := [];
      while |output| < size
        invariant |output| <= size && output + incoming == old(incoming)
        decreases size - |output|
      {
        var chunk := Receive(size - |output|);
        if chunk == [] {
          return Err(PeerClosed);
        }
        output := output + chunk;
      }
      r := Ok(output);
    }

    /** `_send_frame`, with the mask key the random source gave. */
    method SendFrame(frame: Frame) returns (r: Result<(), Fault>)
      modifies this`sent
      ensures if Encode(frame).Ok? then r == Ok(()) && sent == old(sent) + Encode(frame).value
              else r == Err(Encode(frame).error) && sent == old(sent)
    {
      if |frame.payload| > PAYLOAD_LIMIT {
        return Err(PayloadTooLarge);
      }
      if !(0 <= frame.opcode < 256) {
        return Err(ByteOutOfRange);
      }
      var header := [WithHighBit(frame.opcode)];
      var length := |frame.payload|;
      if length < 126 {
        header := header + [Second(frame.mask.Some?, length)];
      } else if length <= 0xFFFF {
        header := header + ([Second(frame.mask.Some?, 126)] + BigEndian(length, 2));
      } else {
        header := header + ([Second(frame.mask.Some?, 127)] + BigEndian(length, 8));
      }
      if frame.mask.None? {
        sent := sent + (header + frame.payload);
      } else {
        sent := sent + (header + (frame.mask.value + Masked(frame.payload, frame.mask.value)));
      }
      r := Ok(());
    }

    method ReadHeader() returns (r: Result<Header, Fault>)
      modifies this`incoming
      ensures r == DecodeHeader(old(incoming))
      ensures incoming == if r.Ok? then old(incoming)[r.value.bytes..] else []
    {
      ghost var stream := incoming;
      var start := ReadExact(2);
      if start.Err? {
        return Err(PeerClosed);
      }
      var second := start.value[1];
      var extension := ReadExact(ExtensionBytes(second));
      if extension.Err? {
        return Err(PeerClosed);
      }
      assert extension.value == stream[2..2 + ExtensionBytes(second)];
      r := Ok(Header(start.value[0] % 16, second >= 128, Length(second, extension.value), 2 + ExtensionBytes(second)));
    }

    method ReadBody(header: Header) returns (r: Result<(Byte, seq<Byte>), Fault>)
      requires header.opcode < 16
      modifies this`incoming
      ensures
        var decoded := DecodeBody(header, old(incoming));
        if decoded.Ok? then r == Ok((decoded.value.opcode, decoded.value.payload)) && incoming == decoded.value.rest
        else r == Err(PeerClosed) && incoming == []
    {
      ghost var stream := incoming;
      var size := if header.masked then 4 else 0;
      var key := ReadExact(size);
      if key.Err? {
        return Err(PeerClosed);
      }
      var payload := ReadExact(header.length);
      if payload.Err? {
        return Err(PeerClosed);
      }
      assert payload.value == stream[size..size + header.length] && incoming == stream[size + header.length..];
      r := Ok((header.opcode, if header.masked then Masked(payload.value, key.value) else payload.value));
    }

    /** `_read_frame`. A closed peer leaves nothing behind; a frame that is too large
        is refused after its header. */
    method ReadFrame() returns (r: Result<(Byte, seq<Byte>), Fault>)
      modifies this`incoming
      ensures
        var decoded := Decode(old(incoming));
        if decoded.Ok?
        then r == Ok((decoded.value.opcode, decoded.value.payload)) && incoming == decoded.value.rest
        else r == Err(decoded.error) && (decoded.error == PeerClosed ==> incoming == [])
    {
      var header := ReadHeader();
      if header.Err? {
        return Err(header.error);
      }
      if header.value.length > PAYLOAD_LIMIT {
        return Err(FrameTooLarge);
      }
      r := ReadBody(header.value);
    }
  }
}
