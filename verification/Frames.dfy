/**
 The relay's WebSocket frame layer (RFC 6455, sections 5.2 to 5.5): reading masked client frames,
 laying out server frames, and reassembling fragmented messages.
*/
module Frames {
  import opened Wrappers

  type Bytes = seq<Byte>

  // ---------------------------------------------------------------------------------------------
  // Numbers on the wire
  // ---------------------------------------------------------------------------------------------

  /** The big-endian form in exactly the given number of bytes. */
  function BigEndian(value: nat, width: nat): (r: Bytes)
    ensures |r| == width
  {
    if width == 0 then [] else BigEndian(value / 256, width - 1) + [value % 256]
  }

  function FromBigEndian(bytes: Bytes): nat {
    if bytes == [] then 0
    else FromBigEndian(bytes[..|bytes| - 1]) * 256 + bytes[|bytes| - 1]
  }

  function Pow256(width: nat): nat {
    if width == 0 then 1 else 256 * Pow256(width - 1)
  }

  lemma {:induction false} BigEndianRoundTrip(value: nat, width: nat)
    requires value < Pow256(width)
    ensures FromBigEndian(BigEndian(value, width)) == value
  {
    if width > 0 {
      BigEndianRoundTrip(value / 256, width - 1);
      var bytes := BigEndian(value, width);
      assert bytes[..|bytes| - 1] == BigEndian(value / 256, width - 1);
    }
  }

  /** The most significant byte comes first. */
  lemma {:induction false} MostSignificantFirst(bytes: Bytes)
    requires bytes != []
    ensures FromBigEndian(bytes) == bytes[0] * Pow256(|bytes| - 1) + FromBigEndian(bytes[1..])
  {
    if |bytes| == 1 {
      assert bytes[1..] == [] && bytes[..0] == [];
    } else {
      var n := |bytes| - 1;
      MostSignificantFirst(bytes[..n]);
      assert bytes[..n][1..] == bytes[1..][..n - 1];
      var p := Pow256(n - 1);
      assert bytes[0] * (256 * p) == 256 * (bytes[0] * p);
    }
  }

  lemma Powers()
    ensures Pow256(2) == 0x1_0000 && Pow256(8) == 0x1_0000_0000_0000_0000
  {
    assert Pow256(1) == 256;
    assert Pow256(2) == 0x1_0000;
    assert Pow256(3) == 0x100_0000;
    assert Pow256(4) == 0x1_0000_0000;
    assert Pow256(5) == 0x100_0000_0000;
    assert Pow256(6) == 0x1_0000_0000_0000;
    assert Pow256(7) == 0x100_0000_0000_0000;
  }

  // ---------------------------------------------------------------------------------------------
  // Frames
  // ---------------------------------------------------------------------------------------------

  datatype Frame = Frame(final: bool, opcode: Byte, payload: Bytes)

  datatype ReadResult = Incomplete | Invalid | Read(frame: Frame, rest: Bytes)

  function Pow2(bits: nat): (r: nat)
    ensures r > 0
  {
    if bits == 0 then 1 else 2 * Pow2(bits - 1)
  }

  /** Exclusive or on the given number of low bits. */
  function Xor(a: nat, b: nat, bits: nat): (r: nat)
    ensures r < Pow2(bits)
  {
    if bits == 0 then 0 else (if a % 2 == b % 2 then 0 else 1) + 2 * Xor(a / 2, b / 2, bits - 1)
  }

  lemma ByteHasEightBits()
    ensures Pow2(8) == 256
  {
    assert Pow2(4) == 16;
  }

  function XorByte(a: Byte, b: Byte): Byte {
    ByteHasEightBits();
    Xor(a, b, 8)
  }

  function Masked(payload: Bytes, mask: Bytes): (r: Bytes)
    requires |mask| == 4
    ensures |r| == |payload|
  {
    seq(|payload|, i requires 0 <= i < |payload| => XorByte(payload[i], mask[i % 4]))
  }

  function ReadBody(final: bool, opcode: Byte, length: nat, data: Bytes): ReadResult {
    if |data| < 4 || |data| - 4 < length then Incomplete
    else Read(Frame(final, opcode, Masked(data[4..4 + length], data[..4])), data[4 + length..])
  }

  /** The short length is the length itself, or says how many length bytes follow. */
  function ReadLength(final: bool, opcode: Byte, short: nat, data: Bytes): ReadResult {
    if short == 126 then
      (if |data| < 2 then Incomplete else ReadBody(final, opcode, FromBigEndian(data[..2]), data[2..]))
    else if short == 127 then
      (if |data| < 8 then Incomplete else ReadBody(final, opcode, FromBigEndian(data[..8]), data[8..]))
    else ReadBody(final, opcode, short, data)
  }

  /**
   What reading one client frame from the front of a stream yields.  The top bit of the first byte
   is the final flag, the next three are reserved and the low four are the opcode; the top bit of
   the second byte says that the payload is masked.
  */
  function ReadFrame(data: Bytes): ReadResult {
    if |data| < 2 then Incomplete
    else
      var first, second := data[0], data[1];
      if first / 16 % 8 != 0 then Invalid
      else if second < 0x80 then Invalid
      else ReadLength(first >= 0x80, first % 16, second % 128, data[2..])
  }

  const LENGTH_LIMIT: nat := 0x1_0000_0000_0000_0000

  /** Opcodes have four bits, so adding the final flag is setting the top bit. */
  function FirstByte(final: bool, opcode: Byte): Byte
    requires opcode < 16
  {
    if final then 0x80 + opcode else opcode
  }

  function SecondByte(masked: bool, short: nat): Byte
    requires short < 128
  {
    if masked then 0x80 + short else short
  }

  /** The bytes before the mask and the payload: flags, opcode, mask bit and payload length. */
  function Header(final: bool, opcode: Byte, masked: bool, length: nat): Bytes
    requires opcode < 16 && length < LENGTH_LIMIT
  {
    [FirstByte(final, opcode)] +
    (if length < 126 then [SecondByte(masked, length)]
     else if length <= 0xFFFF then [SecondByte(masked, 126)] + BigEndian(length, 2)
     else [SecondByte(masked, 127)] + BigEndian(length, 8))
  }

  /** A server frame: always final and never masked. */
  function ServerFrame(opcode: Byte, payload: Bytes): Bytes
    requires opcode < 16 && |payload| < LENGTH_LIMIT
  {
    Header(true, opcode, false, |payload|) + payload
  }

  /** The header buffer is extended step by step before it is written with the payload. */
  method SendFrame(opcode: Byte, payload: Bytes) returns (written: Bytes)
    requires opcode < 16 && |payload| < LENGTH_LIMIT
    ensures written == ServerFrame(opcode, payload)
  {
    var header: Bytes := [0x80 + opcode];
    if |payload| < 126 {
      header := header + [|payload|];
    } else if |payload| <= 0xFFFF {
      header := header + [126];
      header := header + BigEndian(|payload|, 2);
    } else {
      header := header + [127];
      header := header + BigEndian(|payload|, 8);
    }
    assert header == Header(true, opcode, false, |payload|);
    written := header + payload;
  }

  /** A client frame: the same length rules, the mask bit, a mask, and the masked payload. */
  function ClientFrame(frame: Frame, mask: Bytes): Bytes
    requires |mask| == 4 && frame.opcode < 16 && |frame.payload| < LENGTH_LIMIT
  {
    Header(frame.final, frame.opcode, true, |frame.payload|) + mask + Masked(frame.payload, mask)
  }

  lemma MaskTwice(payload: Bytes, mask: Bytes)
    requires |mask| == 4
    ensures Masked(Masked(payload, mask), mask) == payload
  {
    forall i | 0 <= i < |payload| ensures Masked(Masked(payload, mask), mask)[i] == payload[i] {
      XorTwice(payload[i], mask[i % 4]);
    }
  }

  lemma {:induction false} XorCancels(a: nat, m: nat, bits: nat)
    requires a < Pow2(bits)
    ensures Xor(Xor(a, m, bits), m, bits) == a
  {
    if bits > 0 {
      XorCancels(a / 2, m / 2, bits - 1);
      var x := Xor(a, m, bits);
      assert x / 2 == Xor(a / 2, m / 2, bits - 1);
    }
  }

  lemma XorTwice(a: Byte, m: Byte)
    ensures XorByte(XorByte(a, m), m) == a
  {
    ByteHasEightBits();
    XorCancels(a, m, 8);
  }

  // ---------------------------------------------------------------------------------------------
  // What is read, bit by bit
  // ---------------------------------------------------------------------------------------------

  predicate Bit(a: nat, i: nat) {
    a / Pow2(i) % 2 == 1
  }

  predicate HasBit(a: nat, i: nat) {
    if i == 0 then a % 2 == 1 else HasBit(a / 2, i - 1)
  }

  lemma {:induction false} HasBitIs(a: nat, i: nat)
    ensures HasBit(a, i) <==> Bit(a, i)
  {
    if i > 0 {
      HasBitIs(a / 2, i - 1);
      DivideTwice(a, Pow2(i - 1));
    }
  }

  /** Dividing by an even number, in two steps. */
  lemma DivideTwice(a: nat, p: nat)
    requires p > 0
    ensures a / (2 * p) == a / 2 / p
    ensures a % (2 * p) == 2 * (a / 2 % p) + a % 2
  {
    var q, r := a / 2 / p, a / 2 % p;
    assert a / 2 == q * p + r;
    assert 2 * (q * p) == q * (2 * p);
    Quotient(a, 2 * p, q, 2 * r + a % 2);
  }

  lemma Quotient(a: nat, d: nat, q: nat, r: nat)
    requires a == q * d + r && r < d
    ensures a / d == q && a % d == r
  {
    var x := a / d;
    assert a == x * d + a % d;
    assert x < q ==> (x + 1) * d <= q * d;
    assert q < x ==> (q + 1) * d <= x * d;
  }

  lemma HalfOfRemainder(a: nat, p: nat)
    requires p > 0
    ensures a % (2 * p) % 2 == a % 2 && a % (2 * p) / 2 == a / 2 % p
  {
    DivideTwice(a, p);
  }

  lemma {:induction false} NoBits(i: nat)
    ensures !HasBit(0, i)
  {
    if i > 0 {
      NoBits(i - 1);
    }
  }

  lemma {:induction false} HasLowBits(a: nat, n: nat, i: nat)
    ensures HasBit(a % Pow2(n), i) <==> i < n && HasBit(a, i)
  {
    if n == 0 {
      NoBits(i);
    } else {
      HalfOfRemainder(a, Pow2(n - 1));
      if i > 0 {
        HasLowBits(a / 2, n - 1, i - 1);
      }
    }
  }

  /** The remainder by a power of two keeps the bits below it. */
  lemma LowBits(a: nat, n: nat, i: nat)
    ensures Bit(a % Pow2(n), i) <==> i < n && Bit(a, i)
  {
    HasLowBits(a, n, i);
    HasBitIs(a % Pow2(n), i);
    HasBitIs(a, i);
  }

  lemma {:induction false} XorHasBit(a: nat, b: nat, bits: nat, i: nat)
    requires i < bits
    ensures HasBit(Xor(a, b, bits), i) <==> HasBit(a, i) != HasBit(b, i)
  {
    if i > 0 {
      XorHasBit(a / 2, b / 2, bits - 1, i - 1);
    }
  }

  /** A bit of the result is set exactly when it is set in one of the two numbers. */
  lemma XorBit(a: nat, b: nat, bits: nat, i: nat)
    requires i < bits
    ensures Bit(Xor(a, b, bits), i) <==> Bit(a, i) != Bit(b, i)
  {
    XorHasBit(a, b, bits, i);
    HasBitIs(a, i);
    HasBitIs(b, i);
    HasBitIs(Xor(a, b, bits), i);
  }

  lemma ByteBits()
    ensures Pow2(0) == 1 && Pow2(1) == 2 && Pow2(2) == 4 && Pow2(3) == 8
    ensures Pow2(4) == 16 && Pow2(5) == 32 && Pow2(6) == 64 && Pow2(7) == 128
  {
    assert Pow2(1) == 2;
    assert Pow2(2) == 4;
    assert Pow2(3) == 8;
    assert Pow2(4) == 16;
    assert Pow2(5) == 32;
    assert Pow2(6) == 64;
  }

  lemma MiddleBits(b: Byte)
    ensures b / 16 % 2 == 1 || b / 32 % 2 == 1 || b / 64 % 2 == 1 <==> b / 16 % 8 != 0
  {
    var h := b / 16;
    assert b / 32 == h / 2 && b / 64 == h / 4;
    assert h % 8 == 4 * (h / 4 % 2) + 2 * (h / 2 % 2) + h % 2;
  }

  lemma TopBits(b: Byte)
    ensures Bit(b, 7) <==> b >= 0x80
    ensures Bit(b, 4) || Bit(b, 5) || Bit(b, 6) <==> b / 16 % 8 != 0
  {
    ByteBits();
    MiddleBits(b);
  }

  /** Where the mask of a frame starts. */
  function MaskAt(data: Bytes): nat
    requires |data| >= 2
  {
    match data[1] % 128
    case 126 => 4
    case 127 => 10
    case _ => 2
  }

  /** The payload length a frame announces. */
  function LengthOf(data: Bytes): nat
    requires |data| >= 2 && |data| >= MaskAt(data)
  {
    if data[1] % 128 < 126 then data[1] % 128 else FromBigEndian(data[2..MaskAt(data)])
  }

  predicate HasReservedBits(first: Byte) {
    Bit(first, 4) || Bit(first, 5) || Bit(first, 6)
  }

  /** A frame is refused exactly when a reserved bit is set or the mask bit is not. */
  lemma RefusedIff(data: Bytes)
    ensures ReadFrame(data).Invalid? <==> |data| >= 2 && (HasReservedBits(data[0]) || !Bit(data[1], 7))
  {
    if |data| >= 2 {
      TopBits(data[0]);
      TopBits(data[1]);
    }
  }

  /** Otherwise a frame is read exactly when its length bytes, its mask and its payload are there. */
  lemma ReadIff(data: Bytes)
    ensures ReadFrame(data).Read? <==>
            && |data| >= 2 && !HasReservedBits(data[0]) && Bit(data[1], 7)
            && |data| >= MaskAt(data) && |data| >= MaskAt(data) + 4 + LengthOf(data)
  {
    if |data| >= 2 {
      TopBits(data[0]);
      TopBits(data[1]);
      TailOfLength(data);
    }
  }

  lemma TailOfLength(data: Bytes)
    requires |data| >= 2
    ensures |data| >= 4 ==> data[2..][..2] == data[2..4]
    ensures |data| >= 10 ==> data[2..][..8] == data[2..10]
  {
  }

  lemma BodyBits(final: bool, opcode: Byte, length: nat, data: Bytes, k: nat, i: nat)
    requires |data| >= 4 + length && k < length && i < 8
    ensures var frame := ReadBody(final, opcode, length, data).frame;
            Bit(frame.payload[k], i) <==> Bit(data[4 + k], i) != Bit(data[k % 4], i)
  {
    XorBit(data[4 + k], data[k % 4], 8, i);
    ByteHasEightBits();
  }

  lemma BodyOf(data: Bytes)
    requires ReadFrame(data).Read?
    ensures |data| >= MaskAt(data) + 4 + LengthOf(data)
    ensures ReadFrame(data) == ReadBody(data[0] >= 0x80, data[0] % 16, LengthOf(data), data[MaskAt(data)..])
  {
    ReadIff(data);
    TailOfLength(data);
    assert data[2..][2..] == data[4..];
    if |data| >= 10 {
      assert data[2..][8..] == data[10..];
    }
  }

  /**
   What is read: the final flag and the opcode are the top bit and the low four bits of the first
   byte, the rest follows the payload, and each byte of the payload is the byte on the wire with
   exactly those bits flipped that are set in its mask byte.
  */
  lemma ReadIsExact(data: Bytes)
    requires ReadFrame(data).Read?
    ensures var (frame, rest) := (ReadFrame(data).frame, ReadFrame(data).rest);
            var start := MaskAt(data) + 4;
            && (frame.final <==> Bit(data[0], 7))
            && (forall i :: 0 <= i < 8 ==> (Bit(frame.opcode, i) <==> i < 4 && Bit(data[0], i)))
            && |frame.payload| == LengthOf(data) && |data| == start + |frame.payload| + |rest|
            && rest == data[start + |frame.payload|..]
            && forall k: nat, i: nat :: k < |frame.payload| && i < 8 ==>
                 (Bit(frame.payload[k], i) <==> Bit(data[start + k], i) != Bit(data[MaskAt(data) + k % 4], i))
  {
    var frame := ReadFrame(data).frame;
    var start := MaskAt(data);
    BodyOf(data);
    OpcodeBits(data[0]);
    var body := data[start..];
    forall k: nat, i: nat | k < |frame.payload| && i < 8
      ensures Bit(frame.payload[k], i) <==> Bit(data[start + 4 + k], i) != Bit(data[start + k % 4], i)
    {
      BodyBits(data[0] >= 0x80, data[0] % 16, LengthOf(data), body, k, i);
      assert body[4 + k] == data[start + 4 + k] && body[k % 4] == data[start + k % 4];
    }
  }

  lemma OpcodeBits(first: Byte)
    ensures Bit(first, 7) <==> first >= 0x80
    ensures forall i :: 0 <= i < 8 ==> (Bit(first % 16, i) <==> i < 4 && Bit(first, i))
  {
    TopBits(first);
    ByteBits();
    forall i | 0 <= i < 8 ensures Bit(first % 16, i) <==> i < 4 && Bit(first, i) {
      LowBits(first, 4, i);
    }
  }

  lemma BodyRoundTrip(frame: Frame, mask: Bytes, rest: Bytes)
    requires |mask| == 4
    ensures ReadBody(frame.final, frame.opcode, |frame.payload|, mask + Masked(frame.payload, mask) + rest)
            == Read(frame, rest)
  {
    var masked := Masked(frame.payload, mask);
    var data := mask + masked + rest;
    assert data[..4] == mask;
    assert data[4..4 + |frame.payload|] == masked;
    assert data[4 + |frame.payload|..] == rest;
    MaskTwice(frame.payload, mask);
  }

  /** A header written for masked data is read as far as the mask. */
  lemma HeaderRoundTrip(final: bool, opcode: Byte, length: nat, body: Bytes)
    requires opcode < 16 && length < LENGTH_LIMIT
    ensures ReadFrame(Header(final, opcode, true, length) + body) == ReadBody(final, opcode, length, body)
  {
    if length < 126 {
      ShortHeader(final, opcode, length, body);
    } else if length <= 0xFFFF {
      assert length < Pow256(2) by { Powers(); }
      LongHeader(final, opcode, length, 126, 2, body);
    } else {
      assert length < Pow256(8) by { Powers(); }
      LongHeader(final, opcode, length, 127, 8, body);
    }
  }

  lemma FirstByteFields(final: bool, opcode: Byte)
    requires opcode < 16
    ensures var first := FirstByte(final, opcode);
            first / 16 % 8 == 0 && (first >= 0x80 <==> final) && first % 16 == opcode
  {
  }

  lemma SecondByteFields(short: nat)
    requires short < 128
    ensures SecondByte(true, short) >= 0x80 && SecondByte(true, short) % 128 == short
  {
  }

  /** The two flag bytes are read back, whatever follows them. */
  lemma FlagsRoundTrip(final: bool, opcode: Byte, short: nat, data: Bytes)
    requires opcode < 16 && short < 128
    ensures ReadFrame([FirstByte(final, opcode), SecondByte(true, short)] + data)
            == ReadLength(final, opcode, short, data)
  {
    var whole := [FirstByte(final, opcode), SecondByte(true, short)] + data;
    FirstByteFields(final, opcode);
    SecondByteFields(short);
    assert whole[0] == FirstByte(final, opcode) && whole[1] == SecondByte(true, short) && whole[2..] == data;
  }

  lemma ShortHeader(final: bool, opcode: Byte, length: nat, body: Bytes)
    requires opcode < 16 && length < 126
    ensures ReadFrame([FirstByte(final, opcode)] + [SecondByte(true, length)] + body)
            == ReadBody(final, opcode, length, body)
  {
    FlagsRoundTrip(final, opcode, length, body);
    assert [FirstByte(final, opcode)] + [SecondByte(true, length)] + body
           == [FirstByte(final, opcode), SecondByte(true, length)] + body;
  }

  lemma LongHeader(final: bool, opcode: Byte, length: nat, short: nat, width: nat, body: Bytes)
    requires opcode < 16 && length < Pow256(width)
    requires (short, width) == (126, 2) || (short, width) == (127, 8)
    ensures ReadFrame([FirstByte(final, opcode)] + ([SecondByte(true, short)] + BigEndian(length, width)) + body)
            == ReadBody(final, opcode, length, body)
  {
    BigEndianRoundTrip(length, width);
    LongHeaderBytes(final, opcode, short, width, BigEndian(length, width), body);
  }

  lemma LongHeaderBytes(final: bool, opcode: Byte, short: nat, width: nat, lengthBytes: Bytes, body: Bytes)
    requires opcode < 16 && |lengthBytes| == width
    requires (short, width) == (126, 2) || (short, width) == (127, 8)
    ensures ReadFrame([FirstByte(final, opcode)] + ([SecondByte(true, short)] + lengthBytes) + body)
            == ReadBody(final, opcode, FromBigEndian(lengthBytes), body)
  {
    FlagsRoundTrip(final, opcode, short, lengthBytes + body);
    assert [FirstByte(final, opcode)] + ([SecondByte(true, short)] + lengthBytes) + body
           == [FirstByte(final, opcode), SecondByte(true, short)] + (lengthBytes + body);
    LengthBytes(final, opcode, short, width, lengthBytes, body);
  }

  lemma LengthBytes(final: bool, opcode: Byte, short: nat, width: nat, lengthBytes: Bytes, body: Bytes)
    requires (short, width) == (126, 2) || (short, width) == (127, 8)
    requires |lengthBytes| == width
    ensures ReadLength(final, opcode, short, lengthBytes + body)
            == ReadBody(final, opcode, FromBigEndian(lengthBytes), body)
  {
    assert (lengthBytes + body)[..width] == lengthBytes;
    assert (lengthBytes + body)[width..] == body;
  }

  /** Reading undoes the client layout for every payload length, and stops where the frame ends. */
  lemma FrameRoundTrip(frame: Frame, mask: Bytes, rest: Bytes)
    requires |mask| == 4 && frame.opcode < 16 && |frame.payload| < LENGTH_LIMIT
    ensures ReadFrame(ClientFrame(frame, mask) + rest) == Read(frame, rest)
  {
    var header := Header(frame.final, frame.opcode, true, |frame.payload|);
    var body := mask + Masked(frame.payload, mask) + rest;
    assert ClientFrame(frame, mask) + rest == header + body;
    HeaderRoundTrip(frame.final, frame.opcode, |frame.payload|, body);
    BodyRoundTrip(frame, mask, rest);
  }

  /** A frame in the server's own layout is not a client frame: its mask bit is clear. */
  lemma ServerFramesAreRejected(opcode: Byte, payload: Bytes, rest: Bytes)
    requires |payload| < LENGTH_LIMIT && opcode < 16
    ensures ReadFrame(ServerFrame(opcode, payload) + rest) == Invalid
  {
    var data := ServerFrame(opcode, payload) + rest;
    var short := if |payload| < 126 then |payload| else if |payload| <= 0xFFFF then 126 else 127;
    assert data[0] == FirstByte(true, opcode) && data[1] == SecondByte(false, short);
  }

  // ---------------------------------------------------------------------------------------------
  // Reassembly
  // ---------------------------------------------------------------------------------------------

  const CONTINUATION: Byte := 0
  const TEXT: Byte := 1
  const BINARY: Byte := 2
  const CLOSE: Byte := 8
  const PING: Byte := 9
  const PONG: Byte := 10

  /** What the connection loop carries from frame to frame, and whether it goes on. */
  datatype Reader = Reader(fragments: Bytes, opcode: Option<Byte>, live: bool)

  /** What handling a frame gives out: complete text messages and answers to control frames. */
  datatype Output = Message(text: Bytes) | Pong(payload: Bytes) | Closing(payload: Bytes)

  const IDLE := Reader([], None, true)

  function Clipped(payload: Bytes): Bytes {
    if |payload| <= 125 then payload else payload[..125]
  }

  /** A data frame: a new one replaces whatever was collected, a continuation extends it. */
  function TakeData(r: Reader, frame: Frame): (Reader, seq<Output>) {
    if frame.opcode != TEXT && frame.opcode != BINARY && (frame.opcode != CONTINUATION || r.opcode.None?)
    then (r.(live := false), [])
    else
      var collected := if frame.opcode == CONTINUATION then r.fragments + frame.payload else frame.payload;
      var opcode := if frame.opcode == CONTINUATION then r.opcode else Some(frame.opcode);
      if !frame.final then (Reader(collected, opcode, true), [])
      else if opcode != Some(TEXT) then (Reader(collected, opcode, false), [])
      else (IDLE, [Message(collected)])
  }

  function Take(r: Reader, frame: Frame): (Reader, seq<Output>) {
    if !r.live then (r, [])
    else if frame.opcode == CLOSE then (r.(live := false), [Closing(Clipped(frame.payload))])
    else if frame.opcode == PING then (r, [Pong(Clipped(frame.payload))])
    else if frame.opcode == PONG then (r, [])
    else TakeData(r, frame)
  }

  function TakeAll(r: Reader, frames: seq<Frame>): (Reader, seq<Output>) {
    if frames == [] then (r, [])
    else
      var n := |frames| - 1;
      var (before, out) := TakeAll(r, frames[..n]);
      var (after, more) := Take(before, frames[n]);
      (after, out + more)
  }

  /** The connection loop over the frames that arrive, with its buffer and its opcode variable. */
  method HandleFrames(frames: seq<Frame>) returns (outputs: seq<Output>, live: bool)
    ensures var (r, out) := TakeAll(IDLE, frames); outputs == out && live == r.live
  {
    var fragments: Bytes, fragmentOpcode: Option<Byte> := [], None;
    outputs, live := [], true;
    var i := 0;
    while i < |frames|
      invariant 0 <= i <= |frames|
      invariant TakeAll(IDLE, frames[..i]) == (Reader(fragments, fragmentOpcode, live), outputs)
    {
      assert frames[..i + 1][..i] == frames[..i];
      assert outputs + [] == outputs;
      var frame := frames[i];
      i := i + 1;
      if !live {
        continue;
      }
      if frame.opcode == CLOSE {
        outputs := outputs + [Closing(Clipped(frame.payload))];
        live := false;
        continue;
      }
      if frame.opcode == PING {
        outputs := outputs + [Pong(Clipped(frame.payload))];
        continue;
      }
      if frame.opcode == PONG {
        continue;
      }
      if frame.opcode == TEXT || frame.opcode == BINARY {
        fragments := frame.payload;
        fragmentOpcode := Some(frame.opcode);
      } else if frame.opcode == CONTINUATION && fragmentOpcode.Some? {
        fragments := fragments + frame.payload;
      } else {
        live := false;
        continue;
      }
      if !frame.final {
        continue;
      }
      if fragmentOpcode != Some(TEXT) {
        live := false;
        continue;
      }
      outputs := outputs + [Message(fragments)];
      fragments := [];
      fragmentOpcode := None;
    }
    assert frames[..|frames|] == frames;
  }

  lemma {:induction false} TakeAllConcat(r: Reader, a: seq<Frame>, b: seq<Frame>)
    ensures var (middle, first) := TakeAll(r, a);
            var (last, second) := TakeAll(middle, b);
            TakeAll(r, a + b) == (last, first + second)
  {
    if b == [] {
      assert a + b == a;
      assert TakeAll(r, a).1 + [] == TakeAll(r, a).1;
    } else {
      var n := |b| - 1;
      assert (a + b)[..|a + b| - 1] == a + b[..n];
      TakeAllConcat(r, a, b[..n]);
      var (middle, first) := TakeAll(r, a);
      var (before, second) := TakeAll(middle, b[..n]);
      var (after, more) := Take(before, b[n]);
      assert (first + second) + more == first + (second + more);
    }
  }

  // ---------------------------------------------------------------------------------------------
  // Every way of sending a message
  // ---------------------------------------------------------------------------------------------

  /** Ping and pong frames sent before a fragment, and the fragment's payload. */
  datatype Piece = Piece(controls: seq<Frame>, payload: Bytes)

  predicate ControlsOnly(frames: seq<Frame>) {
    forall i :: 0 <= i < |frames| ==> frames[i].opcode == PING || frames[i].opcode == PONG
  }

  predicate Sendable(pieces: seq<Piece>) {
    forall i :: 0 <= i < |pieces| ==> ControlsOnly(pieces[i].controls)
  }

  /** The frames of one fragmented message; the last piece is the final one. */
  function MessageFrames(pieces: seq<Piece>, first: bool): seq<Frame> {
    if pieces == [] then []
    else
      pieces[0].controls + [PieceFrame(pieces[0].payload, first, |pieces| == 1)] + MessageFrames(pieces[1..], false)
  }

  function Text(pieces: seq<Piece>): Bytes {
    if pieces == [] then [] else pieces[0].payload + Text(pieces[1..])
  }

  function Pongs(controls: seq<Frame>): seq<Output> {
    if controls == [] then []
    else
      var n := |controls| - 1;
      Pongs(controls[..n]) + (if controls[n].opcode == PING then [Pong(Clipped(controls[n].payload))] else [])
  }

  function AllPongs(pieces: seq<Piece>): seq<Output> {
    if pieces == [] then [] else Pongs(pieces[0].controls) + AllPongs(pieces[1..])
  }

  lemma {:induction false} TakeControls(r: Reader, controls: seq<Frame>)
    requires r.live && ControlsOnly(controls)
    ensures TakeAll(r, controls) == (r, Pongs(controls))
  {
    if controls != [] {
      var n := |controls| - 1;
      TakeControls(r, controls[..n]);
      assert controls[n].opcode == PING || controls[n].opcode == PONG;
    }
  }

  lemma TakeOne(r: Reader, frame: Frame)
    ensures TakeAll(r, [frame]) == Take(r, frame)
  {
    assert [frame][..0] == [];
    assert [] + Take(r, frame).1 == Take(r, frame).1;
  }

  function PieceFrame(payload: Bytes, first: bool, last: bool): Frame {
    Frame(last, if first then TEXT else CONTINUATION, payload)
  }

  lemma TakePiece(r: Reader, payload: Bytes, first: bool, last: bool)
    requires r.live && (first || r.opcode == Some(TEXT))
    ensures var collected := (if first then [] else r.fragments) + payload;
            TakeAll(r, [PieceFrame(payload, first, last)])
            == if last then (IDLE, [Message(collected)]) else (Reader(collected, Some(TEXT), true), [])
  {
    assert [] + payload == payload;
    TakeOne(r, PieceFrame(payload, first, last));
  }

  lemma TakeRun(r: Reader, controls: seq<Frame>, payload: Bytes, first: bool, last: bool, tail: seq<Frame>)
    requires r.live && ControlsOnly(controls) && (first || r.opcode == Some(TEXT))
    ensures var (next, out) := TakeAll(r, [PieceFrame(payload, first, last)]);
            var (end, more) := TakeAll(next, tail);
            TakeAll(r, controls + [PieceFrame(payload, first, last)] + tail) == (end, Pongs(controls) + out + more)
  {
    TakeControls(r, controls);
    TakeAllConcat(r, controls, [PieceFrame(payload, first, last)]);
    TakeAllConcat(r, controls + [PieceFrame(payload, first, last)], tail);
  }

  lemma TextStep(base: Bytes, pieces: seq<Piece>)
    requires pieces != []
    ensures base + Text(pieces) == base + pieces[0].payload + Text(pieces[1..])
  {
    assert Text(pieces) == pieces[0].payload + Text(pieces[1..]);
  }

  lemma Regroup<T>(a: seq<T>, b: seq<T>, c: seq<T>)
    ensures a + [] + (b + c) == (a + b) + c
  {
  }

  lemma PongStep(pieces: seq<Piece>, out: seq<Output>)
    requires pieces != []
    ensures Pongs(pieces[0].controls) + [] + (AllPongs(pieces[1..]) + out) == AllPongs(pieces) + out
  {
    Regroup(Pongs(pieces[0].controls), AllPongs(pieces[1..]), out);
  }

  lemma TakeLast(r: Reader, piece: Piece, first: bool)
    requires ControlsOnly(piece.controls) && r.live && (first || r.opcode == Some(TEXT))
    ensures TakeAll(r, MessageFrames([piece], first))
            == (IDLE, AllPongs([piece]) + [Message((if first then [] else r.fragments) + Text([piece]))])
  {
    TakePiece(r, piece.payload, first, true);
    TakeRun(r, piece.controls, piece.payload, first, true, []);
    assert [piece][1..] == [];
    assert Text([piece]) == piece.payload;
    assert AllPongs([piece]) == Pongs(piece.controls);
    var out := Pongs(piece.controls) + [Message((if first then [] else r.fragments) + piece.payload)];
    assert out + [] == out;
  }

  /** The pieces still to come extend what was collected and complete the message. */
  lemma {:induction false} TakeMessage(r: Reader, pieces: seq<Piece>, first: bool)
    requires pieces != [] && Sendable(pieces) && r.live
    requires first || r.opcode == Some(TEXT)
    ensures TakeAll(r, MessageFrames(pieces, first))
            == (IDLE, AllPongs(pieces) + [Message((if first then [] else r.fragments) + Text(pieces))])
    decreases |pieces|
  {
    if |pieces| == 1 {
      assert pieces == [pieces[0]];
      TakeLast(r, pieces[0], first);
    } else {
      var base := if first then [] else r.fragments;
      var rest := pieces[1..];
      var next := Reader(base + pieces[0].payload, Some(TEXT), true);
      TakePiece(r, pieces[0].payload, first, false);
      TakeRun(r, pieces[0].controls, pieces[0].payload, first, false, MessageFrames(rest, false));
      assert forall i :: 0 <= i < |rest| ==> rest[i] == pieces[i + 1];
      TakeMessage(next, rest, false);
      TextStep(base, pieces);
      PongStep(pieces, [Message(base + Text(pieces))]);
    }
  }

  function StreamFrames(messages: seq<seq<Piece>>): seq<Frame> {
    if messages == [] then []
    else StreamFrames(messages[..|messages| - 1]) + MessageFrames(messages[|messages| - 1], true)
  }

  function StreamOutput(messages: seq<seq<Piece>>): seq<Output> {
    if messages == [] then []
    else
      StreamOutput(messages[..|messages| - 1])
      + (AllPongs(messages[|messages| - 1]) + [Message(Text(messages[|messages| - 1]))])
  }

  /**
   For every sequence of messages, every way of splitting each into fragments and every way of
   interleaving ping and pong frames, the loop hands out each message as the concatenation of its
   fragments and answers each ping in its place.
  */
  lemma {:induction false} ReassemblyIsConcatenation(messages: seq<seq<Piece>>)
    requires forall i :: 0 <= i < |messages| ==> messages[i] != [] && Sendable(messages[i])
    ensures TakeAll(IDLE, StreamFrames(messages)) == (IDLE, StreamOutput(messages))
  {
    if messages != [] {
      var n := |messages| - 1;
      assert forall i :: 0 <= i < n ==> messages[..n][i] == messages[i];
      ReassemblyIsConcatenation(messages[..n]);
      TakeMessage(IDLE, messages[n], true);
      TakeAllConcat(IDLE, StreamFrames(messages[..n]), MessageFrames(messages[n], true));
      assert [] + Text(messages[n]) == Text(messages[n]);
    }
  }

  // ---------------------------------------------------------------------------------------------
  // From bytes to frames
  // ---------------------------------------------------------------------------------------------

  datatype Sent = Sent(frame: Frame, mask: Bytes)

  predicate Encodable(sent: Sent) {
    |sent.mask| == 4 && sent.frame.opcode < 16 && |sent.frame.payload| < LENGTH_LIMIT
  }

  predicate AllEncodable(sents: seq<Sent>) {
    forall i :: 0 <= i < |sents| ==> Encodable(sents[i])
  }

  function Encode(sents: seq<Sent>): Bytes
    requires AllEncodable(sents)
  {
    if sents == [] then [] else assert Encodable(sents[0]); ClientFrame(sents[0].frame, sents[0].mask) + Encode(sents[1..])
  }

  function FramesOf(sents: seq<Sent>): seq<Frame> {
    if sents == [] then [] else [sents[0].frame] + FramesOf(sents[1..])
  }

  /** The frames read from a byte stream until it is invalid or incomplete. */
  function ReadAll(data: Bytes): seq<Frame>
    decreases |data|
  {
    match ReadFrame(data)
    case Read(frame, rest) => if |rest| < |data| then [frame] + ReadAll(rest) else []
    case Incomplete => []
    case Invalid => []
  }

  /** A byte stream of client frames is read back as exactly those frames, whatever the masks. */
  lemma {:induction false} StreamRoundTrip(sents: seq<Sent>)
    requires AllEncodable(sents)
    ensures ReadAll(Encode(sents)) == FramesOf(sents)
  {
    if sents != [] {
      assert Encodable(sents[0]);
      assert forall i :: 0 <= i < |sents[1..]| ==> sents[1..][i] == sents[i + 1];
      StreamRoundTrip(sents[1..]);
      FrameRoundTrip(sents[0].frame, sents[0].mask, Encode(sents[1..]));
    }
  }

  /** So a client may mask, split and interleave as it likes: the relay sees the same messages. */
  lemma {:induction false} BytesToMessages(messages: seq<seq<Piece>>, sents: seq<Sent>)
    requires forall i :: 0 <= i < |messages| ==> messages[i] != [] && Sendable(messages[i])
    requires AllEncodable(sents) && FramesOf(sents) == StreamFrames(messages)
    ensures TakeAll(IDLE, ReadAll(Encode(sents))) == (IDLE, StreamOutput(messages))
  {
    StreamRoundTrip(sents);
    ReassemblyIsConcatenation(messages);
  }
}
