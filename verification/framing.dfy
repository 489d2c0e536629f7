/** The Confluent Schema Registry wire framing read by `MultipleTypeDeserializer`:
    byte 0 is the magic byte, bytes 1-4 the schema id as a signed 32-bit
    big-endian integer, and the Avro payload follows. */
module Framing {
  import opened Wrappers
  import opened Avro

  /** The only framing version the deserializer accepts. */
  const MagicByte: Byte := 0

  /** Magic byte plus schema id: the shortest acceptable frame. */
  const HeaderLength: nat := 5

  const TwoTo32: int := 0x1_0000_0000

  /** `x` fits a C# `int`. */
  predicate IsInt32(x: int) {
    -0x8000_0000 <= x < 0x8000_0000
  }

  /** Two's complement interpretation of a 32-bit pattern. */
  function Signed32(u: int): (x: int)
    requires 0 <= u < TwoTo32
    ensures IsInt32(x)
    ensures x % TwoTo32 == u
  {
    if u < 0x8000_0000 then u else u - TwoTo32
  }

  /** The 32-bit pattern of an `int`. */
  function Unsigned32(x: int): (u: int)
    requires IsInt32(x)
    ensures 0 <= u < TwoTo32
    ensures Signed32(u) == x
  {
    x % TwoTo32
  }

  /** The unsigned value of four bytes, least significant first. */
  function Word(b0: Byte, b1: Byte, b2: Byte, b3: Byte): (u: int)
    ensures 0 <= u < TwoTo32
  {
    b0 as int + 0x100 * (b1 as int + 0x100 * (b2 as int + 0x100 * b3 as int))
  }

  /** `BinaryReader.ReadInt32`: four bytes, least significant first, signed. */
  function ReadInt32(b: seq<Byte>): (x: int)
    requires |b| == 4
    ensures IsInt32(x)
  {
    Signed32(Word(b[0], b[1], b[2], b[3]))
  }

  /** The four bytes of a 32-bit pattern, least significant first. */
  function BytesOf(u: int): (b: seq<Byte>)
    requires 0 <= u < TwoTo32
    ensures |b| == 4
  {
    var r1 := u / 0x100;
    var r2 := r1 / 0x100;
    [(u % 0x100) as Byte, (r1 % 0x100) as Byte, (r2 % 0x100) as Byte, (r2 / 0x100) as Byte]
  }

  /** The four bytes of an `int` in memory on a little-endian host. */
  function Int32Bytes(x: int): (b: seq<Byte>)
    requires IsInt32(x)
    ensures |b| == 4
  {
    BytesOf(Unsigned32(x))
  }

  function Reverse4(b: seq<Byte>): (r: seq<Byte>)
    requires |b| == 4
    ensures |r| == 4
  {
    [b[3], b[2], b[1], b[0]]
  }

  /** `IPAddress.NetworkToHostOrder(int)` on a little-endian host: the value
      whose bytes are those of `x` in reverse order. */
  function NetworkToHostOrder(x: int): (y: int)
    requires IsInt32(x)
    ensures IsInt32(y)
  {
    ReadInt32(Reverse4(Int32Bytes(x)))
  }

  /** The documented meaning of bytes 1-4: a signed big-endian 32-bit integer. */
  function BigEndianInt32(b: seq<Byte>): (x: int)
    requires |b| == 4
    ensures IsInt32(x)
  {
    Signed32(Word(b[3], b[2], b[1], b[0]))
  }

  /** The schema id as a serializer writes it: big-endian. */
  function BigEndianBytes(x: int): (b: seq<Byte>)
    requires IsInt32(x)
    ensures |b| == 4
  {
    Reverse4(Int32Bytes(x))
  }

  /** Splitting off the low byte of a non-negative number. */
  lemma SplitLowByte(lo: int, hi: int)
    requires 0 <= lo < 0x100 && 0 <= hi
    ensures (lo + 0x100 * hi) % 0x100 == lo && (lo + 0x100 * hi) / 0x100 == hi
  {
  }

  lemma WordBytes(u: int)
    requires 0 <= u < TwoTo32
    ensures var b := BytesOf(u); Word(b[0], b[1], b[2], b[3]) == u
  {
    var r1 := u / 0x100;
    var r2 := r1 / 0x100;
    assert u == u % 0x100 + 0x100 * r1;
    assert r1 == r1 % 0x100 + 0x100 * r2;
    assert r2 == r2 % 0x100 + 0x100 * (r2 / 0x100);
  }

  lemma BytesOfWord(b0: Byte, b1: Byte, b2: Byte, b3: Byte)
    ensures BytesOf(Word(b0, b1, b2, b3)) == [b0, b1, b2, b3]
  {
    var r2 := b2 as int + 0x100 * b3 as int;
    var r1 := b1 as int + 0x100 * r2;
    SplitLowByte(b0 as int, r1);
    SplitLowByte(b1 as int, r2);
    SplitLowByte(b2 as int, b3 as int);
  }

  /** Writing an `int` and reading it back gives the same value. */
  lemma ReadInt32OfBytes(x: int)
    requires IsInt32(x)
    ensures ReadInt32(Int32Bytes(x)) == x
  {
    WordBytes(Unsigned32(x));
  }

  /** Reading four bytes and writing the value back gives the same bytes. */
  lemma BytesOfReadInt32(b: seq<Byte>)
    requires |b| == 4
    ensures Int32Bytes(ReadInt32(b)) == b
  {
    BytesOfWord(b[0], b[1], b[2], b[3]);
    assert Unsigned32(ReadInt32(b)) == Word(b[0], b[1], b[2], b[3]);
  }

  /** The source's read, a little-endian `ReadInt32` followed by
      `NetworkToHostOrder`, is the documented big-endian read. */
  lemma {:induction false} SchemaIdIsBigEndian(b: seq<Byte>)
    requires |b| == 4
    ensures NetworkToHostOrder(ReadInt32(b)) == BigEndianInt32(b)
  {
    BytesOfReadInt32(b);
  }

  /** The big-endian writer and reader are inverse. */
  lemma {:induction false} BigEndianRoundTrip(x: int)
    requires IsInt32(x)
    ensures BigEndianInt32(BigEndianBytes(x)) == x
  {
    ReadInt32OfBytes(x);
  }

  /** A frame's parts: the writer schema id and the Avro payload. */
  datatype Frame = Frame(schemaId: int, payload: seq<Byte>)

  /** The framing checks of `DeserializeAsync`, in the source's order: length,
      then magic byte, then the schema id read from bytes 1-4; the payload is the
      rest of the stream. */
  function ParseFrame(data: seq<Byte>): (r: Outcome<Frame>)
    ensures |data| < HeaderLength ==> r == Failure(FrameTooShort(|data|))
    ensures |data| >= HeaderLength && data[0] != MagicByte ==> r == Failure(UnexpectedMagicByte(data[0]))
    ensures r.Success? <==> |data| >= HeaderLength && data[0] == MagicByte
    ensures r.Success? ==> r.value.schemaId == BigEndianInt32(data[1..5]) && r.value.payload == data[5..]
  {
    if |data| < HeaderLength then
      Failure(FrameTooShort(|data|))
    else if data[0] != MagicByte then
      Failure(UnexpectedMagicByte(data[0]))
    else
      SchemaIdIsBigEndian(data[1..5]);
      Success(Frame(NetworkToHostOrder(ReadInt32(data[1..5])), data[5..]))
  }

  /** The framing a Confluent serializer writes. */
  function EncodeFrame(schemaId: int, payload: seq<Byte>): (data: seq<Byte>)
    requires IsInt32(schemaId)
    ensures |data| == HeaderLength + |payload|
    ensures data[0] == MagicByte && data[HeaderLength..] == payload
  {
    [MagicByte] + BigEndianBytes(schemaId) + payload
  }

  /** Parsing an encoded frame recovers its schema id and payload. */
  lemma {:induction false} ParseEncodedFrame(schemaId: int, payload: seq<Byte>)
    requires IsInt32(schemaId)
    ensures ParseFrame(EncodeFrame(schemaId, payload)) == Success(Frame(schemaId, payload))
  {
    var data := EncodeFrame(schemaId, payload);
    assert data[1..5] == BigEndianBytes(schemaId);
    BigEndianRoundTrip(schemaId);
  }

  /** Every accepted frame is the encoding of what it parses to. */
  lemma {:induction false} EncodeParsedFrame(data: seq<Byte>)
    requires ParseFrame(data).Success?
    ensures IsInt32(ParseFrame(data).value.schemaId)
    ensures EncodeFrame(ParseFrame(data).value.schemaId, ParseFrame(data).value.payload) == data
  {
    var b := data[1..5];
    BytesOfReadInt32(Reverse4(b));
    assert BigEndianInt32(b) == ReadInt32(Reverse4(b));
    assert BigEndianBytes(BigEndianInt32(b)) == b;
    assert data == [data[0]] + data[1..5] + data[5..];
  }
}
