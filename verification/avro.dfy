/** The values the multi-type codec exchanges with the Avro and Confluent libraries,
    reduced to what the codec itself observes. */
module Avro {
  import opened Wrappers

  /** An octet of a frame (C# `byte`). */
  newtype Byte = b: int | 0 <= b < 0x100

  /** An Avro schema. The codec only ever compares full names; the definition
      text stands for everything the Avro library resolves between a writer and a
      reader schema (fields added, removed or renamed). */
  datatype Schema = Schema(fullname: string, definition: string)

  /** Identity of a record class generated by avrogen (`typeof(T)`). */
  datatype MessageType = MessageType(name: string)

  /** A specific reader (`ReaderWrapper<T>`): decodes data written with
      `writerSchema` into `messageType`, resolved against `readerSchema`. */
  datatype Reader = Reader(messageType: MessageType, writerSchema: Schema, readerSchema: Schema)

  /** A per-type Confluent serializer (`SerializerWrapper<T>` over `AvroSerializer<T>`).
      `AvroSerializer<T>` writes with `T`'s generated schema; `schema` is the one
      registered for `T`, taken to be that same schema. */
  datatype Serializer = Serializer(messageType: MessageType, schema: Schema)

  /** The exceptions the codec raises, one constructor per throw site. */
  datatype Error =
    | ArgumentNull(paramName: string)            // ArgumentNullException
    | DuplicateSchema(fullname: string)          // AddType: full name already added
    | UnexpectedType(fullname: string)           // CreateReader: no type for the writer schema
    | MoreThanOneMatch(fullname: string)         // SingleOrDefault: several types match
    | FrameTooShort(length: nat)                 // InvalidDataException: fewer than 5 bytes
    | UnexpectedMagicByte(magic: Byte)           // InvalidDataException: byte 0 is not 0
    | SchemaUnavailable(schemaId: int)           // registry fetch or schema parse failed
    | NotSpecificRecord                          // SerializeAsync: not an ISpecificRecord
    | UnregisteredType(fullname: string)         // SerializeAsync: no serializer for the record

  type Outcome<T> = Result<T, Error>
}
