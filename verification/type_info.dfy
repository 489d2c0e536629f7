/** `MultipleTypeInfo`: one supported message type paired with the schema this
    application reads and writes it with. */
module TypeInfo {
  import opened Wrappers
  import opened Avro

  datatype TypeInfo = TypeInfo(messageType: MessageType, schema: Schema)

  /** The constructor: rejects a null message type, then a null schema. */
  function NewTypeInfo(messageType: Option<MessageType>, schema: Option<Schema>): (r: Outcome<TypeInfo>)
    ensures messageType.None? ==> r == Failure(ArgumentNull("messageType"))
    ensures messageType.Some? && schema.None? ==> r == Failure(ArgumentNull("schema"))
    ensures r.Success? <==> messageType.Some? && schema.Some?
    ensures r.Success? ==> r.value.messageType == messageType.value && r.value.schema == schema.value
  {
    match (messageType, schema)
    case (None, _) => Failure(ArgumentNull("messageType"))
    case (Some(_), None) => Failure(ArgumentNull("schema"))
    case (Some(t), Some(s)) => Success(TypeInfo(t, s))
  }

  /** A reader that decodes data written with `writerSchema` into this type,
      resolving it against the type's own schema. */
  function CreateReader(info: TypeInfo, writerSchema: Schema): (r: Reader)
    ensures r.writerSchema == writerSchema
    ensures r.readerSchema == info.schema && r.messageType == info.messageType
  {
    Reader(info.messageType, writerSchema, info.schema)
  }

  /** A serializer for this type's message class. The registered schema is
      recorded, on the assumption that it is the class's generated schema. */
  function CreateSerializer(info: TypeInfo): (r: Serializer)
    ensures r.schema == info.schema && r.messageType == info.messageType
  {
    Serializer(info.messageType, info.schema)
  }
}
