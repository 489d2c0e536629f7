/** The two directions together: what a per-type serializer writes for a
    record is decoded by a reader for the same message type. */
module Codec {
  import opened Wrappers
  import opened Avro
  import opened TypeConfig
  import opened Framing
  import opened Decoding
  import opened Encoding
  import ConfigBuilder
  import TI = TypeInfo

  /** A record serialized through the multi-type serializer is framed by the
      inner Confluent serializer as magic byte, the id the registry holds for the
      record's schema, and the Avro body. Decoding that frame with a deserializer
      sharing the config yields a reader for the very message type whose
      serializer wrote it, bound to (the record's schema, that type's schema), and
      applies it to exactly the body. */
  lemma {:induction false} SerializedRecordDecodesToItsType(
    d: Deserializer, readers: ReaderCache, serializers: map<string, Serializer>,
    data: Message, schemaId: int, body: seq<Byte>)
    requires DistinctFullnames(d.config.types) && SerializersFor(d.config.types, serializers)
    requires CacheConsistent(d, readers)
    requires SerializeAsync(serializers, data).Success?
    requires IsInt32(schemaId) && schemaId in d.registry && d.registry[schemaId] == data.schema
    ensures var s := SerializeAsync(serializers, data).value.serializer;
            Deserialize(d, readers, EncodeFrame(schemaId, body)).result ==
              Success(Decoded(Reader(s.messageType, data.schema, s.schema), body))
  {
    var types := d.config.types;
    DispatchSelectsOwnType(types, serializers, data);
    var k :| 0 <= k < |types| && types[k].schema.fullname == data.schema.fullname;
    DistinctNamesSelectUniquely(d.config, data.schema, k);
    ParseEncodedFrame(schemaId, body);
    DeserializeIsTransparent(d, readers, EncodeFrame(schemaId, body));
  }

  /** A config built from an accepted registration chain supports exactly the
      registered schema names, each decoded into its own registered type. */
  lemma {:induction false} RegisteredTypesAreReadable(regs: seq<ConfigBuilder.Registration>, writerSchema: Schema, k: int)
    requires ConfigBuilder.AddAll(ConfigBuilder.Empty, regs).Success?
    requires 0 <= k < |regs| && regs[k].readerSchema.Some?
    requires regs[k].readerSchema.value.fullname == writerSchema.fullname
    ensures var config := ConfigBuilder.Build(ConfigBuilder.AddAll(ConfigBuilder.Empty, regs).value);
            CreateReader(config, writerSchema) ==
              Success(Reader(regs[k].messageType, writerSchema, regs[k].readerSchema.value))
  {
    ConfigBuilder.AddAllSucceedsIff(ConfigBuilder.Empty, regs);
    var config := ConfigBuilder.Build(ConfigBuilder.AddAll(ConfigBuilder.Empty, regs).value);
    assert config.types == ConfigBuilder.Appended(regs);
    DistinctNamesSelectUniquely(config, writerSchema, k);
  }
}
