# Multi-type Avro codec — Dafny model

This project models the multi-type Avro serializer and deserializer of
`MassTransitKafkaDemo/Infrastructure/AvroSerializers`. They let one Kafka topic
carry several event record types in the Confluent Schema Registry wire framing.
Byte 0 is the magic byte `0`. Bytes 1-4 are the writer schema id, a signed
32-bit big-endian integer. The Avro payload follows.

Modules, one per source class:

- `Wrappers`: `Option` (a C# `null` argument is `None`) and `Result`, which stands for a thrown exception.
- `Avro`: schemas as values with a full name and an opaque definition. Readers and serializers are tokens recording the schemas they are bound to. `Error` has one constructor per throw site.
- `TypeInfo`: `MultipleTypeInfo`. Its constructor checks for null arguments, and it creates readers and serializers.
- `TypeConfig`: `MultipleTypeConfig`. It looks up a type by writer schema full name through LINQ `SingleOrDefault`, which throws when more than one type matches.
- `ConfigBuilder`: `MultipleTypeConfigBuilder`. Its `AddType` rejects a null schema and a duplicate full name, and `Build` takes a snapshot of the list.
- `Framing`: the frame checks and the schema id read. The read is modelled as the source does it: `BinaryReader.ReadInt32` (little-endian) followed by `IPAddress.NetworkToHostOrder`. A lemma proves that this equals the documented big-endian read. It also holds the header encoder and both round trips.
- `Decoding`: `DeserializeAsync`, `GetReader` and `CleanCache` as pure functions. The reader cache is a `map<int, Reader>` passed in and returned. The results also report whether the schema registry was consulted.
- `ReaderCache`: the same deserializer as a class with a mutable cache field. Each method refines its pure counterpart, and a ghost semaphore flag is released on every exit path.
- `Encoding`: `MultipleTypeSerializer`. It builds one serializer per type, keyed by full name, and dispatches on the record's own schema full name.
- `Codec`: end-to-end lemmas that connect the builder, the serializer and the deserializer.

The schema registry client is a parameter of the deserializer:
`registry: map<int, Schema>` gives the parsed writer schema for every id that
can be fetched and parsed, and `maxCachedSchemas` is the client's
`MaxCachedSchemas`.

Three facts about the code shape the model:

- The schema id is read as a signed `int` (MultipleTypeDeserializer.cs:71), so `ParseFrame` yields any 32-bit signed value, negative ones included.
- A duplicate full name is rejected by `AddType` itself (MultipleTypeConfigBuilder.cs:36-39), and `Build` never fails (MultipleTypeConfigBuilder.cs:46).
- The lookup uses `SingleOrDefault` (MultipleTypeConfig.cs:23), which also throws when several types match. That failure cannot happen for a config the builder produced: `ConfigBuilder.AddAllKeepsNamesDistinct` shows that every accepted chain keeps full names distinct, the second `ensures` of `TypeConfig.CreateReader` ties `MoreThanOneMatch` to a shared name, and `Codec.RegisteredTypesAreReadable` combines the two for registered names.

## Model

| member | source | states |
|---|---|---|
| TypeInfo.NewTypeInfo | MassTransitKafkaDemo/Infrastructure/AvroSerializers/MultipleTypeInfo.cs:11-22 | a null message type is rejected first, then a null schema; otherwise `MessageType` and `Schema` are exactly the arguments |
| TypeInfo.CreateReader | MassTransitKafkaDemo/Infrastructure/AvroSerializers/MultipleTypeInfo.cs:37 | the reader is paired as (given writer schema, the type's own schema) for the type's message class |
| TypeInfo.CreateSerializer | MassTransitKafkaDemo/Infrastructure/AvroSerializers/MultipleTypeInfo.cs:39-43 | the serializer is bound to the type's message class and records the schema registered for it |
| TypeConfig.SingleOrDefault | MassTransitKafkaDemo/Infrastructure/AvroSerializers/MultipleTypeConfig.cs:23 | no match gives none; a returned type is the only one with that full name; a failure means two distinct positions share the name |
| TypeConfig.CreateReader | MassTransitKafkaDemo/Infrastructure/AvroSerializers/MultipleTypeConfig.cs:21-29 | fails with an unexpected-type error exactly when no type has the writer's full name, and with the several-matches error exactly when two types share it; a returned reader is bound to the writer schema and to a type whose schema has that name |
| TypeConfig.DistinctNamesSelectUniquely | MassTransitKafkaDemo/Infrastructure/AvroSerializers/MultipleTypeConfig.cs:23-28 | with pairwise distinct full names the lookup never throws for several matches and returns the reader of the one matching type |
| ConfigBuilder.AddType | MassTransitKafkaDemo/Infrastructure/AvroSerializers/MultipleTypeConfigBuilder.cs:28-44 | null schema and already-present full name are rejected; it succeeds exactly otherwise, appending one entry with the given type and schema at the end and keeping full names distinct |
| ConfigBuilder.Build | MassTransitKafkaDemo/Infrastructure/AvroSerializers/MultipleTypeConfigBuilder.cs:46 | the config's types are the builder's list in order |
| ConfigBuilder.BuildIsSnapshot | MassTransitKafkaDemo/Infrastructure/AvroSerializers/MultipleTypeConfigBuilder.cs:40-46 | after a later accepted `AddType`, an earlier built config is still exactly the old list, a prefix one shorter than the new one |
| ConfigBuilder.AddAllKeepsNamesDistinct | MassTransitKafkaDemo/Infrastructure/AvroSerializers/MultipleTypeConfigBuilder.cs:36-42 | any chain of `AddType` calls from a builder with distinct full names ends in a builder with distinct full names |
| ConfigBuilder.AddAllSucceedsIff | MassTransitKafkaDemo/Infrastructure/AvroSerializers/MultipleTypeConfigBuilder.cs:28-46 | a chain of registrations succeeds if and only if every schema is present and all full names are distinct, and then appends the types in call order |
| Framing.SchemaIdIsBigEndian | MassTransitKafkaDemo/Infrastructure/AvroSerializers/MultipleTypeDeserializer.cs:71 | a little-endian `ReadInt32` followed by network-to-host byte swapping equals the documented signed big-endian read of the same four bytes |
| Framing.BigEndianRoundTrip | MassTransitKafkaDemo/Infrastructure/AvroSerializers/MultipleTypeDeserializer.cs:19-22 | writing a 32-bit signed id big-endian and reading it back gives the id |
| Framing.ParseFrame | MassTransitKafkaDemo/Infrastructure/AvroSerializers/MultipleTypeDeserializer.cs:58-74 | fewer than 5 bytes fail with the length whatever the content; otherwise a non-zero byte 0 fails whatever follows; it succeeds exactly otherwise, with the big-endian id of bytes 1-4 and the payload from offset 5 |
| Framing.ParseEncodedFrame | MassTransitKafkaDemo/Infrastructure/AvroSerializers/MultipleTypeDeserializer.cs:19-22 | parsing the frame written for any 32-bit id and payload recovers that id and payload |
| Framing.EncodeParsedFrame | MassTransitKafkaDemo/Infrastructure/AvroSerializers/MultipleTypeDeserializer.cs:63-71 | every accepted frame is exactly the encoding of the id and payload it parses to |
| Decoding.CleanCache | MassTransitKafkaDemo/Infrastructure/AvroSerializers/MultipleTypeDeserializer.cs:113-121 | the cache is either kept whole or emptied; it is kept whenever its count does not exceed the capacity |
| Decoding.FetchReader | MassTransitKafkaDemo/Infrastructure/AvroSerializers/MultipleTypeDeserializer.cs:99-102 | an id the registry cannot serve fails; otherwise the result is the config's reader for the fetched writer schema: it succeeds exactly when that full name is registered once, fails with `UnexpectedType` when it is not registered and with `MoreThanOneMatch` when it is registered more than once, and a built reader pairs the fetched writer schema with the schema of a type of that full name |
| Decoding.GetReader | MassTransitKafkaDemo/Infrastructure/AvroSerializers/MultipleTypeDeserializer.cs:84-111 | a hit returns the cached reader, changes nothing and does not fetch; a miss fetches; success leaves the id mapped to the returned reader; failure leaves no entry for the id and the cache unchanged or cleared; over capacity only the new id can remain, otherwise other entries are untouched |
| Decoding.Deserialize | MassTransitKafkaDemo/Infrastructure/AvroSerializers/MultipleTypeDeserializer.cs:54-75 | framing errors leave the cache alone and do not fetch; for a well-framed input the cache, the fetch flag and the result are those of `GetReader` for the frame's big-endian id, with a reader applied to exactly the bytes from offset 5 and a lookup error passed on unchanged |
| Decoding.GetReaderIsTransparent | MassTransitKafkaDemo/Infrastructure/AvroSerializers/MultipleTypeDeserializer.cs:84-111 | with a consistent cache, the cached lookup returns what an uncached fetch-and-build returns, and the cache stays consistent |
| Decoding.DeserializeIsTransparent | MassTransitKafkaDemo/Infrastructure/AvroSerializers/MultipleTypeDeserializer.cs:54-111 | for every input, decoding through a consistent cache equals decoding with no cache, and the cache stays consistent |
| Decoding.LookupAfterSuccessIsHit | MassTransitKafkaDemo/Infrastructure/AvroSerializers/MultipleTypeDeserializer.cs:86-105 | after a successful lookup, a second lookup of the same id does not fetch, returns the same reader and leaves the cache as it was |
| Decoding.OneFetchPerSchemaId | MassTransitKafkaDemo/Infrastructure/AvroSerializers/MultipleTypeDeserializer.cs:71-105 | of two sequential decodes of frames with the same schema id bytes, if the first succeeds and the second has a valid magic byte, the second does not consult the registry and reads its own payload with the first decode's reader |
| Decoding.UnknownSchemaLeavesNoEntry | MassTransitKafkaDemo/Infrastructure/AvroSerializers/MultipleTypeDeserializer.cs:97-103 | a frame whose id resolves to an unregistered full name fails with the unexpected-type error and leaves no cache entry for that id |
| Decoding.EvictionLeavesOnlyNewEntry | MassTransitKafkaDemo/Infrastructure/AvroSerializers/MultipleTypeDeserializer.cs:113-120 | a successful miss on a cache holding more than the capacity leaves exactly one entry, the new id |
| Decoding.GetReaderKeepsBound | MassTransitKafkaDemo/Infrastructure/AvroSerializers/MultipleTypeDeserializer.cs:97 | the cache never grows beyond one entry over the capacity |
| ReaderCache.MultipleTypeDeserializer.CleanCache | MassTransitKafkaDemo/Infrastructure/AvroSerializers/MultipleTypeDeserializer.cs:113-121 | the mutable cache field becomes what `Decoding.CleanCache` gives for its old value, and the semaphore flag is untouched |
| ReaderCache.MultipleTypeDeserializer.GetReader | MassTransitKafkaDemo/Infrastructure/AvroSerializers/MultipleTypeDeserializer.cs:84-111 | the imperative get-or-build leaves the cache field and returns the result that `Decoding.GetReader` gives, and the semaphore is released on every exit path: hit, fetch failure, unsupported type and success |
| ReaderCache.MultipleTypeDeserializer.DeserializeAsync | MassTransitKafkaDemo/Infrastructure/AvroSerializers/MultipleTypeDeserializer.cs:54-75 | the imperative decode leaves the cache field and returns the result that `Decoding.Deserialize` gives, with the semaphore released afterwards |
| Encoding.InitialiseSerializers | MassTransitKafkaDemo/Infrastructure/AvroSerializers/MultipleTypeSerializer.cs:38-45 | the map's keys are exactly the full names of the configured types, and each key holds the serializer of the last type with that name |
| Encoding.SerializeAsync | MassTransitKafkaDemo/Infrastructure/AvroSerializers/MultipleTypeSerializer.cs:47-60 | a non-record is rejected; a record whose full name has no serializer is rejected; otherwise the record is handed unchanged to the serializer keyed by its own schema full name |
| Encoding.DispatchSelectsOwnType | MassTransitKafkaDemo/Infrastructure/AvroSerializers/MultipleTypeSerializer.cs:38-59 | with distinct names a record is accepted if and only if its full name is configured, and goes to the serializer of the type with that name |
| Codec.SerializedRecordDecodesToItsType | MassTransitKafkaDemo/Infrastructure/AvroSerializers/MultipleTypeDeserializer.cs:63-105 | the frame written for a dispatched record decodes, through a consistent cache, with a reader for the same message type, bound to (record schema, that type's schema), over exactly the written body |
| Codec.RegisteredTypesAreReadable | MassTransitKafkaDemo/Infrastructure/AvroSerializers/MultipleTypeConfig.cs:21-28 | in a config built from an accepted registration chain, every registered full name yields the reader of the type registered with it |

## Left out

- The Avro binary encoding and the writer/reader schema resolution of the Apache Avro specification are foreign library calls. A decoded value is the pair (reader, payload bytes), and a failure inside `Read` is not modelled.
- `Avro.Schema.Parse` and `ISchemaRegistryClient.GetSchemaAsync` are network and library calls. They are folded into the `registry` map, where an absent id stands for either failure. The map also makes each answer permanent: an id whose fetch fails always fails, and one that succeeds always yields the same schema. `Decoding.GetReaderIsTransparent` and `Decoding.DeserializeIsTransparent` compare the cache against a registry with exactly this property.
- The inner Confluent `AvroSerializer<T>` registers schemas over the network and writes its own bytes. `SerializeAsync` returns the delegated call. `Codec.SerializedRecordDecodesToItsType` takes the id and body that serializer writes as parameters.
- Concurrency is not modelled: the `SemaphoreSlim` and the `ConcurrentDictionary`. `GetReader` is sequential, so the re-check under the semaphore is the same lookup and is not repeated. The semaphore is a ghost flag in `ReaderCache`.
- The `AggregateException` unwrapping in `DeserializeAsync` is left out. It depends on the async runtime's exception plumbing.
- The `isNull` and `SerializationContext` parameters are ignored. So are `AvroSerializerConfig`, which is passed through unchanged, and the final cast to `T`.
- Framing.SchemaIdIsBigEndian: assumes a little-endian host, where `NetworkToHostOrder` swaps bytes; on a big-endian host it is the identity and the model does not cover that case.
- TypeInfo.CreateSerializer: the source builds `AvroSerializer<T>` without the registered schema (MultipleTypeInfo.cs:41); that serializer writes with `T`'s own generated schema. The model records the registered schema in the `Serializer` token. It therefore assumes the schema passed to `AddType` is `T`'s generated schema, as `AddType`'s documentation asks but does not check.
- `ReaderWrapper`, `SerializerWrapper` and their interfaces are thin wrappers. They are modelled as the `Reader` and `Serializer` tokens.
- The generic constraint `where T : TBase, ISpecificRecord` on `AddType` is checked by the compiler. Every type reaching `AddType` is taken to be such a type, and `typeof(T)` is never null.
- The capacity test in `CleanCache` is `Count > MaxCachedSchemas`, so the cache can hold one entry more than the capacity. This is reproduced as written.
- Hosting, dependency injection, the demo producer, the consumers and the message marker interface contain no codec logic.
