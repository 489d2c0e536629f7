/** The mutable shape of `MultipleTypeDeserializer`: the reader dictionary as a
    field, `GetReader` with its double-checked lookup, and the semaphore as a
    ghost flag that every exit path releases. Each method refines its pure
    counterpart in `Decoding`. */
module ReaderCache {
  import opened Wrappers
  import opened Avro
  import TC = TypeConfig
  import opened Framing
  import D = Decoding

  class MultipleTypeDeserializer {
    const deserializer: D.Deserializer
    var readers: D.ReaderCache
    ghost var semaphoreHeld: bool

    constructor(d: D.Deserializer)
      ensures deserializer == d && readers == map[] && !semaphoreHeld
    {
      deserializer := d;
      readers := map[];
      semaphoreHeld := false;
    }

    method CleanCache()
      modifies this
      ensures readers == D.CleanCache(old(readers), deserializer.maxCachedSchemas)
      ensures semaphoreHeld == old(semaphoreHeld)
    {
      if |readers| > deserializer.maxCachedSchemas {
        readers := map[];
      }
    }

    method GetReader(schemaId: int) returns (result: Outcome<Reader>)
      requires !semaphoreHeld
      modifies this
      ensures !semaphoreHeld
      ensures var l := D.GetReader(deserializer, old(readers), schemaId);
              readers == l.readers && result == l.result
    {
      if schemaId in readers {
        return Success(readers[schemaId]);
      }
      // WaitAsync. In this sequential model nothing can insert `schemaId` while this
      // call waits, so the re-check under the semaphore always misses.
      semaphoreHeld := true;
      CleanCache();
      if schemaId !in deserializer.registry {
        semaphoreHeld := false;
        return Failure(SchemaUnavailable(schemaId));
      }
      var writerSchema := deserializer.registry[schemaId];
      var created := TC.CreateReader(deserializer.config, writerSchema);
      if created.Failure? {
        semaphoreHeld := false;
        return created;
      }
      readers := readers[schemaId := created.value];
      result := created;
      semaphoreHeld := false;
    }

    method DeserializeAsync(data: seq<Byte>) returns (result: Outcome<D.Decoded>)
      requires !semaphoreHeld
      modifies this
      ensures !semaphoreHeld
      ensures var r := D.Deserialize(deserializer, old(readers), data);
              readers == r.readers && result == r.result
    {
      if |data| < HeaderLength {
        return Failure(FrameTooShort(|data|));
      }
      if data[0] != MagicByte {
        return Failure(UnexpectedMagicByte(data[0]));
      }
      var schemaId := NetworkToHostOrder(ReadInt32(data[1..5]));
      var reader := GetReader(schemaId);
      if reader.Failure? {
        return Failure(reader.error);
      }
      result := Success(D.Decoded(reader.value, data[HeaderLength..]));
    }
  }
}
