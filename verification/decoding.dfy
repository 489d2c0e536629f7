/** The decode path of `MultipleTypeDeserializer`: framing checks, then a reader
    from the schema-id-keyed cache, built on a miss from the writer schema the
    registry holds for that id. The cache is a value passed in and returned. */
module Decoding {
  import opened Wrappers
  import opened Avro
  import opened TypeConfig
  import opened Framing
  import TI = TypeInfo

  /** The deserializer's fixed collaborators: the supported types; the writer
      schema the schema registry yields for each id it can serve (fetch plus
      `Schema.Parse`; a missing id stands for a failed fetch or parse); and the
      registry client's `MaxCachedSchemas`. */
  datatype Deserializer = Deserializer(config: Config, registry: map<int, Schema>, maxCachedSchemas: int)

  /** The `_readers` dictionary. */
  type ReaderCache = map<int, Reader>

  /** What one `GetReader` call leaves behind: the cache afterwards, the reader or
      exception it returns, and whether it went to the schema registry. */
  datatype Lookup = Lookup(readers: ReaderCache, result: Outcome<Reader>, fetched: bool)

  /** A reader applied to the payload bytes after the header. */
  datatype Decoded = Decoded(reader: Reader, payload: seq<Byte>)

  /** What one `DeserializeAsync` call leaves behind. */
  datatype DecodeStep = DecodeStep(readers: ReaderCache, result: Outcome<Decoded>, fetched: bool)

  /** `CleanCache`: the whole cache is dropped once it holds more entries than
      the registry client's capacity, otherwise it is kept as it is. */
  function CleanCache(readers: ReaderCache, maxCachedSchemas: int): (r: ReaderCache)
    ensures r == readers || r == map[]
    ensures |r| <= maxCachedSchemas || r == map[]
    ensures |readers| <= maxCachedSchemas ==> r == readers
  {
    if |readers| > maxCachedSchemas then map[] else readers
  }

  /** The uncached construction of a reader for `schemaId`: fetch the writer
      schema, then let the config pick the registered type with the writer's full
      name. */
  function FetchReader(d: Deserializer, schemaId: int): (r: Outcome<Reader>)
    ensures schemaId !in d.registry ==> r == Failure(SchemaUnavailable(schemaId))
    ensures schemaId in d.registry && !HasFullname(d.config.types, d.registry[schemaId].fullname) ==>
              r == Failure(UnexpectedType(d.registry[schemaId].fullname))
    ensures r.Success? ==>
              && schemaId in d.registry
              && r.value.writerSchema == d.registry[schemaId]
              && exists i :: 0 <= i < |d.config.types| && d.config.types[i].schema.fullname == d.registry[schemaId].fullname
                             && r.value.readerSchema == d.config.types[i].schema
                             && r.value.messageType == d.config.types[i].messageType
    ensures schemaId in d.registry ==> r == CreateReader(d.config, d.registry[schemaId])
    ensures r.Success? <==>
              && schemaId in d.registry
              && HasFullname(d.config.types, d.registry[schemaId].fullname)
              && AtMostOne(d.config.types, d.registry[schemaId].fullname)
    ensures schemaId in d.registry && !AtMostOne(d.config.types, d.registry[schemaId].fullname) ==>
              r == Failure(MoreThanOneMatch(d.registry[schemaId].fullname))
  {
    if schemaId !in d.registry then Failure(SchemaUnavailable(schemaId))
    else CreateReader(d.config, d.registry[schemaId])
  }

  /** `GetReader`, sequentially: the double-checked lookup under the semaphore
      collapses to one lookup. A hit returns the cached reader without consulting
      the registry; a miss first cleans the cache, then fetches and builds, and
      stores the reader only if that succeeded. */
  function GetReader(d: Deserializer, readers: ReaderCache, schemaId: int): (r: Lookup)
    ensures schemaId in readers ==> r == Lookup(readers, Success(readers[schemaId]), false)
    ensures schemaId !in readers ==> r.fetched && r.result == FetchReader(d, schemaId)
    ensures r.result.Success? ==> schemaId in r.readers && r.readers[schemaId] == r.result.value
    ensures r.result.Failure? ==> schemaId !in r.readers && (r.readers == readers || r.readers == map[])
    ensures schemaId !in readers && |readers| > d.maxCachedSchemas ==> r.readers.Keys <= {schemaId}
    ensures schemaId !in readers && |readers| <= d.maxCachedSchemas ==>
              r.readers == if r.result.Success? then readers[schemaId := r.result.value] else readers
  {
    if schemaId in readers then
      Lookup(readers, Success(readers[schemaId]), false)
    else
      var cleaned := CleanCache(readers, d.maxCachedSchemas);
      match FetchReader(d, schemaId)
      case Failure(e) => Lookup(cleaned, Failure(e), true)
      case Success(reader) => Lookup(cleaned[schemaId := reader], Success(reader), true)
  }

  /** `DeserializeAsync`: framing errors are raised before the cache is touched;
      otherwise the reader for the frame's schema id reads exactly the bytes
      after the header. */
  function Deserialize(d: Deserializer, readers: ReaderCache, data: seq<Byte>): (r: DecodeStep)
    ensures |data| < HeaderLength ==> r == DecodeStep(readers, Failure(FrameTooShort(|data|)), false)
    ensures |data| >= HeaderLength && data[0] != MagicByte ==>
              r == DecodeStep(readers, Failure(UnexpectedMagicByte(data[0])), false)
    ensures r.result.Success? ==>
              && |data| >= HeaderLength && data[0] == MagicByte
              && r.result.value.payload == data[HeaderLength..]
              && var schemaId := BigEndianInt32(data[1..5]);
                 schemaId in r.readers && r.readers[schemaId] == r.result.value.reader
    ensures |data| >= HeaderLength && data[0] == MagicByte ==>
              var l := GetReader(d, readers, BigEndianInt32(data[1..5]));
              && r.readers == l.readers && r.fetched == l.fetched
              && r.result == (if l.result.Success? then Success(Decoded(l.result.value, data[HeaderLength..]))
                              else Failure(l.result.error))
  {
    match ParseFrame(data)
    case Failure(e) => DecodeStep(readers, Failure(e), false)
    case Success(frame) =>
      var lookup := GetReader(d, readers, frame.schemaId);
      match lookup.result
      case Failure(e) => DecodeStep(lookup.readers, Failure(e), lookup.fetched)
      case Success(reader) => DecodeStep(lookup.readers, Success(Decoded(reader, frame.payload)), lookup.fetched)
  }

  /** Decoding with no cache at all: the reference the cached path must agree with. */
  function DecodeUncached(d: Deserializer, data: seq<Byte>): Outcome<Decoded> {
    match ParseFrame(data)
    case Failure(e) => Failure(e)
    case Success(frame) =>
      match FetchReader(d, frame.schemaId)
      case Failure(e) => Failure(e)
      case Success(reader) => Success(Decoded(reader, frame.payload))
  }

  /** Every cached reader is the one a fresh fetch would build for its id. */
  predicate CacheConsistent(d: Deserializer, readers: ReaderCache) {
    forall k :: k in readers ==> FetchReader(d, k) == Success(readers[k])
  }

  /** The cache never holds more than one entry beyond the capacity (eviction
      happens only once the count exceeds it), and at least the entry just added. */
  function CacheBound(maxCachedSchemas: int): nat {
    if maxCachedSchemas < 0 then 1 else maxCachedSchemas + 1
  }

  /** Caching is transparent: with a consistent cache, `GetReader` returns what an
      uncached fetch would, and leaves the cache consistent. */
  lemma GetReaderIsTransparent(d: Deserializer, readers: ReaderCache, schemaId: int)
    requires CacheConsistent(d, readers)
    ensures GetReader(d, readers, schemaId).result == FetchReader(d, schemaId)
    ensures CacheConsistent(d, GetReader(d, readers, schemaId).readers)
  {
    var r := GetReader(d, readers, schemaId);
    forall k | k in r.readers
      ensures FetchReader(d, k) == Success(r.readers[k])
    {
      if k != schemaId {
        assert k in readers;
      }
    }
  }

  /** Decoding through a consistent cache gives the uncached result, for every
      input, and keeps the cache consistent. */
  lemma {:induction false} DeserializeIsTransparent(d: Deserializer, readers: ReaderCache, data: seq<Byte>)
    requires CacheConsistent(d, readers)
    ensures Deserialize(d, readers, data).result == DecodeUncached(d, data)
    ensures CacheConsistent(d, Deserialize(d, readers, data).readers)
  {
    var p := ParseFrame(data);
    if p.Success? {
      GetReaderIsTransparent(d, readers, p.value.schemaId);
    }
  }

  /** A second lookup of an id whose first lookup succeeded is a hit: no registry
      fetch, and the same reader. */
  lemma LookupAfterSuccessIsHit(d: Deserializer, readers: ReaderCache, schemaId: int)
    requires GetReader(d, readers, schemaId).result.Success?
    ensures var first := GetReader(d, readers, schemaId);
            var second := GetReader(d, first.readers, schemaId);
            && !second.fetched && second.result == first.result && second.readers == first.readers
  {
  }

  /** Two sequential decodes of frames carrying the same schema id consult the
      registry at most once: when the first succeeds, the second is a cache hit
      that reads its own payload with the same reader. */
  lemma {:induction false} OneFetchPerSchemaId(d: Deserializer, readers: ReaderCache, data1: seq<Byte>, data2: seq<Byte>)
    requires |data1| >= HeaderLength && |data2| >= HeaderLength && data1[1..5] == data2[1..5]
    ensures var first := Deserialize(d, readers, data1);
            var second := Deserialize(d, first.readers, data2);
            first.result.Success? && data2[0] == MagicByte ==>
              && !second.fetched && second.readers == first.readers
              && second.result == Success(Decoded(first.result.value.reader, data2[HeaderLength..]))
  {
    var first := Deserialize(d, readers, data1);
    if first.result.Success? {
      LookupAfterSuccessIsHit(d, readers, BigEndianInt32(data1[1..5]));
    }
  }

  /** A frame whose schema id the registry resolves to an unregistered full name
      fails with `UnexpectedType`, and the cache keeps no entry for that id. */
  lemma {:induction false} UnknownSchemaLeavesNoEntry(d: Deserializer, readers: ReaderCache, data: seq<Byte>)
    requires |data| >= HeaderLength && data[0] == MagicByte
    ensures var id := BigEndianInt32(data[1..5]);
            var r := Deserialize(d, readers, data);
            id !in readers && id in d.registry && !HasFullname(d.config.types, d.registry[id].fullname) ==>
              && r.result == Failure(UnexpectedType(d.registry[id].fullname))
              && id !in r.readers && r.fetched
  {
  }

  /** The eviction policy is a full flush, not LRU: a miss on a cache holding
      more than the capacity leaves only the new entry. */
  lemma EvictionLeavesOnlyNewEntry(d: Deserializer, readers: ReaderCache, schemaId: int)
    requires schemaId !in readers && |readers| > d.maxCachedSchemas
    requires GetReader(d, readers, schemaId).result.Success?
    ensures GetReader(d, readers, schemaId).readers.Keys == {schemaId}
    ensures |GetReader(d, readers, schemaId).readers| == 1
  {
    var r := GetReader(d, readers, schemaId);
    assert r.readers.Keys == {schemaId};
  }

  /** The cache size stays within `CacheBound`. */
  lemma {:induction false} GetReaderKeepsBound(d: Deserializer, readers: ReaderCache, schemaId: int)
    requires |readers| <= CacheBound(d.maxCachedSchemas)
    ensures |GetReader(d, readers, schemaId).readers| <= CacheBound(d.maxCachedSchemas)
  {
    var r := GetReader(d, readers, schemaId);
    if schemaId !in readers {
      if |readers| > d.maxCachedSchemas {
        assert |r.readers.Keys| <= |{schemaId}| by {
          SubsetCardinality(r.readers.Keys, {schemaId});
        }
        assert |r.readers| == |r.readers.Keys|;
      }
    }
  }

  lemma SubsetCardinality<T>(a: set<T>, b: set<T>)
    requires a <= b
    ensures |a| <= |b|
  {
    if a != {} {
      var x :| x in a;
      SubsetCardinality(a - {x}, b - {x});
    }
  }
}
