/** `MultipleTypeConfig`: the fixed, ordered set of supported types, looked up by
    schema full name when a reader is needed for a writer schema. */
module TypeConfig {
  import opened Wrappers
  import opened Avro
  import TI = TypeInfo

  datatype Config = Config(types: seq<TI.TypeInfo>)

  /** No two types share a schema full name. */
  predicate DistinctFullnames(types: seq<TI.TypeInfo>) {
    forall i, j :: 0 <= i < j < |types| ==> types[i].schema.fullname != types[j].schema.fullname
  }

  /** Some type in `types` has a schema named `fullname`. */
  predicate HasFullname(types: seq<TI.TypeInfo>, fullname: string) {
    exists i :: 0 <= i < |types| && types[i].schema.fullname == fullname
  }

  /** At most one type in `types` has a schema named `fullname`. */
  predicate AtMostOne(types: seq<TI.TypeInfo>, fullname: string) {
    forall i, j ::
      (0 <= i < |types| && 0 <= j < |types| &&
       types[i].schema.fullname == fullname && types[j].schema.fullname == fullname) ==> i == j
  }

  /** LINQ `SingleOrDefault` with the predicate "schema full name equals
      `fullname`": no match gives `None`, exactly one gives that element, and more
      than one throws. */
  function SingleOrDefault(types: seq<TI.TypeInfo>, fullname: string): (r: Outcome<Option<TI.TypeInfo>>)
    ensures r == Success(None) <==> !HasFullname(types, fullname)
    ensures r.Success? && r.value.Some? ==>
              && r.value.value in types
              && r.value.value.schema.fullname == fullname
              && AtMostOne(types, fullname)
    ensures r.Failure? ==>
              && r.error == MoreThanOneMatch(fullname)
              && exists i, j :: 0 <= i < j < |types| && types[i].schema.fullname == fullname
                                  && types[j].schema.fullname == fullname
    decreases |types|
  {
    if |types| == 0 then Success(None)
    else
      var rest := SingleOrDefault(types[1..], fullname);
      if types[0].schema.fullname != fullname then
        assert forall i :: 0 < i < |types| ==> types[i] == types[1..][i - 1];
        rest
      else
        match rest
        case Success(None) => Success(Some(types[0]))
        case Success(Some(other)) => 
          assert types[1..][0] == types[1];
          Failure(MoreThanOneMatch(fullname))
        case Failure(e) => Failure(e)
  }

  /** A reader for data written with `writerSchema`: the one type whose schema has
      the writer schema's full name supplies the reader schema. */
  function CreateReader(config: Config, writerSchema: Schema): (r: Outcome<Reader>)
    ensures !HasFullname(config.types, writerSchema.fullname) <==> r == Failure(UnexpectedType(writerSchema.fullname))
    ensures !AtMostOne(config.types, writerSchema.fullname) <==> r == Failure(MoreThanOneMatch(writerSchema.fullname))
    ensures r.Success? ==>
              exists i :: 0 <= i < |config.types| && config.types[i].schema.fullname == writerSchema.fullname
                          && r.value == TI.CreateReader(config.types[i], writerSchema)
    ensures r.Failure? ==> r.error in {UnexpectedType(writerSchema.fullname), MoreThanOneMatch(writerSchema.fullname)}
  {
    match SingleOrDefault(config.types, writerSchema.fullname)
    case Failure(e) => Failure(e)
    case Success(None) => Failure(UnexpectedType(writerSchema.fullname))
    case Success(Some(info)) => Success(TI.CreateReader(info, writerSchema))
  }

  /** With distinct full names the match is unique: `SingleOrDefault` never
      throws, and `CreateReader` succeeds exactly for the registered names, with
      the registered type's reader schema. */
  lemma {:induction false} DistinctNamesSelectUniquely(config: Config, writerSchema: Schema, k: int)
    requires DistinctFullnames(config.types)
    requires 0 <= k < |config.types| && config.types[k].schema.fullname == writerSchema.fullname
    ensures CreateReader(config, writerSchema) == Success(TI.CreateReader(config.types[k], writerSchema))
  {
    var r := SingleOrDefault(config.types, writerSchema.fullname);
    assert r.Success? && r.value.Some?;
    var i :| 0 <= i < |config.types| && config.types[i] == r.value.value;
    assert i == k;
  }
}
