/** `MultipleTypeConfigBuilder`: accumulates supported types one at a time,
    refusing duplicates, and snapshots them into a `MultipleTypeConfig`. */
module ConfigBuilder {
  import opened Wrappers
  import opened Avro
  import TI = TypeInfo
  import opened TypeConfig

  /** The builder's accumulated list of types, in the order they were added. */
  datatype Builder = Builder(types: seq<TI.TypeInfo>)

  /** A freshly constructed builder. */
  const Empty: Builder := Builder([])

  /** `AddType<T>(readerSchema)`. A rejected call throws, so the caller's builder
      keeps its list; an accepted one yields the list with one entry appended. */
  function AddType(b: Builder, messageType: MessageType, readerSchema: Option<Schema>): (r: Outcome<Builder>)
    ensures readerSchema.None? ==> r == Failure(ArgumentNull("readerSchema"))
    ensures readerSchema.Some? && HasFullname(b.types, readerSchema.value.fullname) ==>
              r == Failure(DuplicateSchema(readerSchema.value.fullname))
    ensures r.Success? <==> readerSchema.Some? && !HasFullname(b.types, readerSchema.value.fullname)
    ensures r.Success? ==> r.value.types == b.types + [TI.TypeInfo(messageType, readerSchema.value)]
    ensures r.Success? && DistinctFullnames(b.types) ==> DistinctFullnames(r.value.types)
  {
    match readerSchema
    case None => Failure(ArgumentNull("readerSchema"))
    case Some(schema) =>
      if exists i :: 0 <= i < |b.types| && b.types[i].schema.fullname == schema.fullname then
        Failure(DuplicateSchema(schema.fullname))
      else
        var info := TI.NewTypeInfo(Some(messageType), Some(schema)).value;
        Success(Builder(b.types + [info]))
  }

  /** `Build()`: a config holding a copy of the list as it is now. */
  function Build(b: Builder): (c: Config)
    ensures c.types == b.types
  {
    Config(b.types)
  }

  /** One `AddType<T>(schema)` call of a fluent registration chain. */
  datatype Registration = Registration(messageType: MessageType, readerSchema: Option<Schema>)

  /** A chain of `AddType` calls; the first rejected call ends the chain. */
  function AddAll(b: Builder, regs: seq<Registration>): Outcome<Builder>
    decreases |regs|
  {
    if |regs| == 0 then Success(b)
    else
      match AddType(b, regs[0].messageType, regs[0].readerSchema)
      case Failure(e) => Failure(e)
      case Success(b') => AddAll(b', regs[1..])
  }

  /** Every registration supplies a schema. */
  predicate AllSchemasPresent(regs: seq<Registration>) {
    forall i :: 0 <= i < |regs| ==> regs[i].readerSchema.Some?
  }

  /** The types a fully accepted chain appends, in order. */
  function Appended(regs: seq<Registration>): (ts: seq<TI.TypeInfo>)
    requires AllSchemasPresent(regs)
    ensures |ts| == |regs|
    ensures forall i :: 0 <= i < |regs| ==>
              ts[i] == TI.TypeInfo(regs[i].messageType, regs[i].readerSchema.value)
    decreases |regs|
  {
    if |regs| == 0 then []
    else [TI.TypeInfo(regs[0].messageType, regs[0].readerSchema.value)] + Appended(regs[1..])
  }

  /** Every builder reachable from a builder with distinct full names keeps
      them distinct. */
  lemma {:induction false} AddAllKeepsNamesDistinct(b: Builder, regs: seq<Registration>)
    requires DistinctFullnames(b.types)
    ensures AddAll(b, regs).Success? ==> DistinctFullnames(AddAll(b, regs).value.types)
    decreases |regs|
  {
    if |regs| > 0 {
      var step := AddType(b, regs[0].messageType, regs[0].readerSchema);
      if step.Success? {
        AddAllKeepsNamesDistinct(step.value, regs[1..]);
      }
    }
  }

  lemma {:induction false} AllSchemasPresentCons(regs: seq<Registration>)
    requires |regs| > 0
    ensures AllSchemasPresent(regs) <==> regs[0].readerSchema.Some? && AllSchemasPresent(regs[1..])
  {
    if regs[0].readerSchema.Some? && AllSchemasPresent(regs[1..]) {
      forall i | 0 <= i < |regs| ensures regs[i].readerSchema.Some? {
        if i > 0 {
          assert regs[i] == regs[1..][i - 1];
        }
      }
    }
  }

  /** Accepting the first registration moves its type from the pending ones to
      the builder's list. */
  lemma {:induction false} AppendedStep(b: Builder, regs: seq<Registration>)
    requires |regs| > 0 && AllSchemasPresent(regs)
    ensures AllSchemasPresent(regs[1..])
    ensures (b.types + [TI.TypeInfo(regs[0].messageType, regs[0].readerSchema.value)]) + Appended(regs[1..])
            == b.types + Appended(regs)
  {
    AllSchemasPresentCons(regs);
    var t0 := TI.TypeInfo(regs[0].messageType, regs[0].readerSchema.value);
    assert Appended(regs) == [t0] + Appended(regs[1..]);
  }

  /** An accepted chain had every schema and distinct names, and appended the
      registered types in call order. */
  lemma {:induction false} AddAllAccepted(b: Builder, regs: seq<Registration>)
    requires DistinctFullnames(b.types)
    requires AddAll(b, regs).Success?
    ensures AllSchemasPresent(regs) && DistinctFullnames(b.types + Appended(regs))
    ensures AddAll(b, regs).value.types == b.types + Appended(regs)
    decreases |regs|
  {
    if |regs| == 0 {
      assert b.types + Appended(regs) == b.types;
    } else {
      var step := AddType(b, regs[0].messageType, regs[0].readerSchema);
      AddAllAccepted(step.value, regs[1..]);
      AllSchemasPresentCons(regs);
      AppendedStep(b, regs);
    }
  }

  /** A chain with every schema present and distinct names is accepted. */
  lemma {:induction false} AddAllAccepts(b: Builder, regs: seq<Registration>)
    requires AllSchemasPresent(regs) && DistinctFullnames(b.types + Appended(regs))
    ensures AddAll(b, regs) == Success(Builder(b.types + Appended(regs)))
    decreases |regs|
  {
    if |regs| == 0 {
      assert b.types + Appended(regs) == b.types;
    } else {
      var all := b.types + Appended(regs);
      var name := regs[0].readerSchema.value.fullname;
      assert all[|b.types|] == Appended(regs)[0];
      forall j | 0 <= j < |b.types| ensures b.types[j].schema.fullname != name {
        assert all[j] == b.types[j];
      }
      var step := AddType(b, regs[0].messageType, regs[0].readerSchema);
      AppendedStep(b, regs);
      AddAllAccepts(step.value, regs[1..]);
    }
  }

  /** A registration chain succeeds exactly when every schema is present and all
      full names, old and new, are distinct; it then appends the registered types
      in call order. */
  lemma {:induction false} AddAllSucceedsIff(b: Builder, regs: seq<Registration>)
    requires DistinctFullnames(b.types)
    ensures AddAll(b, regs).Success? <==>
              AllSchemasPresent(regs) && DistinctFullnames(b.types + Appended(regs))
    ensures AddAll(b, regs).Success? ==> AddAll(b, regs).value.types == b.types + Appended(regs)
  {
    if AddAll(b, regs).Success? {
      AddAllAccepted(b, regs);
    }
    if AllSchemasPresent(regs) && DistinctFullnames(b.types + Appended(regs)) {
      AddAllAccepts(b, regs);
    }
  }

  /** `Build` takes a snapshot: a later accepted `AddType` extends the builder's
      list, but the config built before it still holds exactly the earlier list,
      which is a prefix of any config built afterwards. */
  lemma BuildIsSnapshot(b: Builder, messageType: MessageType, readerSchema: Option<Schema>)
    requires AddType(b, messageType, readerSchema).Success?
    ensures Build(b).types == Build(AddType(b, messageType, readerSchema).value).types[..|b.types|]
    ensures |Build(AddType(b, messageType, readerSchema).value).types| == |Build(b).types| + 1
  {
  }
}
