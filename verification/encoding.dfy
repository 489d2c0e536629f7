/** `MultipleTypeSerializer`: one Confluent serializer per supported type, built
    up front and keyed by schema full name; each record is handed to the
    serializer registered under its own schema's full name. */
module Encoding {
  import opened Wrappers
  import opened Avro
  import opened TypeConfig
  import TI = TypeInfo

  /** The value given to `SerializeAsync`: either an avrogen-generated record
      (`ISpecificRecord`), which carries its schema, or any other object. The
      record's field values are opaque here. */
  datatype Message = SpecificRecord(schema: Schema, datum: string) | OtherObject

  /** The call `SerializeAsync` delegates to; its bytes are the inner
      serializer's. */
  datatype Delegated = Delegated(serializer: Serializer, data: Message)

  /** The full names of the schemas in `types`. */
  function Fullnames(types: seq<TI.TypeInfo>): set<string> {
    set j | 0 <= j < |types| :: types[j].schema.fullname
  }

  /** No type after position `j` and before `n` has the schema name of type `j`. */
  predicate LastNamed(types: seq<TI.TypeInfo>, j: int, n: int)
    requires 0 <= j < |types|
  {
    forall k :: j < k < n && k < |types| ==> types[k].schema.fullname != types[j].schema.fullname
  }

  /** `serializers` holds one entry per full name in `types`, created from the
      last type with that name (later assignments to a key overwrite earlier
      ones). */
  predicate SerializersFor(types: seq<TI.TypeInfo>, serializers: map<string, Serializer>) {
    && serializers.Keys == Fullnames(types)
    && forall j :: 0 <= j < |types| && LastNamed(types, j, |types|) ==>
         serializers[types[j].schema.fullname] == TI.CreateSerializer(types[j])
  }

  /** `InitialiseSerializers`, called from the constructor. */
  method InitialiseSerializers(config: Config) returns (serializers: map<string, Serializer>)
    ensures forall j :: 0 <= j < |config.types| ==> config.types[j].schema.fullname in serializers
    ensures SerializersFor(config.types, serializers)
  {
    var types := config.types;
    serializers := map[];
    var i := 0;
    while i < |types|
      invariant 0 <= i <= |types|
      invariant serializers.Keys == set j | 0 <= j < i :: types[j].schema.fullname
      invariant forall j :: 0 <= j < i && LastNamed(types, j, i) ==>
                  serializers[types[j].schema.fullname] == TI.CreateSerializer(types[j])
    {
      var info := types[i];
      serializers := serializers[info.schema.fullname := TI.CreateSerializer(info)];
      i := i + 1;
    }
  }

  /** `SerializeAsync`: rejects anything that is not a generated record, then any
      record whose schema has no serializer; otherwise delegates to the
      serializer registered under the record's own schema full name. The
      serializer map is read, never written. */
  function SerializeAsync(serializers: map<string, Serializer>, data: Message): (r: Outcome<Delegated>)
    ensures data.OtherObject? ==> r == Failure(NotSpecificRecord)
    ensures data.SpecificRecord? && data.schema.fullname !in serializers ==>
              r == Failure(UnregisteredType(data.schema.fullname))
    ensures r.Success? <==> data.SpecificRecord? && data.schema.fullname in serializers
    ensures r.Success? ==> r.value.data == data && r.value.serializer == serializers[data.schema.fullname]
  {
    match data
    case OtherObject => Failure(NotSpecificRecord)
    case SpecificRecord(schema, _) =>
      if schema.fullname !in serializers then Failure(UnregisteredType(schema.fullname))
      else Success(Delegated(serializers[schema.fullname], data))
  }

  /** With distinct full names every type owns its serializer, and a record is
      accepted exactly when its schema's full name is registered; it then goes to
      the serializer of the type with that name, which writes with that type's
      schema. */
  lemma {:induction false} DispatchSelectsOwnType(types: seq<TI.TypeInfo>, serializers: map<string, Serializer>, data: Message)
    requires DistinctFullnames(types) && SerializersFor(types, serializers)
    requires data.SpecificRecord?
    ensures SerializeAsync(serializers, data).Success? <==> HasFullname(types, data.schema.fullname)
    ensures forall j :: 0 <= j < |types| && types[j].schema.fullname == data.schema.fullname ==>
              SerializeAsync(serializers, data) == Success(Delegated(TI.CreateSerializer(types[j]), data))
  {
    forall j | 0 <= j < |types| && types[j].schema.fullname == data.schema.fullname
      ensures SerializeAsync(serializers, data) == Success(Delegated(TI.CreateSerializer(types[j]), data))
    {
      assert LastNamed(types, j, |types|);
      assert data.schema.fullname in Fullnames(types);
    }
    if data.schema.fullname in serializers {
      assert data.schema.fullname in Fullnames(types);
      var j :| 0 <= j < |types| && types[j].schema.fullname == data.schema.fullname;
    }
  }
}
