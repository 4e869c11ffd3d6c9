/**
 The RAG component registry: a map from component identifier to component constructor,
 where each constructor carries the schema its options are validated against.

 The registry is a value: `Register` returns the updated registry. Its keys are kept
 twice, as the map's key set and as a sequence in insertion order, which is the
 iteration order of a JavaScript `Map` and so the order `createAll` follows.

 Schema validation and construction belong to each component; they are the
 function-valued fields of `ComponentConstructor` and may fail.
 */
module Registry {
  import opened Wrappers

  /** The untyped options a caller passes in (JSON-like). */
  datatype Value =
    | Null
    | Bool(b: bool)
    | Number(n: int)
    | Str(s: string)
    | Array(items: seq<Value>)
    | Object(fields: map<string, Value>)

  /** `{}` */
  const EmptyOptions: Value := Object(map[])

  /** What `create` and `createAll` throw. */
  datatype Error =
    | UnknownComponent(message: string)   // "Unknown " followed by the identifier
    | InvalidOptions(issues: string)      // the schema's parse error
    | ConstructorFailed(reason: string)   // an error thrown by the component's constructor

  /** A component class as the registry sees it: its static `identifier`,
      `displayName` and `optionsSchema`, and its constructor. */
  datatype ComponentConstructor<C> = ComponentConstructor(
    identifier: string,
    displayName: string,
    optionsSchema: Value -> Result<Value, string>,
    construct: Value -> Result<C, string>)

  /** The outcome of one creation: the instance or the error, and the options the
      constructor was invoked with (`None` when it was never invoked). */
  datatype Attempt<C> = Attempt(result: Result<C, Error>, constructedWith: Option<Value>)

  /** `constructComponent(ctor, options)`: parse the options with the schema, then
      construct from the parsed options. */
  function ConstructComponent<C>(ctor: ComponentConstructor<C>, options: Value): (t: Attempt<C>)
    ensures t.constructedWith.Some? <==> ctor.optionsSchema(options).Success?
    ensures t.constructedWith.Some? ==> t.constructedWith.value == ctor.optionsSchema(options).value
    ensures ctor.optionsSchema(options).Failure? ==> t.result == Failure(InvalidOptions(ctor.optionsSchema(options).error))
    ensures t.result.Success? ==>
      ctor.optionsSchema(options).Success? && ctor.construct(ctor.optionsSchema(options).value) == Success(t.result.value)
    ensures t.constructedWith.Some? && ctor.construct(t.constructedWith.value).Failure? ==>
      t.result == Failure(ConstructorFailed(ctor.construct(t.constructedWith.value).error))
    ensures ctor.optionsSchema(options).Success? && ctor.construct(ctor.optionsSchema(options).value).Success? ==>
      t.result == Success(ctor.construct(ctor.optionsSchema(options).value).value)
  {
    match ctor.optionsSchema(options)
    case Failure(issues) => Attempt(Failure(InvalidOptions(issues)), None)
    case Success(parsed) =>
      match ctor.construct(parsed)
      case Failure(reason) => Attempt(Failure(ConstructorFailed(reason)), Some(parsed))
      case Success(c) => Attempt(Success(c), Some(parsed))
  }

  /** The registry: constructors by identifier, and the identifiers in insertion order. */
  datatype Registry<C> = Registry(entries: map<string, ComponentConstructor<C>>, keys: seq<string>) {

    /** The key sequence lists every key of the map exactly once. */
    predicate Valid()
    {
      && (forall i, j :: 0 <= i < j < |keys| ==> keys[i] != keys[j])
      && (forall id :: id in entries ==> id in keys)
      && (forall i :: 0 <= i < |keys| ==> keys[i] in entries)
    }
  }

  /** `new Map()` */
  function Empty<C>(): (r: Registry<C>)
    ensures r.Valid() && r.entries == map[] && r.keys == []
  {
    Registry(map[], [])
  }

  /** `register(component)`: `Map.set` under the component's identifier. */
  function Register<C>(reg: Registry<C>, c: ComponentConstructor<C>): (r: Registry<C>)
    requires reg.Valid()
    ensures r.Valid()
    ensures c.identifier in r.entries && r.entries[c.identifier] == c
    ensures forall id :: id != c.identifier ==>
      (id in r.entries <==> id in reg.entries) && (id in reg.entries ==> r.entries[id] == reg.entries[id])
    ensures c.identifier in reg.entries ==> r.keys == reg.keys
    ensures c.identifier !in reg.entries ==> r.keys == reg.keys + [c.identifier]
  {
    var keys := if c.identifier in reg.entries then reg.keys else reg.keys + [c.identifier];
    Registry(reg.entries[c.identifier := c], keys)
  }

  /** `create(identifier, options)` */
  function Create<C>(reg: Registry<C>, identifier: string, options: Value): (t: Attempt<C>)
    ensures identifier !in reg.entries ==> t == Attempt(Failure(UnknownComponent("Unknown " + identifier)), None)
    ensures identifier in reg.entries ==> t == ConstructComponent(reg.entries[identifier], options)
  {
    if identifier !in reg.entries then
      Attempt(Failure(UnknownComponent("Unknown " + identifier)), None)
    else
      ConstructComponent(reg.entries[identifier], options)
  }

  /** Creates each identifier in turn from the empty options; the first failure aborts
      the whole sequence. */
  function CreateEach<C>(reg: Registry<C>, ids: seq<string>): (r: Result<seq<C>, Error>)
    ensures r.Success? <==> forall i :: 0 <= i < |ids| ==> Create(reg, ids[i], EmptyOptions).result.Success?
    ensures r.Success? ==>
      |r.value| == |ids| && forall i :: 0 <= i < |ids| ==> Create(reg, ids[i], EmptyOptions).result == Success(r.value[i])
    ensures r.Failure? ==> exists i :: (
      && 0 <= i < |ids|
      && Create(reg, ids[i], EmptyOptions).result == Failure(r.error)
      && forall j :: 0 <= j < i ==> Create(reg, ids[j], EmptyOptions).result.Success?)
    decreases |ids|
  {
    if |ids| == 0 then Success([])
    else
      var rest := CreateEach(reg, ids[1..]);
      assert forall i :: 1 <= i < |ids| ==> ids[1..][i - 1] == ids[i];
      match Create(reg, ids[0], EmptyOptions).result
      case Failure(e) => Failure(e)
      case Success(c) =>
        match rest
        case Failure(e) =>
          var k :| 0 <= k < |ids[1..]| && Create(reg, ids[1..][k], EmptyOptions).result == Failure(e)
            && forall j :: 0 <= j < k ==> Create(reg, ids[1..][j], EmptyOptions).result.Success?;
          assert Create(reg, ids[k + 1], EmptyOptions).result == Failure(e);
          Failure(e)
        case Success(cs) => Success([c] + cs)
  }

  /** `createAll()`: one instance per registered identifier, from `{}`, in insertion
      order; the first failing creation is the error, and it is never an unknown
      identifier. */
  function CreateAll<C>(reg: Registry<C>): (r: Result<seq<C>, Error>)
    requires reg.Valid()
    ensures r.Success? ==> |r.value| == |reg.keys| == |reg.entries|
    ensures r.Success? ==> forall i :: 0 <= i < |reg.keys| ==>
      ConstructComponent(reg.entries[reg.keys[i]], EmptyOptions).result == Success(r.value[i])
    ensures r.Failure? <==> exists i :: 0 <= i < |reg.keys| && Create(reg, reg.keys[i], EmptyOptions).result.Failure?
    ensures r.Failure? ==> !r.error.UnknownComponent?
  {
    KeyCount(reg);
    CreateEach(reg, reg.keys)
  }

  /** After `register(c)`, creating `c.identifier` goes through `c`'s schema and
      constructor. */
  lemma CreateAfterRegister<C>(reg: Registry<C>, c: ComponentConstructor<C>, options: Value)
    requires reg.Valid()
    ensures Create(Register(reg, c), c.identifier, options) == ConstructComponent(c, options)
  {
  }

  /** Registering `c` leaves the creation of every other identifier as it was, known or
      unknown. */
  lemma RegisterIsLocal<C>(reg: Registry<C>, c: ComponentConstructor<C>, identifier: string, options: Value)
    requires reg.Valid()
    requires identifier != c.identifier
    ensures Create(Register(reg, c), identifier, options) == Create(reg, identifier, options)
  {
  }

  /** Re-registering an identifier keeps the number of entries and the key order, so
      `createAll` yields as many instances, in the same order, and every other position
      is created as before. */
  lemma ReRegisterKeepsOrder<C>(reg: Registry<C>, c: ComponentConstructor<C>)
    requires reg.Valid()
    requires c.identifier in reg.entries
    ensures Register(reg, c).keys == reg.keys
    ensures |Register(reg, c).entries| == |reg.entries|
    ensures forall i :: 0 <= i < |reg.keys| && reg.keys[i] != c.identifier ==>
      Create(Register(reg, c), reg.keys[i], EmptyOptions) == Create(reg, reg.keys[i], EmptyOptions)
  {
  }

  /** The registry after registering `cs` in order, starting from an empty one. */
  function RegisterAll<C>(cs: seq<ComponentConstructor<C>>): (r: Registry<C>)
    ensures r.Valid()
    decreases |cs|
  {
    if |cs| == 0 then Empty()
    else Register(RegisterAll(cs[..|cs| - 1]), cs[|cs| - 1])
  }

  /** The identifiers of `cs`, in order. */
  function Identifiers<C>(cs: seq<ComponentConstructor<C>>): (ids: seq<string>)
    ensures |ids| == |cs| && forall i :: 0 <= i < |cs| ==> ids[i] == cs[i].identifier
  {
    seq(|cs|, i requires 0 <= i < |cs| => cs[i].identifier)
  }

  /** Each element of `ids` once, at its first occurrence. */
  function FirstOccurrences(ids: seq<string>): seq<string>
    decreases |ids|
  {
    if |ids| == 0 then []
    else
      var seen := FirstOccurrences(ids[..|ids| - 1]);
      if ids[|ids| - 1] in seen then seen else seen + [ids[|ids| - 1]]
  }

  /** First occurrences keep exactly the elements of `ids`. */
  lemma {:induction false} FirstOccurrencesMembers(ids: seq<string>)
    ensures forall x :: x in FirstOccurrences(ids) <==> x in ids
    decreases |ids|
  {
    if |ids| > 0 {
      var init := ids[..|ids| - 1];
      FirstOccurrencesMembers(init);
      assert ids == init + [ids[|ids| - 1]];
    }
  }

  /** Registering `cs` one by one keeps the identifiers in the order of their first
      registration. */
  lemma {:induction false} RegisterAllOrder<C>(cs: seq<ComponentConstructor<C>>)
    ensures RegisterAll(cs).keys == FirstOccurrences(Identifiers(cs))
    decreases |cs|
  {
    if |cs| > 0 {
      var init, last := cs[..|cs| - 1], cs[|cs| - 1];
      RegisterAllOrder(init);
      var prev := RegisterAll(init);
      assert Identifiers(cs)[..|cs| - 1] == Identifiers(init);
      FirstOccurrencesMembers(Identifiers(init));
      assert last.identifier in prev.entries <==> last.identifier in prev.keys;
    }
  }

  /** Registering `cs` one by one: every identifier is registered, and maps to the last
      constructor registered under it. */
  lemma {:induction false} RegisterAllLastWins<C>(cs: seq<ComponentConstructor<C>>)
    ensures forall i :: 0 <= i < |cs| ==> cs[i].identifier in RegisterAll(cs).entries
    ensures forall i :: 0 <= i < |cs| && (forall j :: i < j < |cs| ==> cs[j].identifier != cs[i].identifier) ==>
      RegisterAll(cs).entries[cs[i].identifier] == cs[i]
    decreases |cs|
  {
    if |cs| > 0 {
      var init := cs[..|cs| - 1];
      RegisterAllLastWins(init);
      assert forall i :: 0 <= i < |init| ==> init[i] == cs[i];
      forall i | 0 <= i < |cs| && (forall j :: i < j < |cs| ==> cs[j].identifier != cs[i].identifier)
        ensures RegisterAll(cs).entries[cs[i].identifier] == cs[i]
      {
        if i < |cs| - 1 {
          assert forall j :: i < j < |init| ==> init[j].identifier != init[i].identifier;
        }
      }
    }
  }

  /** The map holds as many entries as there are keys. */
  lemma KeyCount<C>(reg: Registry<C>)
    requires reg.Valid()
    ensures |reg.entries| == |reg.keys|
  {
    var s := set i | 0 <= i < |reg.keys| :: reg.keys[i];
    assert s == reg.entries.Keys by {
      forall id | id in reg.entries ensures id in s {
        var i :| 0 <= i < |reg.keys| && reg.keys[i] == id;
      }
    }
    DistinctCount(reg.keys);
  }

  /** A sequence of distinct elements has as many elements as its set. */
  lemma {:induction false} DistinctCount(ks: seq<string>)
    requires forall i, j :: 0 <= i < j < |ks| ==> ks[i] != ks[j]
    ensures |set i | 0 <= i < |ks| :: ks[i]| == |ks|
    decreases |ks|
  {
    if |ks| > 0 {
      var init := ks[..|ks| - 1];
      DistinctCount(init);
      var s := set i | 0 <= i < |ks| :: ks[i];
      var s' := set i | 0 <= i < |init| :: init[i];
      assert s == s' + {ks[|ks| - 1]};
      assert ks[|ks| - 1] !in s';
    }
  }
}
