/** What each public operation of SparqlModel does, as functions from the entity's
    URN and the store's triples to the operation's result and the new triples.
    The SparqlModel class proves its methods against these; the lemmas here state
    what the operations promise. */
module Operations {
  import opened RubyStrings
  import opened RubyValues
  import opened TripleStore
  import opened Schema

  /** What the get mode of `update` returns: one coerced value, an Array of them, or nil. */
  datatype Reading = One(value: Coerced) | Many(values: seq<Coerced>) | NoReading

  // ---------------------------------------------------------------------------
  // add

  /** `add`: the triple to insert, or the first check that raises. The checks run
      in this order: urn set, attribute exists, type declared, value class,
      cardinality MULTI, predicate declared. */
  function AddTriple(attrs: Attributes, urn: Option<string>, key: Key, v: Value): (r: Result<Triple, Error>)
    ensures var d := Lookup(attrs, ToSym(key));
      r.Success? <==> urn.Some? && d.Some? && d.value.valueType.Some? && TypeAccepts(d.value.valueType.value, v)
                      && d.value.cardinality == MULTI && d.value.pred.Some?
    ensures r.Success? ==> r.value == Triple(urn.value, Lookup(attrs, ToSym(key)).value.pred.value, v)
    ensures urn.None? ==> r == Failure(UrnNotSet)
    ensures urn.Some? && Lookup(attrs, ToSym(key)).None? ==> r == Failure(AttributeNotFound(ToSym(key)))
    ensures var d := Lookup(attrs, ToSym(key));
      urn.Some? && d.Some? && d.value.valueType.None? ==> r == Failure(TypeNotSpecified)
    ensures var d := Lookup(attrs, ToSym(key));
      urn.Some? && d.Some? && d.value.valueType.Some? && !TypeAccepts(d.value.valueType.value, v) ==>
        r == Failure(TypeClassCheck(d.value.valueType.value, v).error)
    ensures var d := Lookup(attrs, ToSym(key));
      urn.Some? && d.Some? && d.value.valueType.Some? && TypeAccepts(d.value.valueType.value, v) && d.value.cardinality != MULTI ==>
        r == Failure(NotMulti(ToSym(key)))
  {
    var k := ToSym(key);
    :- UrnCheck(urn);
    :- AttrCheck(attrs, k);
    var cls :- TypeOf(attrs, k);
    :- TypeClassCheck(cls, v);
    :- MultiCheck(attrs, k);
    var p :- PredOf(attrs, k);
    Success(Triple(urn.value, p, v))
  }

  function AddEffect(attrs: Attributes, urn: Option<string>, key: Key, v: Value, ts: seq<Triple>): (Outcome<Error>, seq<Triple>)
  {
    match AddTriple(attrs, urn, key, v)
    case Failure(e) => (Fail(e), ts)
    case Success(t) => (Pass, Inserted(ts, t))
  }

  /** A failing `add` leaves the store as it was; a successful one inserts the one
      triple (urn, pred(key), value) and removes nothing. */
  lemma AddInsertsOne(attrs: Attributes, urn: Option<string>, key: Key, v: Value, ts: seq<Triple>)
    ensures AddEffect(attrs, urn, key, v, ts).0.Fail? ==> AddEffect(attrs, urn, key, v, ts).1 == ts
    ensures AddEffect(attrs, urn, key, v, ts).0.Pass? ==>
      var t := Triple(urn.value, Lookup(attrs, ToSym(key)).value.pred.value, v);
      var ts' := AddEffect(attrs, urn, key, v, ts).1;
      (forall u :: u in ts' <==> u in ts || u == t) && ts'[..|ts|] == ts && |ts'| <= |ts| + 1
  {
  }

  /** Adds accumulate: after two successful adds under one key, both values are
      stored, and a value of the same class as the first always passes. */
  lemma AddAccumulates(attrs: Attributes, urn: Option<string>, key: Key, v1: Value, v2: Value, ts: seq<Triple>)
    requires AddEffect(attrs, urn, key, v1, ts).0.Pass?
    ensures ClassOf(v2) == ClassOf(v1) ==> AddEffect(attrs, urn, key, v2, AddEffect(attrs, urn, key, v1, ts).1).0.Pass?
    ensures var ts1 := AddEffect(attrs, urn, key, v1, ts).1;
      var ts2 := AddEffect(attrs, urn, key, v2, ts1).1;
      var p := Lookup(attrs, ToSym(key)).value.pred.value;
      AddEffect(attrs, urn, key, v2, ts1).0.Pass? ==>
        v1 in ObjectsOf(ts2, urn.value, p) && v2 in ObjectsOf(ts2, urn.value, p)
  {
  }

  // ---------------------------------------------------------------------------
  // delete

  /** `delete`: the pattern handed to the store; a nil value is the wildcard. */
  function DeleteTarget(attrs: Attributes, urn: Option<string>, key: Key, v: Value): (r: Result<Pattern, Error>)
    ensures var d := Lookup(attrs, ToSym(key));
      r.Success? <==> urn.Some? && d.Some? && d.value.pred.Some?
    ensures r.Success? ==> r.value.subject == urn.value && r.value.pred == Lookup(attrs, ToSym(key)).value.pred.value
    ensures r.Success? ==> (r.value.obj == None <==> v.Nil?) && (!v.Nil? ==> r.value.obj == Some(v))
    ensures urn.None? ==> r == Failure(UrnNotSet)
    ensures urn.Some? && Lookup(attrs, ToSym(key)).None? ==> r == Failure(AttributeNotFound(ToSym(key)))
  {
    var k := ToSym(key);
    :- UrnCheck(urn);
    :- AttrCheck(attrs, k);
    var p :- PredOf(attrs, k);
    Success(Pattern(urn.value, p, if v.Nil? then None else Some(v)))
  }

  function DeleteEffect(attrs: Attributes, urn: Option<string>, key: Key, v: Value, ts: seq<Triple>): (Outcome<Error>, seq<Triple>)
  {
    match DeleteTarget(attrs, urn, key, v)
    case Failure(e) => (Fail(e), ts)
    case Success(pat) => (Pass, Without(ts, pat))
  }

  /** `delete` with no value clears every value of the attribute, with a value
      removes just that triple; every other triple stays. */
  lemma DeleteRemovesMatching(attrs: Attributes, urn: Option<string>, key: Key, v: Value, ts: seq<Triple>)
    ensures DeleteEffect(attrs, urn, key, v, ts).0.Fail? ==> DeleteEffect(attrs, urn, key, v, ts).1 == ts
    ensures DeleteEffect(attrs, urn, key, v, ts).0.Pass? ==>
      var p := Lookup(attrs, ToSym(key)).value.pred.value;
      var ts' := DeleteEffect(attrs, urn, key, v, ts).1;
      (v.Nil? ==> ObjectsOf(ts', urn.value, p) == [] &&
                  forall u :: u in ts' <==> u in ts && (u.subject, u.pred) != (urn.value, p)) &&
      (!v.Nil? ==> forall u :: u in ts' <==> u in ts && u != Triple(urn.value, p, v))
  {
    if DeleteEffect(attrs, urn, key, v, ts).0.Pass? && v.Nil? {
      var p := Lookup(attrs, ToSym(key)).value.pred.value;
      NoObjects(DeleteEffect(attrs, urn, key, v, ts).1, urn.value, p);
    }
  }

  // ---------------------------------------------------------------------------
  // update

  /** The set mode of `update` after `urn?` and `attr?`: type declared, value
      class, cardinality SINGLE, predicate declared. */
  function SetTriple(attrs: Attributes, urn: string, key: Key, v: Value): (r: Result<Triple, Error>)
    requires Lookup(attrs, key).Some?
    ensures var d := Lookup(attrs, key).value;
      r.Success? <==> d.valueType.Some? && TypeAccepts(d.valueType.value, v) && d.cardinality == SINGLE && d.pred.Some?
    ensures r.Success? ==> r.value == Triple(urn, Lookup(attrs, key).value.pred.value, v)
    ensures var d := Lookup(attrs, key).value;
      d.valueType.Some? && TypeAccepts(d.valueType.value, v) && d.cardinality != SINGLE ==> r == Failure(NotSingle(key))
  {
    var cls :- TypeOf(attrs, key);
    :- TypeClassCheck(cls, v);
    :- SingleCheck(attrs, key);
    var p :- PredOf(attrs, key);
    Success(Triple(urn, p, v))
  }

  /** `to_s` of each element of an Array the store gives back. */
  function TextsOf(items: seq<Value>): seq<string>
  {
    seq(|items|, i requires 0 <= i < |items| => Lexical(items[i]))
  }

  /** `data_value` over every element of an Array, stopping at the first raise. */
  function CoerceAll(attrs: Attributes, key: Key, texts: seq<string>): (r: Result<seq<Coerced>, Error>)
    ensures r.Failure? <==> |texts| > 0 && TypeOf(attrs, key).Failure?
    ensures r.Failure? ==> r.error == TypeOf(attrs, key).error
    ensures r.Success? ==> |r.value| == |texts|
  {
    if texts == [] then Success([])
    else
      var n := |texts| - 1;
      match CoerceAll(attrs, key, texts[..n])
      case Failure(e) => Failure(e)
      case Success(init) =>
        match DataValue(attrs, key, texts[n])
        case Failure(e) => Failure(e)
        case Success(c) =>
          Success(init + [c])
  }

  /** Element `i` of a successful CoerceAll is `data_value` of element `i`. */
  lemma {:induction false} CoerceAllAt(attrs: Attributes, key: Key, texts: seq<string>, i: nat)
    requires CoerceAll(attrs, key, texts).Success? && i < |texts|
    ensures DataValue(attrs, key, texts[i]) == Success(CoerceAll(attrs, key, texts).value[i])
  {
    var n := |texts| - 1;
    var init := CoerceAll(attrs, key, texts[..n]).value;
    assert CoerceAll(attrs, key, texts).value == init + [DataValue(attrs, key, texts[n]).value];
    if i < n {
      CoerceAllAt(attrs, key, texts[..n], i);
      assert texts[..n][i] == texts[i];
    }
  }

  lemma CoerceAllEach(attrs: Attributes, key: Key, texts: seq<string>)
    requires CoerceAll(attrs, key, texts).Success?
    ensures forall i | 0 <= i < |texts| ::
      DataValue(attrs, key, texts[i]) == Success(CoerceAll(attrs, key, texts).value[i])
  {
    forall i | 0 <= i < |texts|
      ensures DataValue(attrs, key, texts[i]) == Success(CoerceAll(attrs, key, texts).value[i])
    {
      CoerceAllAt(attrs, key, texts, i);
    }
  }

  /** The get mode of `update` after `urn?` and `attr?`: a String the store gives
      back is coerced once, an Array element by element in order; anything else
      reads as nil. */
  function ReadSpec(attrs: Attributes, ts: seq<Triple>, urn: string, key: Key): (r: Result<Reading, Error>)
    ensures PredOf(attrs, key).Failure? ==> r == Failure(PredOf(attrs, key).error)
    ensures PredOf(attrs, key).Success? ==>
      var sval := ValueIn(ts, urn, PredOf(attrs, key).value);
      (sval.Str? ==> (r.Success? <==> TypeOf(attrs, key).Success?) &&
                     (r.Success? ==> r.value == One(DataValue(attrs, key, sval.s).value))) &&
      (sval.Arr? ==> (r.Success? <==> |sval.items| == 0 || TypeOf(attrs, key).Success?) &&
                     (r.Success? ==>
                        r.value.Many? && |r.value.values| == |sval.items| &&
                        (forall i | 0 <= i < |sval.items| ::
                           DataValue(attrs, key, Lexical(sval.items[i])) == Success(r.value.values[i])))) &&
      (!sval.Str? && !sval.Arr? ==> r == Success(NoReading))
  {
    var p :- PredOf(attrs, key);
    match ValueIn(ts, urn, p)
    case Str(s) =>
      var c :- DataValue(attrs, key, s);
      Success(One(c))
    case Arr(items) =>
      var cs :- CoerceAll(attrs, key, TextsOf(items));
      CoerceAllEach(attrs, key, TextsOf(items));
      Success(Many(cs))
    case _ => Success(NoReading)
  }

  /** `update( key, value )`: with a nil value a read, otherwise an overwrite. */
  function UpdateEffect(attrs: Attributes, urn: Option<string>, key: Key, v: Value, ts: seq<Triple>): (Result<Reading, Error>, seq<Triple>)
  {
    if urn.None? then (Failure(UrnNotSet), ts)
    else if Lookup(attrs, key).None? then (Failure(AttributeNotFound(key)), ts)
    else if v.Nil? then (ReadSpec(attrs, ts, urn.value, key), ts)
    else match SetTriple(attrs, urn.value, key, v)
      case Failure(e) => (Failure(e), ts)
      case Success(t) => (Success(NoReading), Replaced(ts, t))
  }

  /** `update` never writes in get mode; in set mode it fails without writing, or
      leaves exactly the new value under (urn, pred(key)) and every other triple. */
  lemma UpdateOverwrites(attrs: Attributes, urn: Option<string>, key: Key, v: Value, ts: seq<Triple>)
    ensures v.Nil? || UpdateEffect(attrs, urn, key, v, ts).0.Failure? ==> UpdateEffect(attrs, urn, key, v, ts).1 == ts
    ensures !v.Nil? && UpdateEffect(attrs, urn, key, v, ts).0.Success? ==>
      var p := Lookup(attrs, key).value.pred.value;
      var ts' := UpdateEffect(attrs, urn, key, v, ts).1;
      ObjectsOf(ts', urn.value, p) == [v] &&
      forall u :: u in ts' <==> u == Triple(urn.value, p, v) || (u in ts && (u.subject, u.pred) != (urn.value, p))
  {
    if !v.Nil? && UpdateEffect(attrs, urn, key, v, ts).0.Success? {
      ReplacedObjects(ts, SetTriple(attrs, urn.value, key, v).value);
    }
  }

  /** Reading right after a successful set gives the value's text, coerced by the
      declared type. */
  lemma SetThenGet(attrs: Attributes, urn: Option<string>, key: Key, v: Value, ts: seq<Triple>)
    requires !v.Nil? && UpdateEffect(attrs, urn, key, v, ts).0.Success?
    ensures DataValue(attrs, key, Lexical(v)).Success?
    ensures UpdateEffect(attrs, urn, key, Nil, UpdateEffect(attrs, urn, key, v, ts).1).0
      == Success(One(DataValue(attrs, key, Lexical(v)).value))
  {
    var t := SetTriple(attrs, urn.value, key, v).value;
    ReplacedObjects(ts, t);
  }

  /** As written, `data_value` has no branch for `::Float`: an attribute declared
      Float takes a Float value, and reading it straight back gives nil. */
  lemma FloatReadsNil(attrs: Attributes, urn: Option<string>, key: Key, x: string, ts: seq<Triple>, p: string, req: Flag)
    requires urn.Some? && Lookup(attrs, key) == Some(Descriptor(Some(p), Some(FloatClass), SINGLE, req))
    ensures UpdateEffect(attrs, urn, key, Float(x), ts).0 == Success(NoReading)
    ensures UpdateEffect(attrs, urn, key, Nil, UpdateEffect(attrs, urn, key, Float(x), ts).1).0 == Success(One(NoCoercion))
  {
    SetThenGet(attrs, urn, key, Float(x), ts);
  }

  /** With the coercion `data_value` evidently means, a value set under String,
      Integer or Float is read back from its stored text by that class's
      conversion, and a Float as a float. */
  lemma IntendedSetThenGet(attrs: Attributes, urn: Option<string>, key: Key, v: Value, ts: seq<Triple>)
    requires !v.Nil? && UpdateEffect(attrs, urn, key, v, ts).0.Success?
    requires TypeOf(attrs, key).Success? && TypeOf(attrs, key).value in {StringClass, IntegerClass, FloatClass}
    ensures ValueIn(UpdateEffect(attrs, urn, key, v, ts).1, urn.value, PredOf(attrs, key).value) == Str(Lexical(v))
    ensures IntendedDataValue(attrs, key, Lexical(v)).Success?
    ensures IntendedDataValue(attrs, key, Lexical(v)).value != NoCoercion
    ensures IntendedDataValue(attrs, key, Lexical(v)).value.text == Lexical(v)
    ensures TypeOf(attrs, key).value == FloatClass ==> IntendedDataValue(attrs, key, Lexical(v)) == Success(AsFloat(Lexical(v)))
  {
    var t := SetTriple(attrs, urn.value, key, v).value;
    ReplacedObjects(ts, t);
  }

  /** After `delete` without a value, reading the attribute gives nil. */
  lemma DeleteThenGet(attrs: Attributes, urn: Option<string>, key: Key, ts: seq<Triple>)
    requires key.SymKey?
    requires DeleteEffect(attrs, urn, key, Nil, ts).0.Pass?
    ensures UpdateEffect(attrs, urn, key, Nil, DeleteEffect(attrs, urn, key, Nil, ts).1).0 == Success(NoReading)
  {
    DeleteRemovesMatching(attrs, urn, key, Nil, ts);
  }

  // ---------------------------------------------------------------------------
  // change

  /** A call `change` makes. */
  datatype Call = UpdateCall(key: Key, value: Value) | AddCall(key: Key, value: Value)

  /** The `case` in `change`: SINGLE is one update, MULTI one add per Array element
      or one add for a scalar, and any other flag no call at all. */
  function CallsFor(flag: Flag, key: Key, v: Value): (calls: seq<Call>)
  {
    if flag == SINGLE then [UpdateCall(key, v)]
    else if flag == MULTI then
      if v.Arr? then seq(|v.items|, i requires 0 <= i < |v.items| => AddCall(key, v.items[i]))
      else [AddCall(key, v)]
    else []
  }

  function CallEffect(attrs: Attributes, urn: Option<string>, c: Call, ts: seq<Triple>): (Outcome<Error>, seq<Triple>)
  {
    match c
    case UpdateCall(k, v) =>
      var (r, ts') := UpdateEffect(attrs, urn, k, v, ts);
      (if r.Failure? then Fail(r.error) else Pass, ts')
    case AddCall(k, v) => AddEffect(attrs, urn, k, v, ts)
  }

  /** Calls run in order; the first that raises ends the run, its writes and those
      before it staying in the store. */
  function Run(attrs: Attributes, urn: Option<string>, calls: seq<Call>, ts: seq<Triple>): (Outcome<Error>, seq<Triple>)
    decreases |calls|
  {
    if calls == [] then (Pass, ts)
    else
      var (o, ts') := CallEffect(attrs, urn, calls[0], ts);
      if o.Fail? then (o, ts') else Run(attrs, urn, calls[1..], ts')
  }

  /** One pair of the hash: `single_or_multi` (which raises for an unregistered
      key), then the calls its flag routes to. */
  function PairEffect(attrs: Attributes, urn: Option<string>, key: Key, v: Value, ts: seq<Triple>): (Outcome<Error>, seq<Triple>)
  {
    match SingleOrMulti(attrs, key)
    case Failure(e) => (Fail(e), ts)
    case Success(flag) => Run(attrs, urn, CallsFor(flag, key, v), ts)
  }

  /** The values of an Array added one after another, stopping at the first raise. */
  function AddEach(attrs: Attributes, urn: Option<string>, key: Key, items: seq<Value>, ts: seq<Triple>): (Outcome<Error>, seq<Triple>)
    decreases |items|
  {
    if items == [] then (Pass, ts)
    else
      var (o, ts') := AddEffect(attrs, urn, key, items[0], ts);
      if o.Fail? then (o, ts') else AddEach(attrs, urn, key, items[1..], ts')
  }

  /** A MULTI key with an Array value is one `add` per element, in element order. */
  lemma MultiArrayAddsEach(attrs: Attributes, urn: Option<string>, key: Key, items: seq<Value>, ts: seq<Triple>)
    requires SingleOrMulti(attrs, key) == Success(MULTI)
    ensures PairEffect(attrs, urn, key, Arr(items), ts) == AddEach(attrs, urn, key, items, ts)
  {
    RunAdds(attrs, urn, key, items, ts);
  }

  lemma {:induction false} RunAdds(attrs: Attributes, urn: Option<string>, key: Key, items: seq<Value>, ts: seq<Triple>)
    ensures Run(attrs, urn, seq(|items|, i requires 0 <= i < |items| => AddCall(key, items[i])), ts) == AddEach(attrs, urn, key, items, ts)
    decreases |items|
  {
    var calls := seq(|items|, i requires 0 <= i < |items| => AddCall(key, items[i]));
    if items != [] {
      var (o, ts') := AddEffect(attrs, urn, key, items[0], ts);
      assert calls[0] == AddCall(key, items[0]);
      assert calls[1..] == seq(|items[1..]|, i requires 0 <= i < |items[1..]| => AddCall(key, items[1..][i]));
      if o.Pass? {
        RunAdds(attrs, urn, key, items[1..], ts');
      }
    }
  }

  /** A registered key whose flag is neither SINGLE nor MULTI is passed over: no
      call, no raise, no write. */
  lemma OtherFlagSkipped(attrs: Attributes, urn: Option<string>, key: Key, v: Value, ts: seq<Triple>)
    requires Lookup(attrs, key).Some? && Lookup(attrs, key).value.cardinality == OtherFlag
    ensures PairEffect(attrs, urn, key, v, ts) == (Pass, ts)
  {
  }

  /** `change`: the pairs in hash order, stopping at the first raise. */
  function ChangeSpec(attrs: Attributes, urn: Option<string>, values: Values, ts: seq<Triple>): (Outcome<Error>, seq<Triple>)
    decreases |values|
  {
    if values == [] then (Pass, ts)
    else
      var (o, ts') := PairEffect(attrs, urn, values[0].0, values[0].1, ts);
      if o.Fail? then (o, ts') else ChangeSpec(attrs, urn, values[1..], ts')
  }

  /** The calls `change` issues for a hash, in order, up to the first key that
      `single_or_multi` raises on, and that raise. */
  function Plan(attrs: Attributes, values: Values): (seq<Call>, Outcome<Error>)
    decreases |values|
  {
    if values == [] then ([], Pass)
    else match SingleOrMulti(attrs, values[0].0)
      case Failure(e) => ([], Fail(e))
      case Success(flag) =>
        var (rest, stop) := Plan(attrs, values[1..]);
        (CallsFor(flag, values[0].0, values[0].1) + rest, stop)
  }

  function Then(run: (Outcome<Error>, seq<Triple>), stop: Outcome<Error>): (Outcome<Error>, seq<Triple>)
  {
    if run.0.Fail? then run else (stop, run.1)
  }

  lemma {:induction false} RunAppend(attrs: Attributes, urn: Option<string>, a: seq<Call>, b: seq<Call>, ts: seq<Triple>)
    ensures Run(attrs, urn, a + b, ts) ==
      (var (o, ts') := Run(attrs, urn, a, ts); if o.Fail? then (o, ts') else Run(attrs, urn, b, ts'))
    decreases |a|
  {
    if a == [] {
      assert a + b == b;
    } else {
      assert (a + b)[0] == a[0];
      assert (a + b)[1..] == a[1..] + b;
      var (o, ts') := CallEffect(attrs, urn, a[0], ts);
      if o.Pass? {
        RunAppend(attrs, urn, a[1..], b, ts');
      }
    }
  }

  /** `change` is exactly the run of its planned calls, in hash order, followed by
      the raise of `single_or_multi` on an unregistered key, if there is one. */
  lemma {:induction false} ChangeRunsPlan(attrs: Attributes, urn: Option<string>, values: Values, ts: seq<Triple>)
    ensures ChangeSpec(attrs, urn, values, ts) == Then(Run(attrs, urn, Plan(attrs, values).0, ts), Plan(attrs, values).1)
    decreases |values|
  {
    if values != [] {
      match SingleOrMulti(attrs, values[0].0)
      case Failure(e) =>
      case Success(flag) =>
        var calls := CallsFor(flag, values[0].0, values[0].1);
        var rest := Plan(attrs, values[1..]).0;
        RunAppend(attrs, urn, calls, rest, ts);
        var (o, ts') := Run(attrs, urn, calls, ts);
        if o.Pass? {
          ChangeRunsPlan(attrs, urn, values[1..], ts');
        }
    }
  }

  // ---------------------------------------------------------------------------
  // all

  /** The loop of `all`: each binding's predicate resolved to a key, the key mapped
      to the object's text, a later binding overwriting an earlier one. */
  function Collected(prefixes: seq<Prefix>, attrs: Attributes, bs: seq<Binding>): Result<map<Key, string>, Error>
  {
    if bs == [] then Success(map[])
    else
      var results :- Collected(prefixes, attrs, bs[..|bs| - 1]);
      var key :- ResolveUri(prefixes, attrs, bs[|bs| - 1].pred);
      Success(results[key := bs[|bs| - 1].obj])
  }

  /** `all` fails exactly when some binding's predicate does not resolve. */
  lemma {:induction false} CollectedFails(prefixes: seq<Prefix>, attrs: Attributes, bs: seq<Binding>)
    ensures Collected(prefixes, attrs, bs).Failure? <==>
      exists j | 0 <= j < |bs| :: ResolveUri(prefixes, attrs, bs[j].pred).Failure?
  {
    if bs != [] {
      var init := bs[..|bs| - 1];
      CollectedFails(prefixes, attrs, init);
      assert forall j | 0 <= j < |init| :: init[j] == bs[j];
    }
  }

  /** Binding `j` is the last of `bs` whose predicate resolves to `k`. */
  predicate LastFor(prefixes: seq<Prefix>, attrs: Attributes, bs: seq<Binding>, k: Key, j: int)
  {
    0 <= j < |bs| && ResolveUri(prefixes, attrs, bs[j].pred) == Success(k) &&
    forall j' | j < j' < |bs| :: ResolveUri(prefixes, attrs, bs[j'].pred) != Success(k)
  }

  /** `all` reports exactly the keys some binding resolves to. */
  lemma {:induction false} CollectedKeys(prefixes: seq<Prefix>, attrs: Attributes, bs: seq<Binding>)
    requires Collected(prefixes, attrs, bs).Success?
    ensures forall k :: k in Collected(prefixes, attrs, bs).value <==>
      exists j | 0 <= j < |bs| :: ResolveUri(prefixes, attrs, bs[j].pred) == Success(k)
  {
    if bs != [] {
      var init := bs[..|bs| - 1];
      CollectedKeys(prefixes, attrs, init);
      assert forall j | 0 <= j < |init| :: init[j] == bs[j];
    }
  }

  /** `all` reports one text per key: that of the LAST binding resolving to it. */
  lemma {:induction false} CollectedKeepsLast(prefixes: seq<Prefix>, attrs: Attributes, bs: seq<Binding>)
    requires Collected(prefixes, attrs, bs).Success?
    ensures forall k | k in Collected(prefixes, attrs, bs).value ::
      exists j :: LastFor(prefixes, attrs, bs, k, j) && Collected(prefixes, attrs, bs).value[k] == bs[j].obj
  {
    if bs != [] {
      var n := |bs|;
      var init := bs[..n - 1];
      CollectedKeepsLast(prefixes, attrs, init);
      var m := Collected(prefixes, attrs, bs).value;
      var last := ResolveUri(prefixes, attrs, bs[n - 1].pred).value;
      forall k | k in m
        ensures exists j :: LastFor(prefixes, attrs, bs, k, j) && m[k] == bs[j].obj
      {
        if k == last {
          assert LastFor(prefixes, attrs, bs, k, n - 1);
        } else {
          var j :| LastFor(prefixes, attrs, init, k, j) && Collected(prefixes, attrs, init).value[k] == init[j].obj;
          LastForExtends(prefixes, attrs, init, bs, k, j);
        }
      }
    }
  }

  lemma LastForExtends(prefixes: seq<Prefix>, attrs: Attributes, init: seq<Binding>, bs: seq<Binding>, k: Key, j: int)
    requires |bs| == |init| + 1 && init == bs[..|init|]
    requires LastFor(prefixes, attrs, init, k, j)
    requires ResolveUri(prefixes, attrs, bs[|init|].pred) != Success(k)
    ensures LastFor(prefixes, attrs, bs, k, j)
  {
    assert forall j' | 0 <= j' < |init| :: init[j'] == bs[j'];
  }

  /** Once a prefix of the bindings fails to resolve, `all` raises that error. */
  lemma {:induction false} CollectedPrefixFails(prefixes: seq<Prefix>, attrs: Attributes, bs: seq<Binding>, n: nat)
    requires n <= |bs|
    requires Collected(prefixes, attrs, bs[..n]).Failure?
    ensures Collected(prefixes, attrs, bs) == Collected(prefixes, attrs, bs[..n])
    decreases |bs| - n
  {
    if n < |bs| {
      assert bs[..|bs| - 1][..n] == bs[..n];
      CollectedPrefixFails(prefixes, attrs, bs[..|bs| - 1], n);
    } else {
      assert bs[..n] == bs;
    }
  }

  /** `all`: nothing without a URN; otherwise the bindings of the URN, collected. */
  function AllSpec(prefixes: seq<Prefix>, attrs: Attributes, urn: Option<string>, ts: seq<Triple>): Result<map<Key, string>, Error>
  {
    if urn.None? then Failure(UrnNotSet) else Collected(prefixes, attrs, BindingsOf(prefixes, ts, urn.value))
  }

  /** After an `add` of a value not yet stored, `all` reports that value for the key
      (and no earlier one), when the attribute's CURIE resolves back to it and the
      entity's other predicates resolve. */
  lemma AllReportsLastAdded(prefixes: seq<Prefix>, attrs: Attributes, urn: Option<string>, key: Key, v: Value, ts: seq<Triple>)
    requires AddEffect(attrs, urn, key, v, ts).0.Pass?
    requires Triple(urn.value, Lookup(attrs, ToSym(key)).value.pred.value, v) !in ts
    requires ResolveUri(prefixes, attrs, Expand(prefixes, Lookup(attrs, ToSym(key)).value.pred.value)) == Success(ToSym(key))
    requires Collected(prefixes, attrs, BindingsOf(prefixes, ts, urn.value)).Success?
    ensures AllSpec(prefixes, attrs, urn, AddEffect(attrs, urn, key, v, ts).1).Success?
    ensures ToSym(key) in AllSpec(prefixes, attrs, urn, AddEffect(attrs, urn, key, v, ts).1).value
    ensures AllSpec(prefixes, attrs, urn, AddEffect(attrs, urn, key, v, ts).1).value[ToSym(key)] == Lexical(v)
  {
    var u := urn.value;
    var t := Triple(u, Lookup(attrs, ToSym(key)).value.pred.value, v);
    assert AddTriple(attrs, urn, key, v) == Success(t);
    var ts' := ts + [t];
    assert AddEffect(attrs, urn, key, v, ts).1 == ts';
    assert ts'[..|ts'| - 1] == ts;
    var b := Binding(Expand(prefixes, t.pred), Lexical(v));
    var bs := BindingsOf(prefixes, ts', u);
    assert bs == BindingsOf(prefixes, ts, u) + [b];
    assert bs[..|bs| - 1] == BindingsOf(prefixes, ts, u);
  }

  /** The same `add` without relying on the order of `select`: whatever order the
      store lists the entity's bindings in, `all` reports the key, with the text of
      one of those bindings that resolves to it. */
  lemma AllReportsAnyOrder(prefixes: seq<Prefix>, attrs: Attributes, urn: Option<string>, key: Key, v: Value, ts: seq<Triple>, bs: seq<Binding>)
    requires AddEffect(attrs, urn, key, v, ts).0.Pass?
    requires ResolveUri(prefixes, attrs, Expand(prefixes, Lookup(attrs, ToSym(key)).value.pred.value)) == Success(ToSym(key))
    requires multiset(bs) == multiset(BindingsOf(prefixes, AddEffect(attrs, urn, key, v, ts).1, urn.value))
    requires Collected(prefixes, attrs, bs).Success?
    ensures ToSym(key) in Collected(prefixes, attrs, bs).value
    ensures exists j | 0 <= j < |bs| ::
      bs[j] in BindingsOf(prefixes, AddEffect(attrs, urn, key, v, ts).1, urn.value) &&
      ResolveUri(prefixes, attrs, bs[j].pred) == Success(ToSym(key)) &&
      Collected(prefixes, attrs, bs).value[ToSym(key)] == bs[j].obj
  {
    var ts' := AddEffect(attrs, urn, key, v, ts).1;
    var t := Triple(urn.value, Lookup(attrs, ToSym(key)).value.pred.value, v);
    BindingOfStored(prefixes, ts', urn.value, t);
    var b := Binding(Expand(prefixes, t.pred), Lexical(v));
    assert b in multiset(bs);
    var i :| 0 <= i < |bs| && bs[i] == b;
    CollectedKeys(prefixes, attrs, bs);
    CollectedKeepsLast(prefixes, attrs, bs);
    var j :| LastFor(prefixes, attrs, bs, ToSym(key), j) && Collected(prefixes, attrs, bs).value[ToSym(key)] == bs[j].obj;
    assert bs[j] in multiset(bs);
  }

  // ---------------------------------------------------------------------------
  // method_missing

  /** The attribute key of a missing method's name: the text before the first `=`. */
  function AccessKey(name: string): Key
  {
    SymKey(UpToFirst(name, '='))
  }

  /** The value of a missing method's call: its first argument, or nil. */
  function AccessValue(args: seq<Value>): Value
  {
    if |args| > 0 then args[0] else Nil
  }

  /** A reader `name` and a writer `name=` address the same attribute. */
  lemma AccessReaderWriter(name: string)
    requires '=' !in name
    ensures AccessKey(name) == SymKey(name)
    ensures AccessKey(name + "=") == SymKey(name)
  {
    var w := name + "=";
    assert forall k | 0 <= k < |name| :: w[k] == name[k];
    UpToFirstIs(w, '=', |name|);
    UpToFirstIs(name, '=', |name|);
    assert w[..|name|] == name;
  }

  // ---------------------------------------------------------------------------
  // new_urn

  /** `new_urn`: the template with its first `%` replaced by the store's next
      index for the `:path` predicate. */
  function NewUrnSpec(attrs: Attributes, template: Option<string>, ts: seq<Triple>): Result<string, Error>
  {
    var p :- PredOf(attrs, PATH);
    UrnFromTemplate(template, NextIndexIn(ts, p))
  }

  // ---------------------------------------------------------------------------
  // create

  /** `create`: mint a URN and bind it, then check the required keys, then
      `change`. The result, the bound URN and the new triples. */
  function CreateEffect(attrs: Attributes, template: Option<string>, urn: Option<string>, values: Values, ts: seq<Triple>)
    : (Outcome<Error>, Option<string>, seq<Triple>)
  {
    match NewUrnSpec(attrs, template, ts)
    case Failure(e) => (Fail(e), urn, ts)
    case Success(u) =>
      var missing := MissingKeys(attrs, values);
      if missing != [] then (Fail(RequiredValuesMissing(missing)), Some(u), ts)
      else
        var (o, ts') := ChangeSpec(attrs, Some(u), values, ts);
        (o, Some(u), ts')
  }

  /** `create` binds the new URN before it checks the required keys: a hash that
      lacks a required key raises RequiredValuesMissing, writes nothing, and still
      leaves the new URN bound. */
  lemma CreateChecksRequired(attrs: Attributes, template: Option<string>, urn: Option<string>, values: Values, ts: seq<Triple>)
    requires template.Some? && PredOf(attrs, PATH).Success?
    ensures NewUrnSpec(attrs, template, ts).Success?
    ensures (exists j | 0 <= j < |attrs| :: attrs[j].descriptor.required == REQUIRED && !HasKey(values, attrs[j].key)) ==>
      CreateEffect(attrs, template, urn, values, ts) ==
        (Fail(RequiredValuesMissing(MissingKeys(attrs, values))), Some(NewUrnSpec(attrs, template, ts).value), ts)
    ensures (forall j | 0 <= j < |attrs| :: attrs[j].descriptor.required == REQUIRED ==> HasKey(values, attrs[j].key)) ==>
      var (o, ts') := ChangeSpec(attrs, Some(NewUrnSpec(attrs, template, ts).value), values, ts);
      CreateEffect(attrs, template, urn, values, ts) == (o, Some(NewUrnSpec(attrs, template, ts).value), ts')
  {
    MissingKeysExactly(attrs, values);
  }

  // ---------------------------------------------------------------------------
  // fresh URNs

  /** As written, `new_urn` counts only the entities that carry `:path`, and a
      `create` whose hash has no `:path` writes none: here two `create`s in a row
      both pass and bind the same URN, the second writing onto the first entity. */
  lemma CreateReusesUrn()
    ensures var (o1, u1, ts1) := CreateEffect(ReuseAttrs(), Some("urn:doc:%"), None, ReuseValues(), []);
      var (o2, u2, ts2) := CreateEffect(ReuseAttrs(), Some("urn:doc:%"), u1, ReuseValues(), ts1);
      o1.Pass? && o2.Pass? && u1 == u2 == Some("urn:doc:1") && "urn:doc:1" in SubjectsOf(ts1)
  {
    var t := Triple("urn:doc:1", "ex:title", Str("a"));
    ReuseCreate([]);
    ReuseCreate([t]);
    assert t in [t];
  }

  /** From an empty store or from the one `:title` triple, `create` binds
      `urn:doc:1` and leaves just that triple. */
  lemma ReuseCreate(ts: seq<Triple>)
    requires ts == [] || ts == [Triple("urn:doc:1", "ex:title", Str("a"))]
    ensures CreateEffect(ReuseAttrs(), Some("urn:doc:%"), ReuseUrn(ts), ReuseValues(), ts)
      == (Pass, Some("urn:doc:1"), [Triple("urn:doc:1", "ex:title", Str("a"))])
  {
    var attrs := ReuseAttrs();
    var values := ReuseValues();
    var u := "urn:doc:1";
    var t := Triple(u, "ex:title", Str("a"));
    ReuseUrnOne();
    assert PredOf(attrs, PATH) == Success("ex:path");
    assert SubjectsWith(ts, "ex:path") == {};
    assert NewUrnSpec(attrs, Some("urn:doc:%"), ts) == Success(u);
    ReuseNothingMissing();
    ReuseChange(ts);
  }

  function ReuseUrn(ts: seq<Triple>): Option<string>
  {
    if ts == [] then None else Some("urn:doc:1")
  }

  lemma ReuseUrnOne()
    ensures UrnFromTemplate(Some("urn:doc:%"), 1) == Success("urn:doc:1")
  {
    var t := "urn:doc:%";
    assert t[8] == '%';
    assert forall k | 0 <= k < 8 :: t[k] != '%';
    assert NatToDecimal(1) == "1";
    assert t[..8] + "1" + t[9..] == "urn:doc:1";
  }

  lemma ReuseNothingMissing()
    ensures MissingKeys(ReuseAttrs(), ReuseValues()) == []
  {
    MissingKeysExactly(ReuseAttrs(), ReuseValues());
    assert ReuseValues()[0].0 == SymKey("title");
    assert HasKey(ReuseValues(), SymKey("title"));
  }

  lemma ReuseChange(ts: seq<Triple>)
    requires ts == [] || ts == [Triple("urn:doc:1", "ex:title", Str("a"))]
    ensures ChangeSpec(ReuseAttrs(), Some("urn:doc:1"), ReuseValues(), ts) == (Pass, [Triple("urn:doc:1", "ex:title", Str("a"))])
  {
    var attrs := ReuseAttrs();
    var u := "urn:doc:1";
    var t := Triple(u, "ex:title", Str("a"));
    var title := SymKey("title");
    assert Lookup(attrs, title) == Some(attrs[1].descriptor);
    assert SetTriple(attrs, u, title, Str("a")) == Success(t);
    assert Replaced(ts, t) == [t];
    assert UpdateEffect(attrs, Some(u), title, Str("a"), ts) == (Success(NoReading), [t]);
    assert SingleOrMulti(attrs, title) == Success(SINGLE);
    assert CallsFor(SINGLE, title, Str("a")) == [UpdateCall(title, Str("a"))];
    assert Run(attrs, Some(u), [UpdateCall(title, Str("a"))], ts) == (Pass, [t]);
    assert PairEffect(attrs, Some(u), title, Str("a"), ts) == (Pass, [t]);
  }

  /** `:path` is a String attribute left optional; `:title` is required. */
  function ReuseAttrs(): Attributes
  {
    [Attribute(PATH, Descriptor(Some("ex:path"), Some(StringClass), SINGLE, OtherFlag)),
     Attribute(SymKey("title"), Descriptor(Some("ex:title"), Some(StringClass), SINGLE, REQUIRED))]
  }

  function ReuseValues(): Values
  {
    [(SymKey("title"), Str("a"))]
  }

  /** Every subject of the store. */
  function SubjectsOf(ts: seq<Triple>): set<string>
  {
    set t | t in ts :: t.subject
  }

  /** The store as a run of `create`s leaves it: every subject is the template
      filled with an index below the next one `new_urn` will use. */
  predicate Numbered(template: Option<string>, p: string, ts: seq<Triple>)
  {
    forall t | t in ts :: exists m | 1 <= m < NextIndexIn(ts, p) :: UrnFromTemplate(template, m) == Success(t.subject)
  }

  /** When the hash gives `:path` a value, `:path` is SINGLE and `create` passes,
      the URN it binds was no subject of the store, it now carries `:path`, the
      next index moves on by one, and the store stays numbered. So successive
      `create`s of this kind never share a URN. */
  lemma CreateMintsFreshUrn(attrs: Attributes, template: Option<string>, urn: Option<string>, values: Values, ts: seq<Triple>, v: Value)
    requires template.Some? && '%' in template.value
    requires PredOf(attrs, PATH).Success? && SingleOrMulti(attrs, PATH) == Success(SINGLE)
    requires (PATH, v) in values && !v.Nil?
    requires Numbered(template, PredOf(attrs, PATH).value, ts)
    requires CreateEffect(attrs, template, urn, values, ts).0.Pass?
    ensures var p := PredOf(attrs, PATH).value;
      var (_, u, ts') := CreateEffect(attrs, template, urn, values, ts);
      u.Some? && u.value !in SubjectsOf(ts) && u.value in SubjectsWith(ts', p) &&
      NextIndexIn(ts', p) == NextIndexIn(ts, p) + 1 && Numbered(template, p, ts')
  {
    var p := PredOf(attrs, PATH).value;
    var u := NewUrnSpec(attrs, template, ts).value;
    var ts' := ChangeSpec(attrs, Some(u), values, ts).1;
    NumberedFresh(template, p, ts, u);
    ChangeGrows(attrs, u, p, values, ts);
    ChangeWritesPath(attrs, u, values, ts, v);
    SubjectsElsewhere(ts, ts', u, p);
    assert SubjectsWith(ts', p) == SubjectsWith(ts, p) + {u};
    NumberedExtends(template, p, ts, ts', u);
  }

  /** In a numbered store, the URN of the next index is no subject yet. */
  lemma NumberedFresh(template: Option<string>, p: string, ts: seq<Triple>, u: string)
    requires template.Some? && '%' in template.value
    requires Numbered(template, p, ts)
    requires UrnFromTemplate(template, NextIndexIn(ts, p)) == Success(u)
    ensures u !in SubjectsOf(ts)
  {
    var next := NextIndexIn(ts, p);
    forall t | t in ts
      ensures t.subject != u
    {
      var m :| 1 <= m < next && UrnFromTemplate(template, m) == Success(t.subject);
      UrnInjective(template, m, next);
    }
  }

  /** Writing only under the URN of the next index, and moving the index on by
      one, keeps the store numbered. */
  lemma NumberedExtends(template: Option<string>, p: string, ts: seq<Triple>, ts': seq<Triple>, u: string)
    requires Numbered(template, p, ts)
    requires UrnFromTemplate(template, NextIndexIn(ts, p)) == Success(u)
    requires SameElsewhere(ts, ts', u)
    requires NextIndexIn(ts', p) == NextIndexIn(ts, p) + 1
    ensures Numbered(template, p, ts')
  {
    var next := NextIndexIn(ts, p);
    forall t | t in ts'
      ensures exists m | 1 <= m < next + 1 :: UrnFromTemplate(template, m) == Success(t.subject)
    {
      if t.subject != u {
        var m :| 1 <= m < next && UrnFromTemplate(template, m) == Success(t.subject);
      } else {
        assert UrnFromTemplate(template, next) == Success(t.subject);
      }
    }
  }

  /** Two indexes give the same URN only when they are equal, for a template with a `%`. */
  lemma UrnInjective(template: Option<string>, m1: nat, m2: nat)
    requires template.Some? && '%' in template.value
    ensures UrnFromTemplate(template, m1) == UrnFromTemplate(template, m2) ==> m1 == m2
  {
    var t := template.value;
    var k :| 0 <= k < |t| && t[k] == '%';
    assert t[k..k + 1] == "%";
    assert OccursAt(t, "%", k);
    var d1 := NatToDecimal(m1);
    var d2 := NatToDecimal(m2);
    assert UrnFromTemplate(template, m1) == Success(SubFirst(t, "%", d1));
    assert UrnFromTemplate(template, m2) == Success(SubFirst(t, "%", d2));
    SubFirstInjective(t, "%", d1, d2);
    DecimalRoundTrip(m1);
    DecimalRoundTrip(m2);
  }

  /** Outside subject `u`, the two stores hold the same triples. */
  ghost predicate SameElsewhere(ts: seq<Triple>, ts': seq<Triple>, u: string)
  {
    forall t: Triple | t.subject != u :: t in ts' <==> t in ts
  }

  /** The writes of an entity touch only its own subject and never take away the
      last triple it has with predicate `p`. */
  ghost predicate Grows(ts: seq<Triple>, ts': seq<Triple>, u: string, p: string)
  {
    SameElsewhere(ts, ts', u) && (u in SubjectsWith(ts, p) ==> u in SubjectsWith(ts', p))
  }

  lemma CallGrows(attrs: Attributes, u: string, p: string, c: Call, ts: seq<Triple>)
    ensures Grows(ts, CallEffect(attrs, Some(u), c, ts).1, u, p)
  {
    var ts' := CallEffect(attrs, Some(u), c, ts).1;
    match c
    case UpdateCall(k, v) =>
      UpdateOverwrites(attrs, Some(u), k, v, ts);
      if u in SubjectsWith(ts, p) {
        var w :| w in ts && w.pred == p && w.subject == u;
        if !v.Nil? && UpdateEffect(attrs, Some(u), k, v, ts).0.Success? {
          var q := Lookup(attrs, k).value.pred.value;
          if q == p {
            assert Triple(u, q, v) in ts';
          } else {
            assert w in ts';
          }
        }
      }
    case AddCall(k, v) =>
      AddInsertsOne(attrs, Some(u), k, v, ts);
      if u in SubjectsWith(ts, p) {
        var w :| w in ts && w.pred == p && w.subject == u;
        assert w in ts';
      }
  }

  lemma {:induction false} RunGrows(attrs: Attributes, u: string, p: string, calls: seq<Call>, ts: seq<Triple>)
    ensures Grows(ts, Run(attrs, Some(u), calls, ts).1, u, p)
    decreases |calls|
  {
    if calls != [] {
      CallGrows(attrs, u, p, calls[0], ts);
      var (o, ts') := CallEffect(attrs, Some(u), calls[0], ts);
      if o.Pass? {
        RunGrows(attrs, u, p, calls[1..], ts');
      }
    }
  }

  lemma {:induction false} ChangeGrows(attrs: Attributes, u: string, p: string, values: Values, ts: seq<Triple>)
    ensures Grows(ts, ChangeSpec(attrs, Some(u), values, ts).1, u, p)
    decreases |values|
  {
    if values != [] {
      var (o, ts') := PairEffect(attrs, Some(u), values[0].0, values[0].1, ts);
      match SingleOrMulti(attrs, values[0].0)
      case Failure(_) =>
      case Success(flag) => RunGrows(attrs, u, p, CallsFor(flag, values[0].0, values[0].1), ts);
      if o.Pass? {
        ChangeGrows(attrs, u, p, values[1..], ts');
      }
    }
  }

  /** A `change` that passes and sets `:path` (SINGLE, not nil) leaves the entity
      carrying the `:path` predicate. */
  lemma {:induction false} ChangeWritesPath(attrs: Attributes, u: string, values: Values, ts: seq<Triple>, v: Value)
    requires PredOf(attrs, PATH).Success? && SingleOrMulti(attrs, PATH) == Success(SINGLE)
    requires (PATH, v) in values && !v.Nil?
    requires ChangeSpec(attrs, Some(u), values, ts).0.Pass?
    ensures u in SubjectsWith(ChangeSpec(attrs, Some(u), values, ts).1, PredOf(attrs, PATH).value)
    decreases |values|
  {
    var p := PredOf(attrs, PATH).value;
    var (o, ts') := PairEffect(attrs, Some(u), values[0].0, values[0].1, ts);
    if values[0] == (PATH, v) {
      PathPairWrites(attrs, u, v, ts);
      ChangeGrows(attrs, u, p, values[1..], ts');
    } else {
      assert (PATH, v) in values[1..];
      ChangeWritesPath(attrs, u, values[1..], ts', v);
    }
  }

  /** A passing `:path` pair of a SINGLE `:path` stores the triple (u, pred(:path), v). */
  lemma PathPairWrites(attrs: Attributes, u: string, v: Value, ts: seq<Triple>)
    requires PredOf(attrs, PATH).Success? && SingleOrMulti(attrs, PATH) == Success(SINGLE)
    requires !v.Nil? && PairEffect(attrs, Some(u), PATH, v, ts).0.Pass?
    ensures Triple(u, PredOf(attrs, PATH).value, v) in PairEffect(attrs, Some(u), PATH, v, ts).1
  {
    assert CallsFor(SINGLE, PATH, v) == [UpdateCall(PATH, v)];
    var (r, tsu) := UpdateEffect(attrs, Some(u), PATH, v, ts);
    assert PairEffect(attrs, Some(u), PATH, v, ts) == Run(attrs, Some(u), [UpdateCall(PATH, v)], ts);
    assert r.Success? && PairEffect(attrs, Some(u), PATH, v, ts).1 == tsu;
    UpdateOverwrites(attrs, Some(u), PATH, v, ts);
  }

  /** Stores that agree outside `u` have the same subjects with `p` outside `u`. */
  lemma SubjectsElsewhere(ts: seq<Triple>, ts': seq<Triple>, u: string, p: string)
    requires SameElsewhere(ts, ts', u)
    ensures SubjectsWith(ts', p) - {u} == SubjectsWith(ts, p) - {u}
  {
    forall s | s in SubjectsWith(ts', p) - {u}
      ensures s in SubjectsWith(ts, p)
    {
      var w :| w in ts' && w.pred == p && w.subject == s;
    }
    forall s | s in SubjectsWith(ts, p) - {u}
      ensures s in SubjectsWith(ts', p)
    {
      var w :| w in ts && w.pred == p && w.subject == s;
    }
  }

  // ---------------------------------------------------------------------------

  /** With no URN bound, every operation that needs one raises UrnNotSet before
      anything else, and the store is untouched. */
  lemma UnboundRaisesFirst(prefixes: seq<Prefix>, attrs: Attributes, key: Key, v: Value, ts: seq<Triple>)
    ensures AddEffect(attrs, None, key, v, ts) == (Fail(UrnNotSet), ts)
    ensures DeleteEffect(attrs, None, key, v, ts) == (Fail(UrnNotSet), ts)
    ensures UpdateEffect(attrs, None, key, v, ts) == (Failure(UrnNotSet), ts)
    ensures AllSpec(prefixes, attrs, None, ts) == Failure(UrnNotSet)
  {
  }
}
