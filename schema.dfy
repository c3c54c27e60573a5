/** The attribute schema of a SparqlModel and the checks built on it: the
    validators that raise or return (`attr?`, `type?`, `pred`, `single_or_multi`,
    `single?`, `multi?`, `urn?`, `type_class?`), the coercion `data_value`, the
    required-values check, the reverse resolution of a predicate URI to an
    attribute key, and the URN template. */
module Schema {
  import opened RubyStrings
  import opened RubyValues
  import opened TripleStore

  /** A schema flag as Ruby holds it: `true`, `false`, or any other object
      (`nil` when the tuple is too short). */
  datatype Flag = TrueFlag | FalseFlag | OtherFlag

  const SINGLE: Flag := TrueFlag
  const MULTI: Flag := FalseFlag
  const REQUIRED: Flag := TrueFlag

  /** The tuple `[predicate, type, SINGLE/MULTI, REQUIRED]`; a missing entry is nil. */
  datatype Descriptor = Descriptor(pred: Option<string>, valueType: Option<RubyClass>, cardinality: Flag, required: Flag)

  datatype Attribute = Attribute(key: Key, descriptor: Descriptor)

  /** The `@attributes` hash, in registration order. */
  type Attributes = seq<Attribute>

  /** A `Hash` passed to `create` or `change`, in its iteration order. */
  type Values = seq<(Key, Value)>

  /** Ruby hashes never hold a key twice. */
  predicate DistinctKeys(attrs: Attributes)
  {
    forall i, j | 0 <= i < j < |attrs| :: attrs[i].key != attrs[j].key
  }

  /** The exceptions the mapper raises. */
  datatype Error =
    | UrnNotSet                      // urn?
    | AttributeNotFound(key: Key)    // attr?
    | TypeNotSpecified               // type?
    | PredicateNotSpecified          // pred
    | TypeMismatch(given: RubyClass, needed: RubyClass)  // type_class?
    | NotSingle(key: Key)            // single?: "use add( :key, 'value' ) instead"
    | NotMulti(key: Key)             // multi?
    | RequiredValuesMissing(missing: seq<Key>)
    | PrefixNotFound(remainder: string)
    | NoMethod(name: string)         // NoMethodError: `nil[i]`, `x.integer?`, `nil.sub`

  /** `nil[i]`: indexing the nil that a hash gives for an unregistered key. */
  const NIL_INDEX := "[]"
  const INTEGER_P := "integer?"
  const NIL_SUB := "sub"

  /** The position of a key in the schema. */
  function KeyIndex(attrs: Attributes, key: Key): (r: Option<nat>)
    ensures r.Some? ==> r.value < |attrs| && attrs[r.value].key == key
    ensures r.Some? ==> forall j | 0 <= j < r.value :: attrs[j].key != key
    ensures r.None? <==> forall j | 0 <= j < |attrs| :: attrs[j].key != key
  {
    if attrs == [] then None
    else if attrs[0].key == key then Some(0)
    else match KeyIndex(attrs[1..], key)
      case None => None
      case Some(i) => Some(i + 1)
  }

  /** `@attributes[key]` */
  function Lookup(attrs: Attributes, key: Key): (r: Option<Descriptor>)
    ensures r.None? <==> forall j | 0 <= j < |attrs| :: attrs[j].key != key
    ensures DistinctKeys(attrs) ==> forall j | 0 <= j < |attrs| && attrs[j].key == key :: r == Some(attrs[j].descriptor)
  {
    match KeyIndex(attrs, key)
    case None => None
    case Some(i) => Some(attrs[i].descriptor)
  }

  /** `urn?` */
  function UrnCheck(urn: Option<string>): (r: Outcome<Error>)
    ensures r.Pass? <==> urn.Some?
    ensures r.Fail? ==> r.error == UrnNotSet
  {
    if urn.None? then Fail(UrnNotSet) else Pass
  }

  /** `attr?` */
  function AttrCheck(attrs: Attributes, key: Key): (r: Outcome<Error>)
    ensures r.Pass? <==> exists j | 0 <= j < |attrs| :: attrs[j].key == key
    ensures r.Fail? ==> r.error == AttributeNotFound(key)
  {
    if Lookup(attrs, key).None? then Fail(AttributeNotFound(key)) else Pass
  }

  /** `type?`: the declared class; nil raises, and so does an unregistered key. */
  function TypeOf(attrs: Attributes, key: Key): (r: Result<RubyClass, Error>)
    ensures r.Success? <==> Lookup(attrs, key).Some? && Lookup(attrs, key).value.valueType.Some?
    ensures r.Success? ==> Lookup(attrs, key).value.valueType == Some(r.value)
    ensures r.Failure? ==> r.error == (if Lookup(attrs, key).None? then NoMethod(NIL_INDEX) else TypeNotSpecified)
  {
    match Lookup(attrs, key)
    case None => Failure(NoMethod(NIL_INDEX))
    case Some(d) => if d.valueType.None? then Failure(TypeNotSpecified) else Success(d.valueType.value)
  }

  /** `pred`: the declared predicate; nil raises, and so does an unregistered key. */
  function PredOf(attrs: Attributes, key: Key): (r: Result<string, Error>)
    ensures r.Success? <==> Lookup(attrs, key).Some? && Lookup(attrs, key).value.pred.Some?
    ensures r.Success? ==> Lookup(attrs, key).value.pred == Some(r.value)
    ensures r.Failure? ==> r.error == (if Lookup(attrs, key).None? then NoMethod(NIL_INDEX) else PredicateNotSpecified)
  {
    match Lookup(attrs, key)
    case None => Failure(NoMethod(NIL_INDEX))
    case Some(d) => if d.pred.None? then Failure(PredicateNotSpecified) else Success(d.pred.value)
  }

  /** `single_or_multi`: the cardinality flag, whatever object it is. */
  function SingleOrMulti(attrs: Attributes, key: Key): (r: Result<Flag, Error>)
    ensures r.Success? <==> exists j | 0 <= j < |attrs| :: attrs[j].key == key
    ensures r.Success? ==> r.value == Lookup(attrs, key).value.cardinality
    ensures r.Failure? ==> r.error == NoMethod(NIL_INDEX)
  {
    match Lookup(attrs, key)
    case None => Failure(NoMethod(NIL_INDEX))
    case Some(d) => Success(d.cardinality)
  }

  /** `single?`: anything but `true` raises, pointing the caller to `add`. */
  function SingleCheck(attrs: Attributes, key: Key): (r: Outcome<Error>)
    ensures r.Pass? <==> SingleOrMulti(attrs, key) == Success(SINGLE)
    ensures r.Fail? && Lookup(attrs, key).Some? ==> r.error == NotSingle(key)
  {
    match SingleOrMulti(attrs, key)
    case Failure(e) => Fail(e)
    case Success(flag) => if flag != SINGLE then Fail(NotSingle(key)) else Pass
  }

  /** `multi?`: anything but `false` raises. */
  function MultiCheck(attrs: Attributes, key: Key): (r: Outcome<Error>)
    ensures r.Pass? <==> SingleOrMulti(attrs, key) == Success(MULTI)
    ensures r.Fail? && Lookup(attrs, key).Some? ==> r.error == NotMulti(key)
  {
    match SingleOrMulti(attrs, key)
    case Failure(e) => Fail(e)
    case Success(flag) => if flag != MULTI then Fail(NotMulti(key)) else Pass
  }

  /** The type policy: a value is accepted when its class is the declared one, or
      when Integer is declared and the value is integral (a Fixnum or a Bignum). */
  predicate TypeAccepts(declared: RubyClass, v: Value)
  {
    ClassOf(v) == declared || (declared == IntegerClass && v.Int?)
  }

  /** `type_class?`, given the declared class that `type?` has already returned. */
  function TypeClassCheck(declared: RubyClass, v: Value): (r: Outcome<Error>)
    ensures r.Pass? <==> TypeAccepts(declared, v)
    ensures r.Fail? && declared == IntegerClass && !RespondsToIntegerP(v) ==> r.error == NoMethod(INTEGER_P)
    ensures r.Fail? && (declared != IntegerClass || RespondsToIntegerP(v)) ==> r.error == TypeMismatch(ClassOf(v), declared)
  {
    if ClassOf(v) == declared then Pass
    else if declared != IntegerClass then Fail(TypeMismatch(ClassOf(v), declared))
    else if !RespondsToIntegerP(v) then Fail(NoMethod(INTEGER_P))
    else if v.Int? then Pass
    else Fail(TypeMismatch(ClassOf(v), declared))
  }

  /** What `data_value` turns a stored text into. The numeric parses (`to_i`,
      `to_f`) are not computed: only which one is applied to which text. */
  datatype Coerced = AsText(text: string) | AsInteger(text: string) | AsFloat(text: string) | NoCoercion

  /** `data_value`: String keeps the text, Integer parses it with `to_i`, Fixnum
      (sic) with `to_f`; any other declared class gives nil. */
  function DataValue(attrs: Attributes, key: Key, s: string): (r: Result<Coerced, Error>)
    ensures r.Success? <==> TypeOf(attrs, key).Success?
    ensures r.Failure? ==> r.error == TypeOf(attrs, key).error
    ensures r.Success? && r.value != NoCoercion ==> r.value.text == s
    ensures r.Success? ==> (r.value == NoCoercion <==> TypeOf(attrs, key).value !in {StringClass, IntegerClass, FixnumClass})
    ensures r.Success? && TypeOf(attrs, key).value == StringClass ==> r.value == AsText(s)
    ensures r.Success? && TypeOf(attrs, key).value == IntegerClass ==> r.value == AsInteger(s)
    ensures r.Success? && TypeOf(attrs, key).value == FixnumClass ==> r.value == AsFloat(s)
  {
    var cls :- TypeOf(attrs, key);
    if cls == StringClass then Success(AsText(s))
    else if cls == IntegerClass then Success(AsInteger(s))
    else if cls == FixnumClass then Success(AsFloat(s))
    else Success(NoCoercion)
  }

  /** `data_value` as its branches evidently mean it: the third test names
      `::Float`, the class whose values `to_f` produces, where the code names
      `::Fixnum`. */
  function IntendedDataValue(attrs: Attributes, key: Key, s: string): (r: Result<Coerced, Error>)
    ensures r.Success? <==> TypeOf(attrs, key).Success?
    ensures r.Failure? ==> r.error == TypeOf(attrs, key).error
    ensures r.Success? && TypeOf(attrs, key).value == StringClass ==> r.value == AsText(s)
    ensures r.Success? && TypeOf(attrs, key).value == IntegerClass ==> r.value == AsInteger(s)
    ensures r.Success? && TypeOf(attrs, key).value == FloatClass ==> r.value == AsFloat(s)
    ensures r.Success? ==> (r.value == NoCoercion <==> TypeOf(attrs, key).value !in {StringClass, IntegerClass, FloatClass})
  {
    var cls :- TypeOf(attrs, key);
    if cls == StringClass then Success(AsText(s))
    else if cls == IntegerClass then Success(AsInteger(s))
    else if cls == FloatClass then Success(AsFloat(s))
    else Success(NoCoercion)
  }

  // ---------------------------------------------------------------------------
  // required_check

  predicate HasKey(values: Values, k: Key)
  {
    exists i | 0 <= i < |values| :: values[i].0 == k
  }

  /** The keys flagged REQUIRED, in registration order. */
  function RequiredKeys(attrs: Attributes): (r: seq<Key>)
    ensures forall k :: k in r <==> exists j | 0 <= j < |attrs| :: attrs[j].key == k && attrs[j].descriptor.required == REQUIRED
  {
    if attrs == [] then []
    else
      var last := attrs[|attrs| - 1];
      assert forall j | 0 <= j < |attrs| - 1 :: attrs[..|attrs| - 1][j] == attrs[j];
      RequiredKeys(attrs[..|attrs| - 1]) + (if last.descriptor.required == REQUIRED then [last.key] else [])
  }

  /** The keys of `keys` that the hash lacks, in order. */
  function Absent(keys: seq<Key>, values: Values): (r: seq<Key>)
    ensures forall k :: k in r <==> k in keys && !HasKey(values, k)
  {
    if keys == [] then []
    else
      var last := keys[|keys| - 1];
      assert keys == keys[..|keys| - 1] + [last];
      Absent(keys[..|keys| - 1], values) + (if HasKey(values, last) then [] else [last])
  }

  /** The keys `required_check` names in its message. */
  function MissingKeys(attrs: Attributes, values: Values): seq<Key>
  {
    Absent(RequiredKeys(attrs), values)
  }

  /** A key is reported missing exactly when it is registered as REQUIRED and the
      hash lacks it; so the check raises exactly when some required key is absent. */
  lemma MissingKeysExactly(attrs: Attributes, values: Values)
    ensures forall k :: k in MissingKeys(attrs, values) <==>
      (exists j | 0 <= j < |attrs| :: attrs[j].key == k && attrs[j].descriptor.required == REQUIRED) && !HasKey(values, k)
    ensures MissingKeys(attrs, values) != [] <==>
      exists j | 0 <= j < |attrs| :: attrs[j].descriptor.required == REQUIRED && !HasKey(values, attrs[j].key)
  {
    var m := MissingKeys(attrs, values);
    if m != [] {
      assert m[0] in m;
    }
  }

  /** The missing keys come in registration order. */
  lemma {:induction false} MissingKeysInOrder(attrs: Attributes, values: Values, p: nat, q: nat)
    requires DistinctKeys(attrs)
    requires p < q < |MissingKeys(attrs, values)|
    ensures KeyIndex(attrs, MissingKeys(attrs, values)[p]).Some?
    ensures KeyIndex(attrs, MissingKeys(attrs, values)[q]).Some?
    ensures KeyIndex(attrs, MissingKeys(attrs, values)[p]).value < KeyIndex(attrs, MissingKeys(attrs, values)[q]).value
  {
    var n := |attrs|;
    var init := attrs[..n - 1];
    var m := MissingKeys(attrs, values);
    var m' := MissingKeys(init, values);
    MissingSnoc(attrs, values);
    assert m[p] == m'[p];
    EarlierKeyIndex(attrs, values, m'[p]);
    if q < |m'| {
      assert m[q] == m'[q];
      EarlierKeyIndex(attrs, values, m'[q]);
      assert DistinctKeys(init);
      MissingKeysInOrder(init, values, p, q);
    } else {
      LastKeyIndex(attrs);
    }
  }

  /** Dropping the last attribute drops at most its own key from the missing keys. */
  lemma MissingSnoc(attrs: Attributes, values: Values)
    requires |attrs| > 0
    ensures var last := attrs[|attrs| - 1];
      MissingKeys(attrs, values) == MissingKeys(attrs[..|attrs| - 1], values)
        + (if last.descriptor.required == REQUIRED && !HasKey(values, last.key) then [last.key] else [])
  {
    var last := attrs[|attrs| - 1];
    AbsentSnoc(RequiredKeys(attrs[..|attrs| - 1]), (if last.descriptor.required == REQUIRED then [last.key] else []), values);
  }

  lemma AbsentSnoc(a: seq<Key>, b: seq<Key>, values: Values)
    requires |b| <= 1
    ensures Absent(a + b, values) == Absent(a, values) + Absent(b, values)
  {
    if b != [] {
      assert (a + b)[..|a + b| - 1] == a;
    } else {
      assert a + b == a;
    }
  }

  /** A key missing among all but the last attribute sits at the same position in
      the whole schema, before the last entry. */
  lemma EarlierKeyIndex(attrs: Attributes, values: Values, k: Key)
    requires |attrs| > 0
    requires k in MissingKeys(attrs[..|attrs| - 1], values)
    ensures KeyIndex(attrs, k) == KeyIndex(attrs[..|attrs| - 1], k)
    ensures KeyIndex(attrs, k).Some? && KeyIndex(attrs, k).value < |attrs| - 1
  {
    var init := attrs[..|attrs| - 1];
    assert k in RequiredKeys(init);
    var j :| 0 <= j < |init| && init[j].key == k && init[j].descriptor.required == REQUIRED;
    InitKeyIndex(attrs, k, j);
  }

  lemma InitKeyIndex(attrs: Attributes, k: Key, j: nat)
    requires j < |attrs| - 1 && attrs[j].key == k
    ensures KeyIndex(attrs, k) == KeyIndex(attrs[..|attrs| - 1], k)
    ensures KeyIndex(attrs, k).Some? && KeyIndex(attrs, k).value <= j
  {
    var init := attrs[..|attrs| - 1];
    assert init[j].key == k;
    var a := KeyIndex(attrs, k);
    var b := KeyIndex(init, k);
    assert a.Some? && a.value <= j;
    assert b.Some? && b.value <= j;
    assert attrs[b.value] == init[b.value];
    assert init[a.value] == attrs[a.value];
  }

  lemma LastKeyIndex(attrs: Attributes)
    requires |attrs| > 0 && DistinctKeys(attrs)
    ensures KeyIndex(attrs, attrs[|attrs| - 1].key) == Some(|attrs| - 1)
  {
    var a := KeyIndex(attrs, attrs[|attrs| - 1].key);
    assert a.Some?;
  }

  // ---------------------------------------------------------------------------
  // uri_to_attr

  /** The first attribute, in registration order, whose predicate is `lookup`. */
  function PredicateIndex(attrs: Attributes, lookup: string): (r: Option<nat>)
    ensures r.Some? ==> r.value < |attrs| && attrs[r.value].descriptor.pred == Some(lookup)
    ensures r.Some? ==> forall j | 0 <= j < r.value :: attrs[j].descriptor.pred != Some(lookup)
    ensures r.None? <==> forall j | 0 <= j < |attrs| :: attrs[j].descriptor.pred != Some(lookup)
  {
    if attrs == [] then None
    else if attrs[0].descriptor.pred == Some(lookup) then Some(0)
    else match PredicateIndex(attrs[1..], lookup)
      case None => None
      case Some(j) => Some(j + 1)
  }

  /** The resolution loop from prefix `i` on, with `check` the URI as stripped so far. */
  function ResolveFrom(prefixes: seq<Prefix>, attrs: Attributes, i: nat, check: string): Result<Key, Error>
    decreases |prefixes| - i
  {
    if i >= |prefixes| then Failure(PrefixNotFound(check))
    else
      var url := prefixes[i].base;
      if Includes(check, url) then
        var rest := SubFirst(check, url, "");
        match PredicateIndex(attrs, prefixes[i].name + ":" + rest)
        case Some(j) => Success(attrs[j].key)
        case None => ResolveFrom(prefixes, attrs, i + 1, rest)
      else ResolveFrom(prefixes, attrs, i + 1, check)
  }

  /** `uri_to_attr`: the attribute key a full predicate URI stands for. */
  function ResolveUri(prefixes: seq<Prefix>, attrs: Attributes, uri: string): Result<Key, Error>
  {
    ResolveFrom(prefixes, attrs, 0, uri)
  }

  /** The only raise of `uri_to_attr` is "Prefix not found", carrying the text as
      stripped by every prefix whose base occurred in it. */
  lemma {:induction false} ResolveFailsWithRemainder(prefixes: seq<Prefix>, attrs: Attributes, i: nat, check: string)
    ensures ResolveFrom(prefixes, attrs, i, check).Failure? ==>
      ResolveFrom(prefixes, attrs, i, check) == Failure(PrefixNotFound(Remainder(prefixes, i, check)))
    decreases |prefixes| - i
  {
    if i < |prefixes| {
      var url := prefixes[i].base;
      if Includes(check, url) {
        ResolveFailsWithRemainder(prefixes, attrs, i + 1, SubFirst(check, url, ""));
      } else {
        ResolveFailsWithRemainder(prefixes, attrs, i + 1, check);
      }
    }
  }

  /** `check` after the loop of `uri_to_attr` has stripped, from prefix `i` on,
      the first occurrence of every base it contains. */
  function Remainder(prefixes: seq<Prefix>, i: nat, check: string): string
    decreases |prefixes| - i
  {
    if i >= |prefixes| then check
    else if Includes(check, prefixes[i].base) then Remainder(prefixes, i + 1, SubFirst(check, prefixes[i].base, ""))
    else Remainder(prefixes, i + 1, check)
  }

  /** A prefix whose base does not occur in the text is passed over. */
  lemma SkipPrefix(prefixes: seq<Prefix>, attrs: Attributes, k: nat, uri: string)
    requires k < |prefixes| && !Includes(uri, prefixes[k].base)
    ensures ResolveFrom(prefixes, attrs, k, uri) == ResolveFrom(prefixes, attrs, k + 1, uri)
  {
  }

  /** Prefixes whose base does not occur in the URI are passed over unchanged. */
  lemma {:induction false} SkipPrefixes(prefixes: seq<Prefix>, attrs: Attributes, k: nat, i: nat, uri: string)
    requires k <= i <= |prefixes|
    requires forall i' | k <= i' < i :: !Includes(uri, prefixes[i'].base)
    ensures ResolveFrom(prefixes, attrs, k, uri) == ResolveFrom(prefixes, attrs, i, uri)
    decreases i - k
  {
    if k < i {
      SkipPrefix(prefixes, attrs, k, uri);
      SkipPrefixes(prefixes, attrs, k + 1, i, uri);
    }
  }

  /** Completeness: the attribute whose predicate is `name:local` is found when the
      base of `name` occurs in the URI and removing its first occurrence leaves
      `local`, provided no earlier prefix base occurs in the URI and no earlier
      attribute has the same predicate. The base need not start the URI. */
  lemma ResolveFinds(prefixes: seq<Prefix>, attrs: Attributes, uri: string, i: nat, j: nat, local: string)
    requires i < |prefixes| && j < |attrs|
    requires attrs[j].descriptor.pred == Some(prefixes[i].name + ":" + local)
    requires forall j' | 0 <= j' < j :: attrs[j'].descriptor.pred != attrs[j].descriptor.pred
    requires forall i' | 0 <= i' < i :: !Includes(uri, prefixes[i'].base)
    requires Includes(uri, prefixes[i].base) && SubFirst(uri, prefixes[i].base, "") == local
    ensures ResolveUri(prefixes, attrs, uri) == Success(attrs[j].key)
  {
    SkipPrefixes(prefixes, attrs, 0, i, uri);
    var lookup := prefixes[i].name + ":" + local;
    var found := PredicateIndex(attrs, lookup);
    assert found.Some?;
    assert attrs[found.value].descriptor.pred == attrs[j].descriptor.pred;
    assert found == Some(j);
  }

  /** Soundness: a resolved key belongs to an attribute whose predicate is a CURIE
      under one of the registered prefix names. */
  lemma {:induction false} ResolveSound(prefixes: seq<Prefix>, attrs: Attributes, i: nat, check: string)
    requires ResolveFrom(prefixes, attrs, i, check).Success?
    ensures exists i', j | i <= i' < |prefixes| && 0 <= j < |attrs| ::
      attrs[j].key == ResolveFrom(prefixes, attrs, i, check).value &&
      attrs[j].descriptor.pred.Some? && IsCurieUnder(attrs[j].descriptor.pred.value, prefixes[i'].name)
    decreases |prefixes| - i
  {
    var url := prefixes[i].base;
    if Includes(check, url) {
      var rest := SubFirst(check, url, "");
      var lookup := prefixes[i].name + ":" + rest;
      match PredicateIndex(attrs, lookup)
      case Some(j) =>
        assert lookup[..|prefixes[i].name| + 1] == prefixes[i].name + ":";
        assert IsCurieUnder(attrs[j].descriptor.pred.value, prefixes[i].name);
      case None =>
        ResolveSound(prefixes, attrs, i + 1, rest);
    } else {
      ResolveSound(prefixes, attrs, i + 1, check);
    }
  }

  /** `p` is written `name:...`. */
  predicate IsCurieUnder(p: string, name: string)
  {
    |name| < |p| && p[..|name| + 1] == name + ":"
  }

  /** No two entries of the prefix table share a name. */
  predicate DistinctNames(prefixes: seq<Prefix>)
  {
    forall a, b | 0 <= a < b < |prefixes| :: prefixes[a].name != prefixes[b].name
  }

  /** No prefix name contains the CURIE separator. */
  predicate PlainNames(prefixes: seq<Prefix>)
  {
    forall a | 0 <= a < |prefixes| :: ':' !in prefixes[a].name
  }

  /** A CURIE `name:local` with a plain name determines its name and its local part. */
  lemma CurieParts(n1: string, r1: string, n2: string, r2: string)
    requires ':' !in n1 && ':' !in n2
    ensures n1 + ":" + r1 == n2 + ":" + r2 ==> n1 == n2 && r1 == r2
  {
    var c := n1 + ":" + r1;
    if c == n2 + ":" + r2 {
      assert c[|n1|] == ':' && c[|n2|] == ':';
      assert forall k | 0 <= k < |n1| :: c[k] == n1[k];
      assert forall k | 0 <= k < |n2| :: c[k] == n2[k];
      UpToFirstIs(c, ':', |n1|);
      UpToFirstIs(c, ':', |n2|);
      assert c[..|n1|] == n1 && c[..|n2|] == n2;
      assert c[|n1| + 1..] == r1 && c[|n2| + 1..] == r2;
    }
  }

  /** A CURIE under the first prefix of its name expands to that prefix's base
      followed by the local part. */
  lemma ExpandCurie(prefixes: seq<Prefix>, i: nat, local: string)
    requires i < |prefixes| && ':' !in prefixes[i].name
    requires forall i' | 0 <= i' < i :: prefixes[i'].name != prefixes[i].name
    ensures Expand(prefixes, prefixes[i].name + ":" + local) == prefixes[i].base + local
  {
    var name := prefixes[i].name;
    var curie := name + ":" + local;
    var upTo := UpToFirst(curie, ':');
    assert upTo == name by {
      assert curie[|name|] == ':';
      assert forall k | 0 <= k < |name| :: curie[k] == name[k] && curie[k] != ':';
      UpToFirstIs(curie, ':', |name|);
      assert curie[..|name|] == name;
    }
    assert curie[|name| + 1..] == local;
    FirstBaseOf(prefixes, i);
  }

  /** The round trip the store relies on: expanding an attribute's CURIE with the
      prefix table and resolving the URI gives the attribute back, provided no
      earlier prefix base occurs in the URI and no earlier attribute has the same
      predicate. */
  lemma ResolveExpanded(prefixes: seq<Prefix>, attrs: Attributes, i: nat, j: nat, local: string)
    requires i < |prefixes| && j < |attrs|
    requires ':' !in prefixes[i].name
    requires forall i' | 0 <= i' < i :: prefixes[i'].name != prefixes[i].name
    requires attrs[j].descriptor.pred == Some(prefixes[i].name + ":" + local)
    requires forall j' | 0 <= j' < j :: attrs[j'].descriptor.pred != attrs[j].descriptor.pred
    requires forall i' | 0 <= i' < i :: !Includes(prefixes[i].base + local, prefixes[i'].base)
    ensures Expand(prefixes, attrs[j].descriptor.pred.value) == prefixes[i].base + local
    ensures ResolveUri(prefixes, attrs, prefixes[i].base + local) == Success(attrs[j].key)
  {
    ExpandCurie(prefixes, i, local);
    var uri := prefixes[i].base + local;
    SubFirstOfPrefix(prefixes[i].base, local, "");
    assert Includes(uri, prefixes[i].base) by {
      assert OccursAt(uri, prefixes[i].base, 0) by { assert uri[..|prefixes[i].base|] == prefixes[i].base; }
    }
    ResolveFinds(prefixes, attrs, uri, i, j, local);
  }

  /** `sub!` strips for good: when the base of an earlier, non-empty prefix occurs
      in the URI `base + local` of a later prefix's attribute, that URI never
      resolves back to the attribute, although the attribute's CURIE expands to
      it. Each earlier cut shortens the text, so at the later prefix what is left
      after its base is shorter than `local`; every other prefix name yields a
      CURIE of another attribute. */
  lemma EarlierBaseShadows(prefixes: seq<Prefix>, attrs: Attributes, i: nat, j: nat, local: string)
    requires i < |prefixes| && j < |attrs|
    requires attrs[j].descriptor.pred == Some(prefixes[i].name + ":" + local)
    requires DistinctKeys(attrs) && DistinctNames(prefixes) && PlainNames(prefixes)
    requires forall a | 0 <= a < i :: prefixes[a].base != []
    requires exists a | 0 <= a < i :: Includes(prefixes[i].base + local, prefixes[a].base)
    ensures Expand(prefixes, attrs[j].descriptor.pred.value) == prefixes[i].base + local
    ensures ResolveUri(prefixes, attrs, prefixes[i].base + local) != Success(attrs[j].key)
  {
    ExpandCurie(prefixes, i, local);
    ShadowedFrom(prefixes, attrs, i, j, local, 0, prefixes[i].base + local);
  }

  /** The resolution loop from prefix `k` on never yields attribute `j`, while the
      text is either already shorter than `base(i) + local` or still equal to it
      with an earlier base yet to be cut. */
  lemma {:induction false} ShadowedFrom(prefixes: seq<Prefix>, attrs: Attributes, i: nat, j: nat, local: string, k: nat, check: string)
    requires i < |prefixes| && j < |attrs|
    requires attrs[j].descriptor.pred == Some(prefixes[i].name + ":" + local)
    requires DistinctKeys(attrs) && DistinctNames(prefixes) && PlainNames(prefixes)
    requires forall a | 0 <= a < i :: prefixes[a].base != []
    requires k <= i ==>
      (|check| < |prefixes[i].base + local| ||
       (check == prefixes[i].base + local && exists a | k <= a < i :: Includes(check, prefixes[a].base)))
    ensures ResolveFrom(prefixes, attrs, k, check) != Success(attrs[j].key)
    decreases |prefixes| - k
  {
    if k < |prefixes| {
      var url := prefixes[k].base;
      if Includes(check, url) {
        var rest := SubFirst(check, url, "");
        var lookup := prefixes[k].name + ":" + rest;
        CutMissesCurie(prefixes, i, local, k, check);
        match PredicateIndex(attrs, lookup)
        case Some(j') =>
          assert attrs[j'].descriptor.pred != attrs[j].descriptor.pred;
        case None =>
          ShadowedFrom(prefixes, attrs, i, j, local, k + 1, rest);
      } else {
        if k < i && check == prefixes[i].base + local {
          var a :| k <= a < i && Includes(check, prefixes[a].base);
          assert a != k;
        }
        ShadowedFrom(prefixes, attrs, i, j, local, k + 1, check);
      }
    }
  }

  /** One step of that loop: the CURIE built after cutting base `k` from `check` is
      not `name(i):local`, and before prefix `i` the cut text is shorter than
      `base(i) + local`. */
  lemma CutMissesCurie(prefixes: seq<Prefix>, i: nat, local: string, k: nat, check: string)
    requires i < |prefixes| && k < |prefixes|
    requires DistinctNames(prefixes) && PlainNames(prefixes)
    requires forall a | 0 <= a < i :: prefixes[a].base != []
    requires Includes(check, prefixes[k].base)
    requires k <= i ==>
      (|check| < |prefixes[i].base + local| ||
       (check == prefixes[i].base + local && exists a | k <= a < i :: Includes(check, prefixes[a].base)))
    ensures prefixes[k].name + ":" + SubFirst(check, prefixes[k].base, "") != prefixes[i].name + ":" + local
    ensures k < i ==> |SubFirst(check, prefixes[k].base, "")| < |prefixes[i].base + local|
  {
    var rest := SubFirst(check, prefixes[k].base, "");
    SubFirstLength(check, prefixes[k].base, "");
    CurieParts(prefixes[k].name, rest, prefixes[i].name, local);
    assert k == i ==> |rest| < |local|;
  }

  /** An instance: with `a` for `x/` listed before `b` for `x/y/`, the CURIE `b:z`
      expands to `x/y/z`, which is cut to `y/z` by `x/` and then fails. */
  lemma EarlierBaseShadowsExample()
    ensures Expand(ShadowPrefixes(), "b:z") == "x/y/z"
    ensures ResolveUri(ShadowPrefixes(), ShadowAttrs(), "x/y/z") == Failure(PrefixNotFound("y/z"))
  {
    ShadowExpands();
    ShadowResolves();
  }

  function ShadowPrefixes(): seq<Prefix>
  {
    [Prefix("a", "x/"), Prefix("b", "x/y/")]
  }

  function ShadowAttrs(): Attributes
  {
    [Attribute(SymKey("z"), Descriptor(Some("b:z"), Some(StringClass), SINGLE, OtherFlag))]
  }

  lemma ShadowExpands()
    ensures Expand(ShadowPrefixes(), "b:z") == "x/y/z"
  {
    UpToFirstIs("b:z", ':', 1);
    assert "b:z"[..1] == "b" && "b:z"[2..] == "z";
    assert BaseOf(ShadowPrefixes(), "b") == Some("x/y/");
    assert "x/y/" + "z" == "x/y/z";
  }

  lemma ShadowResolves()
    ensures ResolveUri(ShadowPrefixes(), ShadowAttrs(), "x/y/z") == Failure(PrefixNotFound("y/z"))
  {
    var prefixes := ShadowPrefixes();
    var attrs := ShadowAttrs();
    assert "x/" + "y/z" == "x/y/z";
    SubFirstOfPrefix("x/", "y/z", "");
    assert OccursAt("x/y/z", "x/", 0) by { assert "x/y/z"[..2] == "x/"; }
    assert Includes("x/y/z", "x/");
    assert SubFirst("x/y/z", "x/", "") == "y/z";
    assert PredicateIndex(attrs, "a" + ":" + "y/z") == None by { assert "b:z" != "a:y/z"; }
    assert ResolveFrom(prefixes, attrs, 0, "x/y/z") == ResolveFrom(prefixes, attrs, 1, "y/z");
    assert !Includes("y/z", "x/y/");
  }

  lemma FirstBaseOf(prefixes: seq<Prefix>, i: nat)
    requires i < |prefixes|
    requires forall i' | 0 <= i' < i :: prefixes[i'].name != prefixes[i].name
    ensures BaseOf(prefixes, prefixes[i].name) == Some(prefixes[i].base)
  {
    if i > 0 {
      FirstBaseOf(prefixes[1..], i - 1);
    }
  }

  // ---------------------------------------------------------------------------
  // new_urn

  /** The key whose predicate counts the entities for URN allocation. */
  const PATH: Key := SymKey("path")

  /** `@template.sub( /%/, index.to_s )`: the first `%` becomes the index in
      decimal; a template without `%` is returned as it is; a nil template raises. */
  function UrnFromTemplate(template: Option<string>, index: nat): (r: Result<string, Error>)
    ensures template.None? <==> r == Failure(NoMethod(NIL_SUB))
    ensures template.Some? && (forall k | 0 <= k < |template.value| :: template.value[k] != '%') ==> r == Success(template.value)
    ensures template.Some? ==> forall i | 0 <= i < |template.value| && template.value[i] == '%' && (forall k | 0 <= k < i :: template.value[k] != '%') ::
      r == Success(template.value[..i] + NatToDecimal(index) + template.value[i + 1..])
  {
    match template
    case None => Failure(NoMethod(NIL_SUB))
    case Some(t) =>
      assert forall k :: OccursAt(t, "%", k) <==> 0 <= k < |t| && t[k] == '%' by {
        forall k ensures OccursAt(t, "%", k) <==> 0 <= k < |t| && t[k] == '%' {
          if 0 <= k < |t| { assert t[k..k + 1] == [t[k]]; }
        }
      }
      Success(SubFirst(t, "%", NatToDecimal(index)))
  }
}
