/** SparqlModel: one RDF entity, addressed by its URN, whose attributes are read
    and written as triples through a store handle. Each method is proved against
    the function in Operations (or Schema) that says what it does. */
module Mapper {
  import opened RubyStrings
  import opened RubyValues
  import opened TripleStore
  import opened Schema
  import opened Operations

  class SparqlModel {
    /** `@attributes`: key => [predicate, type, SINGLE/MULTI, REQUIRED]. */
    const attributes: Attributes
    /** `@template`: the URN pattern, its `%` standing for the entity's index. */
    const template: Option<string>
    /** `@sparql`: the store handle, built over `@prefixes`. */
    const store: Store
    /** `@urn`: the entity's URN, nil until bound. */
    var urn: Option<string>

    /** A model configured with a schema, a URN template and a store handle; no URN
        is bound yet. */
    constructor (attributes: Attributes, template: Option<string>, store: Store)
      ensures this.attributes == attributes && this.template == template && this.store == store
      ensures urn.None?
    {
      this.attributes := attributes;
      this.template := template;
      this.store := store;
      urn := None;
    }

    /** `create`: bind a new URN, check the required keys, then `change`. */
    method Create(values: Values) returns (r: Outcome<Error>)
      modifies this, store
      ensures (r, urn, store.triples) == CreateEffect(attributes, template, old(urn), values, old(store.triples))
    {
      var minted := NewUrn();
      if minted.Failure? {
        return Fail(minted.error);
      }
      urn := Some(minted.value);
      var checked := RequiredCheck(values);
      MissingKeysExactly(attributes, values);
      if checked.Fail? {
        return checked;
      }
      r := Change(values);
    }

    /** `change`: each pair of the hash in order, routed by its SINGLE/MULTI flag;
        the first raise ends it, with earlier writes kept. */
    method Change(values: Values) returns (r: Outcome<Error>)
      modifies store
      ensures (r, store.triples) == ChangeSpec(attributes, urn, values, old(store.triples))
    {
      var i := 0;
      while i < |values|
        invariant 0 <= i <= |values|
        invariant ChangeSpec(attributes, urn, values, old(store.triples)) == ChangeSpec(attributes, urn, values[i..], store.triples)
      {
        assert values[i..][0] == values[i] && values[i..][1..] == values[i + 1..];
        var o := ChangePair(values[i].0, values[i].1);
        if o.Fail? {
          return o;
        }
        i := i + 1;
      }
      return Pass;
    }

    /** The block `change` runs for one pair: `single_or_multi`, then one update
        (SINGLE), one add per Array element or one add (MULTI), or nothing. */
    method ChangePair(key: Key, value: Value) returns (r: Outcome<Error>)
      modifies store
      ensures (r, store.triples) == PairEffect(attributes, urn, key, value, old(store.triples))
    {
      var check := SingleOrMulti(attributes, key);
      if check.Failure? {
        return Fail(check.error);
      }
      if check.value == SINGLE {
        var updated := Update(key, value);
        if updated.Failure? {
          return Fail(updated.error);
        }
        assert CallsFor(SINGLE, key, value) == [UpdateCall(key, value)];
        assert Run(attributes, urn, [UpdateCall(key, value)], old(store.triples)) == (Pass, store.triples);
      } else if check.value == MULTI {
        if value.Arr? {
          ghost var calls := CallsFor(MULTI, key, value);
          var j := 0;
          while j < |value.items|
            invariant 0 <= j <= |value.items|
            invariant Run(attributes, urn, calls, old(store.triples)) == Run(attributes, urn, calls[j..], store.triples)
          {
            assert calls[j..][0] == AddCall(key, value.items[j]) && calls[j..][1..] == calls[j + 1..];
            var added := Add(key, value.items[j]);
            if added.Fail? {
              return added;
            }
            j := j + 1;
          }
          assert calls[j..] == [];
        } else {
          var added := Add(key, value);
          if added.Fail? {
            return added;
          }
          assert CallsFor(MULTI, key, value) == [AddCall(key, value)];
          assert Run(attributes, urn, [AddCall(key, value)], old(store.triples)) == (Pass, store.triples);
        }
      }
      return Pass;
    }

    /** `add`: insert one more value of a MULTI attribute. */
    method Add(key: Key, v: Value) returns (r: Outcome<Error>)
      modifies store
      ensures (r, store.triples) == AddEffect(attributes, urn, key, v, old(store.triples))
    {
      var bound := UrnCheck(urn);
      if bound.Fail? {
        return bound;
      }
      var k := ToSym(key);
      var known := AttrCheck(attributes, k);
      if known.Fail? {
        return known;
      }
      var cls := TypeOf(attributes, k);
      if cls.Failure? {
        return Fail(cls.error);
      }
      var accepted := TypeClassCheck(cls.value, v);
      if accepted.Fail? {
        return accepted;
      }
      var multi := MultiCheck(attributes, k);
      if multi.Fail? {
        return multi;
      }
      var p := PredOf(attributes, k);
      if p.Failure? {
        return Fail(p.error);
      }
      store.Insert(Triple(urn.value, p.value, v));
      return Pass;
    }

    /** `delete`: remove one value, or every value when none is given. */
    method Delete(key: Key, v: Value) returns (r: Outcome<Error>)
      modifies store
      ensures (r, store.triples) == DeleteEffect(attributes, urn, key, v, old(store.triples))
    {
      var bound := UrnCheck(urn);
      if bound.Fail? {
        return bound;
      }
      var k := ToSym(key);
      var known := AttrCheck(attributes, k);
      if known.Fail? {
        return known;
      }
      var p := PredOf(attributes, k);
      if p.Failure? {
        return Fail(p.error);
      }
      if v.Nil? {
        store.Delete(Pattern(urn.value, p.value, None));
        return Pass;
      }
      store.Delete(Pattern(urn.value, p.value, Some(v)));
      return Pass;
    }

    /** `all`: every stored attribute of the entity, keyed by attribute. */
    method All() returns (r: Result<map<Key, string>, Error>)
      ensures r == AllSpec(store.prefixes, attributes, urn, store.triples)
    {
      var bound := UrnCheck(urn);
      :- bound;
      var values := store.Select(urn.value);
      var results: map<Key, string> := map[];
      var i := 0;
      while i < |values|
        invariant 0 <= i <= |values|
        invariant Collected(store.prefixes, attributes, values[..i]) == Success(results)
      {
        assert values[..i + 1][..i] == values[..i];
        var key := UriToAttr(values[i].pred);
        if key.Failure? {
          CollectedPrefixFails(store.prefixes, attributes, values, i + 1);
          return Failure(key.error);
        }
        results := results[key.value := values[i].obj];
        i := i + 1;
      }
      assert values[..i] == values;
      return Success(results);
    }

    /** `method_missing`: `name` reads the attribute, `name=( value )` writes it. */
    method Access(name: string, args: seq<Value>) returns (r: Result<Reading, Error>)
      modifies store
      ensures (r, store.triples) == UpdateEffect(attributes, urn, AccessKey(name), AccessValue(args), old(store.triples))
    {
      var key := AccessKey(name);
      var value := AccessValue(args);
      r := Update(key, value);
    }

    /** `uri_to_attr`: the prefixes in order; where a base occurs in the URI, its
        first occurrence is cut out of the text being checked (for good) and
        `name:rest` is looked up among the predicates. */
    method UriToAttr(uri: string) returns (r: Result<Key, Error>)
      ensures r == ResolveUri(store.prefixes, attributes, uri)
    {
      var prefixes := store.prefixes;
      var check := uri;
      var i := 0;
      while i < |prefixes|
        invariant 0 <= i <= |prefixes|
        invariant ResolveUri(prefixes, attributes, uri) == ResolveFrom(prefixes, attributes, i, check)
      {
        var url := prefixes[i].base;
        if Includes(check, url) {
          check := SubFirst(check, url, "");
          var found := FindPredicate(prefixes[i].name + ":" + check);
          if found.Some? {
            return Success(attributes[found.value].key);
          }
        }
        i := i + 1;
      }
      return Failure(PrefixNotFound(check));
    }

    /** The inner loop of `uri_to_attr`: the first attribute whose predicate is
        `lookup`. */
    method FindPredicate(lookup: string) returns (r: Option<nat>)
      ensures r == PredicateIndex(attributes, lookup)
    {
      var j := 0;
      while j < |attributes|
        invariant 0 <= j <= |attributes|
        invariant forall j' | 0 <= j' < j :: attributes[j'].descriptor.pred != Some(lookup)
      {
        if attributes[j].descriptor.pred == Some(lookup) {
          return Some(j);
        }
        j := j + 1;
      }
      return None;
    }

    /** `required_check`: raises, naming the missing keys, exactly when some
        REQUIRED attribute is absent from the hash. */
    method RequiredCheck(values: Values) returns (r: Outcome<Error>)
      ensures r.Pass? <==> forall j | 0 <= j < |attributes| ::
        attributes[j].descriptor.required == REQUIRED ==> HasKey(values, attributes[j].key)
      ensures r.Fail? ==> r == Fail(RequiredValuesMissing(MissingKeys(attributes, values)))
    {
      var check: seq<Key> := [];
      var i := 0;
      while i < |attributes|
        invariant 0 <= i <= |attributes|
        invariant check == RequiredKeys(attributes[..i])
      {
        assert attributes[..i + 1][..i] == attributes[..i];
        if attributes[i].descriptor.required == REQUIRED {
          check := check + [attributes[i].key];
        }
        i := i + 1;
      }
      assert attributes[..i] == attributes;
      var missing: seq<Key> := [];
      var k := 0;
      while k < |check|
        invariant 0 <= k <= |check|
        invariant missing == Absent(check[..k], values)
      {
        assert check[..k + 1][..k] == check[..k];
        if !HasKey(values, check[k]) {
          missing := missing + [check[k]];
        }
        k := k + 1;
      }
      assert check[..k] == check;
      MissingKeysExactly(attributes, values);
      if |missing| > 0 {
        return Fail(RequiredValuesMissing(missing));
      }
      return Pass;
    }

    /** `update`: with a nil value, read the attribute (coerced by its declared
        type); otherwise overwrite it with the value. */
    method Update(key: Key, v: Value) returns (r: Result<Reading, Error>)
      modifies store
      ensures (r, store.triples) == UpdateEffect(attributes, urn, key, v, old(store.triples))
    {
      var bound := UrnCheck(urn);
      :- bound;
      :- AttrCheck(attributes, key);
      if v.Nil? {
        r := Read(key);
        return;
      }
      var cls :- TypeOf(attributes, key);
      :- TypeClassCheck(cls, v);
      :- SingleCheck(attributes, key);
      var p :- PredOf(attributes, key);
      store.Update(Triple(urn.value, p, v));
      return Success(NoReading);
    }

    /** The get mode of `update`: the stored value coerced by the declared type. */
    method Read(key: Key) returns (r: Result<Reading, Error>)
      requires urn.Some?
      ensures r == ReadSpec(attributes, store.triples, urn.value, key)
    {
      var p :- PredOf(attributes, key);
      var sval := store.ValueOf(urn.value, p);
      match sval {
        case Str(s) =>
          var c :- DataValue(attributes, key, s);
          return Success(One(c));
        case Arr(items) =>
          var cs :- CoerceTexts(key, TextsOf(items));
          return Success(Many(cs));
        case _ =>
          return Success(NoReading);
      }
    }

    /** The `map` of `data_value` over the texts of an Array, stopping at the first raise. */
    method CoerceTexts(key: Key, texts: seq<string>) returns (r: Result<seq<Coerced>, Error>)
      ensures r == CoerceAll(attributes, key, texts)
    {
      var out: seq<Coerced> := [];
      var j := 0;
      while j < |texts|
        invariant 0 <= j <= |texts|
        invariant CoerceAll(attributes, key, texts[..j]) == Success(out)
      {
        assert texts[..j + 1][..j] == texts[..j];
        var c :- DataValue(attributes, key, texts[j]);
        out := out + [c];
        j := j + 1;
      }
      assert texts[..j] == texts;
      return Success(out);
    }

    /** `new_urn`: the template filled with the store's next index. */
    method NewUrn() returns (r: Result<string, Error>)
      ensures r == NewUrnSpec(attributes, template, store.triples)
    {
      var p :- PredOf(attributes, PATH);
      var index := store.NextIndex(p);
      r := UrnFromTemplate(template, index);
    }
  }
}
