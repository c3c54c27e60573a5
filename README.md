# sparql_model in Dafny

`SparqlModel` is a single-entity object-to-triple mapper written in Ruby. A
subclass declares an attribute schema. The schema maps each attribute key to the
tuple `[predicate, type, SINGLE/MULTI, REQUIRED]`, and the subclass also declares
a prefix table and a URN template. One instance of the mapper then stands for one
RDF entity, addressed by its URN. Its attributes are read and written as
(subject, predicate, object) triples in a triple store.

This project models the whole class `SparqlModel` of `lib/sparql_model.rb`:

- the schema validators (`attr?`, `type?`, `pred`, `single_or_multi`, `single?`,
  `multi?`, `urn?`, `type_class?`), which each return a value or raise;
- `required_check`, `data_value`, `uri_to_attr` and `new_urn`;
- the operations that change the store: `create`, `change`, `add`, `delete`,
  `update` in its get and set modes, `all`, and `method_missing`.

Files:

- `ruby_strings.dfy` (module `RubyStrings`): the Ruby String operations the class
  relies on. These are `include?`, `sub`/`sub!` with a literal pattern, the
  anchored match `^[^=]*`, and `Integer#to_s`.
- `ruby_values.dfy` (module `RubyValues`): Ruby values and their classes, the
  Fixnum/Bignum split of Ruby before 2.4 on a 64-bit build, Symbol and String hash
  keys, `to_s`, and the raise-or-return protocol (`Result`, `Outcome`).
- `triple_store.dfy` (module `TripleStore`): the store as a sequence of triples.
  Its six operations (`insert`, `delete`, `update`, `select`, `value`,
  `next_index`) are specification functions, and the `Store` class is the client
  handle.
- `schema.dfy` (module `Schema`): the attribute schema, the validators, the
  coercion, the required-keys check, URI resolution and the URN template.
- `operations.dfy` (module `Operations`): what each public operation does, as a
  function from the URN and the store's triples to the result and the new
  triples. It also holds the lemmas that relate operations to each other.
- `sparql_model.dfy` (module `Mapper`): the class `SparqlModel`. It has the field
  `urn`, the schema, the template and the store handle. Each method is written as
  the Ruby one is, loops included, and is proved against its function.

Raised exceptions are `Failure`/`Fail` values of the datatype `Schema.Error`:

- Each `raise` in the source is one constructor.
- `RequiredValuesMissing` carries the list of missing keys.
- `PrefixNotFound` carries the remaining text.
- `NoMethod` stands for the NoMethodError Ruby raises on `nil[i]`, on
  `x.integer?` for a non-Numeric `x`, and on `nil.sub`.

The code behaves in ways its method names do not suggest. The model follows the
code in each of these:

- `uri_to_attr` tests whether a prefix base occurs anywhere in the URI, because it
  uses `include?`. It is not a starts-with test. It also strips the base for good
  with `sub!`, so later prefixes are tested against the shortened text. As a
  result, an earlier base that occurs inside a later one makes the later prefix's
  attributes unresolvable (`Schema.EarlierBaseShadows`).
- `new_urn` counts the subjects that carry the `:path` predicate. A `create` whose
  hash gives no `:path` therefore leaves the count where it was, and the next
  `create` binds the same URN (see Findings).
- `data_value` has a branch for `Fixnum` but none for `Float`, so a Float
  attribute reads back as nil (see Findings).
- `all` keeps one text per attribute: the last binding the store gives for it
  (`Operations.CollectedKeepsLast`, `Operations.AllReportsLastAdded`). It does not
  collect every value of a MULTI attribute.
- A non-Numeric value (a String, say) given where Integer is declared raises
  NoMethodError from `integer?`, not the type-mismatch error. A Float given where
  Integer is declared does raise the type-mismatch error
  (`Schema.TypeClassCheck`).
- Adding to a SINGLE attribute raises `NotMulti`, and a set-mode update of a MULTI
  attribute raises `NotSingle`. The message of the second one points the caller
  to `add`.

## Model

| member | source | states |
|---|---|---|
| RubyStrings.FirstIndex | lib/sparql_model.rb:112 | `include?`: the index found is an occurrence with no earlier one, and no index means no occurrence anywhere (a substring test) |
| RubyStrings.SubFirst | lib/sparql_model.rb:113 | `sub!` with a literal: a text with no occurrence of the pattern comes back unchanged |
| RubyStrings.SubFirstAtFirst | lib/sparql_model.rb:113 | `sub!` with a literal replaces the first occurrence only: the text before it and after it are kept |
| RubyStrings.SubFirstLength | lib/sparql_model.rb:113 | `sub!` of a literal that occurs swaps exactly the pattern's length for the replacement's |
| RubyStrings.SubFirstInjective | lib/sparql_model.rb:278 | `sub` of a pattern that occurs keeps what it put in: different replacements give different results |
| RubyStrings.SubFirstOfPrefix | lib/sparql_model.rb:113 | cutting a base off a text that starts with it leaves exactly the rest |
| RubyStrings.UpToFirst | lib/sparql_model.rb:96 | `^[^=]*`: the match is a prefix of the name, holds no `=`, and stops at the first `=` or the end |
| RubyStrings.UpToFirstIs | lib/sparql_model.rb:96 | the match is the text up to the first `=`, whatever follows |
| RubyStrings.NatToDecimal | lib/sparql_model.rb:278 | `index.to_s`: decimal digits only, at least one, no leading zero |
| RubyStrings.DecimalRoundTrip | lib/sparql_model.rb:278 | the decimal text of the index reads back as the index |
| RubyValues.ToSym | lib/sparql_model.rb:53 | `to_sym` gives the Symbol of the same name |
| TripleStore.Inserted | lib/sparql_model.rb:58 | insert, as the client is assumed to behave: the triple is added after every earlier one, kept in order; a triple already stored leaves the store exactly as it was |
| TripleStore.Without | lib/sparql_model.rb:64-73 | delete removes exactly the triples the pattern (exact or wildcard object) matches |
| TripleStore.Replaced | lib/sparql_model.rb:201 | update leaves the new triple and every triple of another subject or predicate |
| TripleStore.ObjectsOf | lib/sparql_model.rb:172 | the objects read for (urn, predicate) are exactly those stored |
| TripleStore.ReplacedObjects | lib/sparql_model.rb:201 | after update the only object under (urn, predicate) is the new one |
| TripleStore.InsertedObjects | lib/sparql_model.rb:58 | insert appends the object to those already stored under (urn, predicate) |
| TripleStore.BindingOfStored | lib/sparql_model.rb:78 | every stored triple of the subject appears among `select`'s bindings, with its predicate expanded and its object as text |
| TripleStore.NextIndexAdvances | lib/sparql_model.rb:277 | storing the `:path` predicate for a new subject moves `next_index` on by one |
| TripleStore.Store.Insert | lib/sparql_model.rb:58 | the client's insert sets the triples to `Inserted` of the old ones |
| TripleStore.Store.Delete | lib/sparql_model.rb:69-72 | the client's delete sets the triples to `Without` of the old ones |
| TripleStore.Store.Update | lib/sparql_model.rb:201 | the client's update sets the triples to `Replaced` of the old ones |
| TripleStore.Store.Select | lib/sparql_model.rb:78 | select returns the subject's predicate/object bindings in store order |
| TripleStore.Store.ValueOf | lib/sparql_model.rb:172 | value returns nil, a String or an Array of Strings for the stored objects |
| TripleStore.Store.NextIndex | lib/sparql_model.rb:277 | next_index is one more than the number of subjects having the predicate |
| Schema.KeyIndex | lib/sparql_model.rb:207 | the first schema position holding the key; none exactly when the key is unregistered |
| Schema.Lookup | lib/sparql_model.rb:215 | `@attributes[key]` is nil exactly for an unregistered key, else that key's tuple |
| Schema.UrnCheck | lib/sparql_model.rb:250-254 | `urn?` passes exactly when a URN is bound, else raises UrnNotSet |
| Schema.AttrCheck | lib/sparql_model.rb:206-210 | `attr?` passes exactly when the key is registered, else raises AttributeNotFound(key) |
| Schema.TypeOf | lib/sparql_model.rb:214-220 | `type?` returns the declared class; a nil type raises TypeNotSpecified, an unregistered key NoMethodError |
| Schema.PredOf | lib/sparql_model.rb:225-231 | `pred` returns the declared predicate; a nil one raises PredicateNotSpecified, an unregistered key NoMethodError |
| Schema.SingleOrMulti | lib/sparql_model.rb:257-259 | returns the cardinality flag of a registered key; raises NoMethodError for any other |
| Schema.SingleCheck | lib/sparql_model.rb:234-239 | `single?` passes exactly when the flag is SINGLE (`true`), else raises NotSingle |
| Schema.MultiCheck | lib/sparql_model.rb:242-247 | `multi?` passes exactly when the flag is MULTI (`false`), else raises NotMulti |
| Schema.TypeClassCheck | lib/sparql_model.rb:263-272 | passes exactly when the value's class is the declared one or Integer is declared and the value is integral; a non-Numeric value under Integer raises NoMethodError (`integer?`), anything else TypeMismatch(given, needed) |
| Schema.DataValue | lib/sparql_model.rb:149-160 | raises exactly as `type?` does; on success a String class gives `to_s` of the text, Integer `to_i`, Fixnum `to_f`, and any other declared class (Float included) gives nil |
| Schema.IntendedDataValue | lib/sparql_model.rb:149-160 | the corrected coercion: raises exactly as `type?` does; String gives `to_s`, Integer `to_i`, Float `to_f`; nil exactly for any other class |
| Schema.RequiredKeys | lib/sparql_model.rb:131-136 | the keys pushed are exactly those flagged REQUIRED |
| Schema.Absent | lib/sparql_model.rb:137-142 | the keys pushed as missing are exactly the required ones the hash lacks |
| Schema.MissingKeysExactly | lib/sparql_model.rb:130-146 | a key is reported missing iff it is REQUIRED and absent; so the check raises iff some REQUIRED key is absent |
| Schema.MissingKeysInOrder | lib/sparql_model.rb:130-146 | the missing keys are listed in schema registration order |
| Schema.PredicateIndex | lib/sparql_model.rb:115-119 | the first attribute, in registration order, whose predicate is the CURIE looked up |
| Schema.SkipPrefixes | lib/sparql_model.rb:110-112 | prefixes whose base does not occur in the URI are passed over without effect |
| Schema.ResolveFinds | lib/sparql_model.rb:108-121 | a URI containing a prefix base resolves to the first attribute whose predicate is `prefix:rest`, when no earlier base occurs in it |
| Schema.ResolveSound | lib/sparql_model.rb:108-121 | a resolved key belongs to an attribute whose predicate is a CURIE under a registered prefix name |
| Schema.ResolveExpanded | lib/sparql_model.rb:108-126 | expanding an attribute's CURIE and resolving the URI gives the attribute back, when no earlier prefix or attribute matches first |
| Schema.ResolveFailsWithRemainder | lib/sparql_model.rb:122-125 | the only raise is "Prefix not found", with the text as stripped by every base that occurred in it |
| Schema.CurieParts | lib/sparql_model.rb:114 | `key.to_s+":"+last` determines the prefix name and the rest, when prefix names hold no `:` |
| Schema.EarlierBaseShadows | lib/sparql_model.rb:108-125 | for every prefix whose expanded URI contains the non-empty base of an earlier prefix, and distinct keys and prefix names, resolving that URI never gives the attribute whose predicate is that prefix's CURIE |
| Schema.ShadowedFrom | lib/sparql_model.rb:110-121 | the loop from any prefix on never returns that attribute while the text is shorter than the URI or an earlier base in it is still to be cut |
| Schema.EarlierBaseShadowsExample | lib/sparql_model.rb:110-125 | an instance: with `a` for `x/` before `b` for `x/y/`, `b:z` expands to `x/y/z`, which raises Prefix not found with `y/z` |
| Schema.UrnFromTemplate | lib/sparql_model.rb:278 | only the first `%` becomes the decimal index; a template without `%` comes back unchanged; a nil template raises NoMethodError |
| Operations.AddTriple | lib/sparql_model.rb:51-59 | `add` succeeds iff URN bound, key registered, type declared, value accepted and flag MULTI (with a predicate); each failing check raises its own error, in that order; the triple is (urn, pred(key), value) |
| Operations.AddInsertsOne | lib/sparql_model.rb:51-59 | a failing add leaves the store unchanged; a successful one inserts that one triple and removes nothing |
| Operations.AddAccumulates | lib/sparql_model.rb:51-59 | two successful adds under one key leave both values stored; a value of the first one's class always passes |
| Operations.DeleteTarget | lib/sparql_model.rb:64-73 | `delete` needs a bound URN and a registered key; its pattern is (urn, pred(key), value), with nil as the wildcard |
| Operations.DeleteRemovesMatching | lib/sparql_model.rb:64-73 | delete without value clears every object of (urn, pred); with a value removes that triple only; all others stay |
| Operations.DeleteThenGet | lib/sparql_model.rb:68-70 | after a delete without value, reading the attribute gives nil |
| Operations.SetTriple | lib/sparql_model.rb:198-201 | set mode succeeds iff type declared, value accepted and flag SINGLE (with a predicate); a MULTI attribute raises NotSingle |
| Operations.CoerceAll | lib/sparql_model.rb:184-188 | an Array read keeps its length and raises exactly when the array is non-empty and `type?` raises, with `type?`'s error |
| Operations.CoerceAllAt | lib/sparql_model.rb:184-188 | element `i` of the coerced Array is `data_value` of element `i` of the stored Array (order kept) |
| Operations.CoerceAllEach | lib/sparql_model.rb:184-188 | every element of the coerced Array is `data_value` of the stored element at the same place |
| Operations.ReadSpec | lib/sparql_model.rb:171-194 | get mode: a String is coerced once, an Array element-wise, anything else reads as nil |
| Operations.UpdateOverwrites | lib/sparql_model.rb:165-202 | get mode and failing set mode never write; a successful set leaves only the new value under (urn, pred) and every other triple |
| Operations.FloatReadsNil | lib/sparql_model.rb:149-160 | as written: setting a Float under a Float attribute passes, and reading it back gives nil |
| Operations.IntendedSetThenGet | lib/sparql_model.rb:149-201 | with the corrected coercion, a value set under String, Integer or Float reads back from its own text, and a Float by `to_f` |
| Operations.SetThenGet | lib/sparql_model.rb:171-201 | reading right after a successful set gives the value's text, coerced by the declared type |
| Operations.OtherFlagSkipped | lib/sparql_model.rb:33-44 | a flag neither SINGLE nor MULTI makes no call, no raise and no write |
| Operations.MultiArrayAddsEach | lib/sparql_model.rb:36-40 | a MULTI key with an Array value is one add per element, in element order |
| Operations.ChangeRunsPlan | lib/sparql_model.rb:30-46 | `change` runs the routed calls of all pairs in hash order, stopping at the first raise, then raises for an unregistered key if there is one |
| Operations.CollectedFails | lib/sparql_model.rb:80-81 | `all` raises iff some stored predicate does not resolve |
| Operations.CollectedPrefixFails | lib/sparql_model.rb:80-81 | the first binding that fails to resolve decides what `all` raises |
| Operations.CollectedKeys | lib/sparql_model.rb:80-87 | `all` reports exactly the keys that some stored predicate resolves to |
| Operations.CollectedKeepsLast | lib/sparql_model.rb:80-87 | for each key, `all` reports the text of the last binding resolving to it |
| Operations.AllReportsLastAdded | lib/sparql_model.rb:76-89 | after adding a new value, `all` reports that value (and no earlier one) for the key, with bindings listed in store order |
| Operations.AllReportsAnyOrder | lib/sparql_model.rb:76-89 | after an add, in whatever order `select` lists the bindings, `all` reports the key with the text of a stored binding that resolves to it |
| Operations.AccessReaderWriter | lib/sparql_model.rb:96 | the reader `name` and the writer `name=` address the same attribute |
| Operations.CreateChecksRequired | lib/sparql_model.rb:22-26 | `create` binds the new URN first; a missing required key then raises, writes nothing and leaves the URN bound; otherwise it is `change` under the new URN |
| Operations.CreateReusesUrn | lib/sparql_model.rb:22-26 | as written: two `create`s from a hash without `:path` both pass and bind the same URN `urn:doc:1` |
| Operations.CreateMintsFreshUrn | lib/sparql_model.rb:22-26 | when `:path` is SINGLE, the hash gives it a value and `create` passes, the URN bound is no earlier subject, now carries `:path`, and `next_index` moves on by one |
| Operations.NumberedFresh | lib/sparql_model.rb:276-279 | in a store whose subjects all come from earlier indexes, the URN of the next index is unused |
| Operations.NumberedExtends | lib/sparql_model.rb:276-279 | writing only under the next index's URN while the index moves on by one keeps every subject numbered |
| Operations.UrnInjective | lib/sparql_model.rb:278 | two indexes give the same URN only when they are equal, for a template with a `%` |
| Operations.ChangeGrows | lib/sparql_model.rb:30-46 | `change` under URN `u` writes only triples of `u` and never takes `u`'s `:path` predicate away |
| Operations.ChangeWritesPath | lib/sparql_model.rb:30-46 | a passing `change` whose hash gives a SINGLE `:path` a value leaves `u` a subject of the `:path` predicate |
| Operations.UnboundRaisesFirst | lib/sparql_model.rb:250-254 | with no URN, add, delete, update and all raise UrnNotSet before anything else and leave the store as it was |
| Mapper.SparqlModel.constructor | lib/sparql_model.rb:12-18 | a configured model starts with no URN bound |
| Mapper.SparqlModel.Create | lib/sparql_model.rb:22-26 | result, bound URN and new triples are those of `CreateEffect` |
| Mapper.SparqlModel.Change | lib/sparql_model.rb:30-46 | the loop over the hash gives the result and triples of `ChangeSpec` |
| Mapper.SparqlModel.ChangePair | lib/sparql_model.rb:32-44 | one pair's routing, with the loop over Array elements, gives `PairEffect` |
| Mapper.SparqlModel.Add | lib/sparql_model.rb:51-59 | the checks in order, then the insert: `AddEffect` |
| Mapper.SparqlModel.Delete | lib/sparql_model.rb:64-73 | the checks, then the exact or wildcard delete: `DeleteEffect` |
| Mapper.SparqlModel.All | lib/sparql_model.rb:76-89 | the loop filling `results` returns `AllSpec` of the store |
| Mapper.SparqlModel.Access | lib/sparql_model.rb:92-102 | `method_missing` is `update( name up to '=', first argument or nil )` |
| Mapper.SparqlModel.UriToAttr | lib/sparql_model.rb:108-126 | the nested loops, with `check` cut in place, return `ResolveUri` |
| Mapper.SparqlModel.FindPredicate | lib/sparql_model.rb:115-119 | the inner loop returns the first attribute with the predicate |
| Mapper.SparqlModel.RequiredCheck | lib/sparql_model.rb:130-146 | raises iff some REQUIRED attribute is absent from the hash, naming the missing keys in order; changes nothing |
| Mapper.SparqlModel.Update | lib/sparql_model.rb:165-202 | `urn?`, `attr?`, then get mode or set mode: the result and the new store are `UpdateEffect` |
| Mapper.SparqlModel.Read | lib/sparql_model.rb:171-193 | the get mode returns `ReadSpec` of the current store |
| Mapper.SparqlModel.CoerceTexts | lib/sparql_model.rb:184-188 | the loop building `out` over an Array's texts gives `CoerceAll` |
| Mapper.SparqlModel.NewUrn | lib/sparql_model.rb:276-279 | the template filled with the store's next index for the `:path` predicate |

## Left out

- The SparqlQuick client and its endpoint (lib/sparql_model.rb:1, 17) are replaced
  by `TripleStore.Store`, an in-memory sequence of triples. Predicates are stored
  as the mapper gives them. `select` expands them with the prefix table, because
  the client is built with `@prefixes`. `value` returns nil, a String, or an Array
  of Strings for none, one or several objects; the client's own code is not part
  of this model.
- `String#clip` (lib/sparql_model.rb:111) comes from a library that is not part of
  this model. The prefix table holds each base already clipped.
- Schema.DataValue: records which conversion applies (`to_s`, `to_i`, `to_f`) to
  which text but does not compute the numbers. Ruby's lenient `to_i` and floating
  point `to_f` are not modelled.
- RubyValues.Inspect: the `inspect` text of an Array value does not escape special
  characters inside strings.
- Mapper.SparqlModel.Update: set mode returns nil (`NoReading`), not whatever the
  client's `update` returns.
- Mapper.SparqlModel.Add and Mapper.SparqlModel.Delete return only pass or raise,
  not the client's return value.
- `all` returns a map. The iteration order of the Ruby Hash it builds is not
  modelled.
- The store client's behaviour is assumed, not derived. Its code is not part of
  this model. Three assumptions matter:
  - `insert` (lib/sparql_model.rb:58) does not store a triple twice;
  - `select` (lib/sparql_model.rb:78) lists the bindings in insertion order;
  - `next_index` (lib/sparql_model.rb:277) is one more than the number of
    subjects having the predicate.
- Operations.AllReportsLastAdded: relies on `select` listing the bindings in
  insertion order, which the client does not promise.
  `Operations.AllReportsAnyOrder` states the property that holds in any order.
- Mapper.SparqlModel.Change and Mapper.SparqlModel.Create return only pass or
  raise. Ruby's `change` returns the hash it was given, because `Hash#each`
  returns its receiver, and `create` returns what `change` returns.
- Concurrency: the race between `next_index` and the first insert of a new entity
  is not modelled. Neither is atomicity across the several writes of `create` or
  `change`; a raise part-way keeps the earlier writes, as the code does.
- Error messages are modelled only as the kind of error, plus the list of missing
  keys and the remaining URI text.
- The line `type = @attributes[ key ][1]` in `all` (lib/sparql_model.rb:85) has no
  effect: the key comes from the schema, so it cannot raise. It is not modelled.
- Ruby 2.4 and later, where Fixnum and Bignum are merged into Integer, is not
  modelled.
- Dynamic dispatch in `method_missing` is not modelled: `Access` takes the method
  name and the arguments directly.

## Findings

| source | as written | input that shows it | evidently intended | confidence | as-written member | corrected member |
|---|---|---|---|---|---|---|
| lib/sparql_model.rb:22-26, 276-279 | `new_urn` counts the subjects with the `:path` predicate, and `create` writes `:path` only if the hash has it | template `urn:doc:%`, `:path` String SINGLE optional, `:title` String SINGLE REQUIRED; `create({title: "a"})` twice on an empty store binds `urn:doc:1` both times | each `create` binds a URN that no entity has yet | not executed | Operations.CreateReusesUrn | Operations.CreateMintsFreshUrn (the condition under which the URN is fresh and the count moves on) |
| lib/sparql_model.rb:149-160 | `data_value` converts Fixnum by `to_f` and has no Float branch, so it returns nil for a Float attribute | attribute of class Float; `update(key, 1.5)` then `update(key)` gives nil | a Float attribute reads back by `to_f` | not executed | Operations.FloatReadsNil | Schema.IntendedDataValue, Operations.IntendedSetThenGet |

The operations keep the code's `data_value` and `new_urn`. The corrected
members state what the intended versions guarantee.

