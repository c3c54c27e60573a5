/** The triple store the mapper talks to, as an in-memory sequence of triples.
    The store is external to the mapper; this module gives the six operations it
    relies on (`insert`, `delete`, `update`, `select`, `value`, `next_index`) a
    meaning precise enough to state what each mapper operation does to the store. */
module TripleStore {
  import opened RubyStrings
  import opened RubyValues

  /** A prefix-table entry: the prefix name and the URI base it abbreviates. */
  datatype Prefix = Prefix(name: string, base: string)

  /** An RDF statement. Predicates are written as the mapper gives them (CURIEs). */
  datatype Triple = Triple(subject: string, pred: string, obj: Value)

  /** A delete pattern; an absent object is the wildcard `:o`. */
  datatype Pattern = Pattern(subject: string, pred: string, obj: Option<Value>)

  predicate Matches(t: Triple, p: Pattern)
  {
    t.subject == p.subject && t.pred == p.pred && (p.obj.None? || t.obj == p.obj.value)
  }

  /** One row of `select([s, :p, :o])`: the full predicate URI and the object's text. */
  datatype Binding = Binding(pred: string, obj: string)

  /** `insert`: the store is a set of statements, so an existing triple is not repeated. */
  function Inserted(ts: seq<Triple>, t: Triple): (r: seq<Triple>)
    ensures forall u :: u in r <==> u in ts || u == t
    ensures |ts| <= |r| && r[..|ts|] == ts
    ensures t !in ts ==> r == ts + [t]
    ensures t in ts ==> r == ts
  {
    if t in ts then ts else ts + [t]
  }

  /** `delete`: every triple matching the pattern goes, the rest keep their order. */
  function Without(ts: seq<Triple>, p: Pattern): (r: seq<Triple>)
    ensures forall u :: u in r <==> u in ts && !Matches(u, p)
    ensures |r| <= |ts|
  {
    if ts == [] then []
    else (if Matches(ts[0], p) then [] else [ts[0]]) + Without(ts[1..], p)
  }

  /** `update`: the objects of the triple's subject and predicate are replaced by its object. */
  function Replaced(ts: seq<Triple>, t: Triple): (r: seq<Triple>)
    ensures forall u :: u in r <==> u == t || (u in ts && (u.subject, u.pred) != (t.subject, t.pred))
  {
    Inserted(Without(ts, Pattern(t.subject, t.pred, None)), t)
  }

  /** The objects stored for a subject and predicate, in store order. */
  function ObjectsOf(ts: seq<Triple>, s: string, p: string): (r: seq<Value>)
    ensures forall v :: v in r <==> Triple(s, p, v) in ts
    ensures |r| <= |ts|
  {
    if ts == [] then []
    else
      var last := ts[|ts| - 1];
      assert ts == ts[..|ts| - 1] + [last];
      ObjectsOf(ts[..|ts| - 1], s, p) + (if last.subject == s && last.pred == p then [last.obj] else [])
  }

  /** `value([s, p])`: nothing bound gives nil, one object its text, several an Array of texts. */
  function ValueIn(ts: seq<Triple>, s: string, p: string): Value
  {
    var objects := ObjectsOf(ts, s, p);
    if |objects| == 0 then Nil
    else if |objects| == 1 then Str(Lexical(objects[0]))
    else Arr(seq(|objects|, i requires 0 <= i < |objects| => Str(Lexical(objects[i]))))
  }

  /** The base registered for a prefix name (the first entry with that name). */
  function BaseOf(prefixes: seq<Prefix>, name: string): (r: Option<string>)
    ensures r.Some? <==> exists i | 0 <= i < |prefixes| :: prefixes[i].name == name
    ensures r.Some? ==> exists i | 0 <= i < |prefixes| :: prefixes[i] == Prefix(name, r.value)
  {
    if prefixes == [] then None
    else if prefixes[0].name == name then Some(prefixes[0].base)
    else BaseOf(prefixes[1..], name)
  }

  /** The full URI a CURIE `name:local` stands for, when `name` is a registered prefix;
      anything else is already a URI. */
  function Expand(prefixes: seq<Prefix>, pred: string): string
  {
    var name := UpToFirst(pred, ':');
    if |name| == |pred| then pred
    else
      match BaseOf(prefixes, name)
      case None => pred
      case Some(base) => base + pred[|name| + 1..]
  }

  /** `select([s, :p, :o])`: every predicate/object pair of the subject, in store order. */
  function BindingsOf(prefixes: seq<Prefix>, ts: seq<Triple>, s: string): (r: seq<Binding>)
    ensures |r| <= |ts|
  {
    if ts == [] then []
    else
      var last := ts[|ts| - 1];
      BindingsOf(prefixes, ts[..|ts| - 1], s)
        + (if last.subject == s then [Binding(Expand(prefixes, last.pred), Lexical(last.obj))] else [])
  }

  /** The subjects that have predicate `p`. */
  function SubjectsWith(ts: seq<Triple>, p: string): set<string>
  {
    set t | t in ts && t.pred == p :: t.subject
  }

  /** Every stored triple of the subject shows up in `select` as its expanded
      predicate and its object's text. */
  lemma {:induction false} BindingOfStored(prefixes: seq<Prefix>, ts: seq<Triple>, s: string, t: Triple)
    requires t in ts && t.subject == s
    ensures Binding(Expand(prefixes, t.pred), Lexical(t.obj)) in BindingsOf(prefixes, ts, s)
  {
    var init := ts[..|ts| - 1];
    if t != ts[|ts| - 1] {
      assert ts == init + [ts[|ts| - 1]];
      BindingOfStored(prefixes, init, s, t);
    }
  }

  /** `next_index([p, :o], :s)`: one more than the number of subjects that have predicate `p`. */
  function NextIndexIn(ts: seq<Triple>, p: string): nat
  {
    |SubjectsWith(ts, p)| + 1
  }

  /** Replacing leaves exactly the new object under its subject and predicate. */
  lemma ReplacedObjects(ts: seq<Triple>, t: Triple)
    ensures ObjectsOf(Replaced(ts, t), t.subject, t.pred) == [t.obj]
  {
    var w := Without(ts, Pattern(t.subject, t.pred, None));
    assert t !in w;
    NoObjects(w, t.subject, t.pred);
    assert (w + [t])[..|w|] == w;
  }

  lemma {:induction false} NoObjects(ts: seq<Triple>, s: string, p: string)
    requires forall u | u in ts :: u.subject != s || u.pred != p
    ensures ObjectsOf(ts, s, p) == []
  {
    if ts != [] {
      NoObjects(ts[..|ts| - 1], s, p);
    }
  }

  /** Inserting a triple appends its object to those of its subject and predicate,
      unless the store already holds it. */
  lemma InsertedObjects(ts: seq<Triple>, t: Triple)
    ensures t !in ts ==> ObjectsOf(Inserted(ts, t), t.subject, t.pred) == ObjectsOf(ts, t.subject, t.pred) + [t.obj]
    ensures t in ts ==> ObjectsOf(Inserted(ts, t), t.subject, t.pred) == ObjectsOf(ts, t.subject, t.pred)
  {
    if t !in ts {
      assert (ts + [t])[..|ts|] == ts;
    }
  }

  /** Storing the counting predicate for a subject that did not have it moves the
      next index on by one. */
  lemma NextIndexAdvances(ts: seq<Triple>, t: Triple)
    requires forall u | u in ts :: u.pred == t.pred ==> u.subject != t.subject
    ensures NextIndexIn(Inserted(ts, t), t.pred) == NextIndexIn(ts, t.pred) + 1
  {
    var before := SubjectsWith(ts, t.pred);
    var after := SubjectsWith(Inserted(ts, t), t.pred);
    assert after == before + {t.subject};
    assert t.subject !in before;
  }

  /** The client: a store handle built with the mapper's prefix table. */
  class Store {
    const prefixes: seq<Prefix>
    var triples: seq<Triple>

    constructor (prefixes: seq<Prefix>)
      ensures this.prefixes == prefixes && triples == []
    {
      this.prefixes := prefixes;
      triples := [];
    }

    method Insert(t: Triple)
      modifies this
      ensures triples == Inserted(old(triples), t)
    {
      triples := Inserted(triples, t);
    }

    method Delete(p: Pattern)
      modifies this
      ensures triples == Without(old(triples), p)
    {
      triples := Without(triples, p);
    }

    method Update(t: Triple)
      modifies this
      ensures triples == Replaced(old(triples), t)
    {
      triples := Replaced(triples, t);
    }

    method Select(s: string) returns (bindings: seq<Binding>)
      ensures bindings == BindingsOf(prefixes, triples, s)
    {
      bindings := BindingsOf(prefixes, triples, s);
    }

    method ValueOf(s: string, p: string) returns (v: Value)
      ensures v == ValueIn(triples, s, p)
    {
      v := ValueIn(triples, s, p);
    }

    method NextIndex(p: string) returns (n: nat)
      ensures n == NextIndexIn(triples, p)
    {
      n := NextIndexIn(triples, p);
    }
  }
}
