/**
 * Filling schema defaults into the request examples of the Runs contract.
 *
 * `undefined` is `None`. Objects are maps: the code never looks at key order.
 */
module ContractDefaults {
  import opened Prelude

  datatype Json =
    | Null
    | Bool(b: bool)
    | Num(n: real)
    | Str(s: string)
    | Arr(items: seq<Json>)
    | Obj(fields: map<string, Json>)
  {
    /** Values `Array.prototype.includes` compares by content; arrays and objects compare by identity. */
    predicate Primitive() {
      !Arr? && !Obj?
    }
  }

  /** An empty `ref` is falsy, hence the same as no reference at all. */
  datatype Schema = Schema(
    ref: string,
    default: Option<Json>,
    allowed: Option<seq<Json>>,
    properties: map<string, Schema>,
    items: Option<Schema>,
    anyOf: Variants)

  datatype Variants = NoVariants | AnyOf(candidates: seq<Schema>)

  /** `components.schemas`. */
  type Document = map<string, Schema>

  // ----- References and the absence of reference cycles -----

  function Lookup(doc: Document, ref: string): Option<Schema> {
    var name := LastSegment(ref);
    if name in doc then Some(doc[name]) else None
  }

  /** Names a schema may hand the same value on to: its reference, or its variants' references. */
  ghost function Targets(s: Schema): set<string> {
    if s.ref != "" then {LastSegment(s.ref)}
    else if s.anyOf.NoVariants? then {}
    else set i, t | 0 <= i < |s.anyOf.candidates| && t in Targets(s.anyOf.candidates[i]) :: t
  }

  ghost predicate Edge(doc: Document, a: string, b: string) {
    a in doc && b in doc && b in Targets(doc[a])
  }

  ghost predicate Walk(doc: Document, p: seq<string>) {
    forall i, j :: 0 <= i < j < |p| && j == i + 1 ==> Edge(doc, p[i], p[j])
  }

  /** No walk along `$ref`/`anyOf` edges comes back to where it started. */
  ghost predicate Acyclic(doc: Document) {
    forall p: seq<string> :: |p| >= 2 && Walk(doc, p) ==> p[0] != p[|p| - 1]
  }

  ghost predicate Ranks(doc: Document, within: set<string>, rank: map<string, nat>) {
    && rank.Keys == within
    && forall a, b :: a in within && b in within && Edge(doc, a, b) ==> rank[b] < rank[a]
  }

  lemma {:induction false} Pigeonhole(p: seq<string>, s: set<string>)
    requires forall i :: 0 <= i < |p| ==> p[i] in s
    requires |p| > |s|
    ensures exists i, j :: 0 <= i < j < |p| && p[i] == p[j]
  {
    var last := p[|p| - 1];
    var rest := p[..|p| - 1];
    if i :| 0 <= i < |rest| && rest[i] == last {
      assert p[i] == p[|p| - 1];
    } else {
      Pigeonhole(rest, s - {last});
      var i, j :| 0 <= i < j < |rest| && rest[i] == rest[j];
      assert p[i] == p[j];
    }
  }

  ghost predicate Leads(doc: Document, s: set<string>, a: string) {
    exists b :: b in s && Edge(doc, a, b)
  }

  lemma {:induction false} WalkInside(doc: Document, s: set<string>, n: nat) returns (p: seq<string>)
    requires s != {}
    requires forall a {:trigger Leads(doc, s, a)} :: a in s ==> Leads(doc, s, a)
    ensures |p| == n + 1 && Walk(doc, p)
    ensures forall i :: 0 <= i < |p| ==> p[i] in s
  {
    if n == 0 {
      var a :| a in s;
      p := [a];
    } else {
      var q := WalkInside(doc, s, n - 1);
      assert Leads(doc, s, q[|q| - 1]);
      var b :| b in s && Edge(doc, q[|q| - 1], b);
      p := q + [b];
    }
  }

  /** In an acyclic document some name of any non-empty set has no edge back into the set. */
  lemma SinkExists(doc: Document, s: set<string>)
    requires Acyclic(doc) && s != {}
    ensures exists a :: a in s && !Leads(doc, s, a)
  {
    if forall a {:trigger Leads(doc, s, a)} :: a in s ==> Leads(doc, s, a) {
      var p := WalkInside(doc, s, |s|);
      Pigeonhole(p, s);
      var i, j :| 0 <= i < j < |p| && p[i] == p[j];
      NothingTwice(doc, p, i, j);
    }
  }

  lemma NothingTwice(doc: Document, p: seq<string>, i: int, j: int)
    requires Acyclic(doc) && Walk(doc, p) && 0 <= i < j < |p|
    ensures p[i] != p[j]
  {
    var part := p[i..j + 1];
    assert Walk(doc, part);
    assert part[0] == p[i] && part[|part| - 1] == p[j];
  }

  lemma {:induction false} RankWithin(doc: Document, s: set<string>) returns (rank: map<string, nat>)
    requires Acyclic(doc)
    ensures Ranks(doc, s, rank)
    decreases |s|
  {
    if s == {} {
      rank := map[];
    } else {
      SinkExists(doc, s);
      var sink :| sink in s && !Leads(doc, s, sink);
      var lower := RankWithin(doc, s - {sink});
      rank := map a | a in s :: if a == sink then 0 else lower[a] + 1;
    }
  }

  lemma {:induction false} RankFalls(doc: Document, rank: map<string, nat>, p: seq<string>)
    requires Ranks(doc, doc.Keys, rank)
    requires |p| >= 2 && Walk(doc, p)
    ensures p[0] in doc && p[|p| - 1] in doc && rank[p[|p| - 1]] < rank[p[0]]
  {
    assert Edge(doc, p[0], p[1]);
    if |p| > 2 {
      var tail := p[1..];
      RankFalls(doc, rank, tail);
    }
  }

  /** Having no cycle is exactly having a rank that falls along every edge. */
  lemma AcyclicIffRanked(doc: Document)
    ensures Acyclic(doc) <==> exists rank :: Ranks(doc, doc.Keys, rank)
  {
    if Acyclic(doc) {
      var rank := RankWithin(doc, doc.Keys);
    }
    if rank :| Ranks(doc, doc.Keys, rank) {
      forall p: seq<string> | |p| >= 2 && Walk(doc, p) ensures p[0] != p[|p| - 1] {
        RankFalls(doc, rank, p);
      }
    }
  }

  ghost function Rank(doc: Document): (rank: map<string, nat>)
    requires Acyclic(doc)
    ensures Ranks(doc, doc.Keys, rank)
  {
    AcyclicIffRanked(doc);
    var rank :| Ranks(doc, doc.Keys, rank);
    rank
  }

  /** How far a schema sits above the schemas it may hand its value to. */
  ghost function Level(s: Schema, rank: map<string, nat>): nat {
    if s.ref != "" then
      if LastSegment(s.ref) in rank then rank[LastSegment(s.ref)] + 1 else 0
    else if s.anyOf.NoVariants? then 0
    else MaxLevel(s.anyOf.candidates, rank)
  }

  ghost function MaxLevel(ss: seq<Schema>, rank: map<string, nat>): (m: nat)
    ensures forall i :: 0 <= i < |ss| ==> Level(ss[i], rank) <= m
  {
    if ss == [] then 0
    else
      var rest := MaxLevel(ss[1..], rank);
      assert forall i :: 1 <= i < |ss| ==> ss[i] == ss[1..][i - 1];
      if Level(ss[0], rank) > rest then Level(ss[0], rank) else rest
  }

  lemma {:induction false} LevelBound(s: Schema, rank: map<string, nat>, bound: nat)
    requires forall t :: t in Targets(s) && t in rank ==> rank[t] < bound
    ensures Level(s, rank) <= bound
    decreases s, 1
  {
    if s.ref == "" && s.anyOf.AnyOf? {
      MaxLevelBound(s, s.anyOf.candidates, rank, bound);
    }
  }

  lemma {:induction false} MaxLevelBound(s: Schema, ss: seq<Schema>, rank: map<string, nat>, bound: nat)
    requires forall i :: 0 <= i < |ss| ==> ss[i] < s
    requires forall i, t :: 0 <= i < |ss| && t in Targets(ss[i]) && t in rank ==> rank[t] < bound
    ensures MaxLevel(ss, rank) <= bound
    decreases s, 0, |ss|
  {
    if ss != [] {
      LevelBound(ss[0], rank, bound);
      MaxLevelBound(s, ss[1..], rank, bound);
    }
  }

  lemma ReferenceDescends(doc: Document, name: string)
    requires Acyclic(doc) && name in doc
    ensures Level(doc[name], Rank(doc)) <= Rank(doc)[name]
  {
    forall t | t in Targets(doc[name]) && t in Rank(doc) ensures Rank(doc)[t] < Rank(doc)[name] {
      assert Edge(doc, name, t);
    }
    LevelBound(doc[name], Rank(doc), Rank(doc)[name]);
  }

  // ----- Filling -----

  /** A candidate variant matches when every enum-constrained property of it holds one of its values. */
  predicate Matches(candidate: Schema, fields: map<string, Json>) {
    forall k :: k in candidate.properties && candidate.properties[k].allowed.Some? ==>
      k in fields && fields[k].Primitive() && fields[k] in candidate.properties[k].allowed.value
  }

  ghost predicate FirstMatch(candidates: seq<Schema>, fields: map<string, Json>, i: int) {
    && 0 <= i < |candidates|
    && Matches(candidates[i], fields)
    && forall j :: 0 <= j < i ==> !Matches(candidates[j], fields)
  }

  /** The first matching variant. */
  function Select(candidates: seq<Schema>, fields: map<string, Json>): (r: Option<Schema>)
    ensures r.Some? ==>
      exists i :: FirstMatch(candidates, fields, i) && r == Some(candidates[i])
    ensures r.None? ==> forall i :: 0 <= i < |candidates| ==> !Matches(candidates[i], fields)
  {
    if candidates == [] then None
    else if Matches(candidates[0], fields) then Some(candidates[0])
    else
      var r := Select(candidates[1..], fields);
      assert r.Some? ==> exists i :: FirstMatch(candidates, fields, i) && r == Some(candidates[i]) by {
        if r.Some? {
          var i :| FirstMatch(candidates[1..], fields, i) && r == Some(candidates[1..][i]);
          assert FirstMatch(candidates, fields, i + 1);
        }
      }
      r
  }

  /** What a missing value becomes: the default at the end of the reference chain. */
  function Missing(s: Schema, doc: Document): Option<Json>
    requires Acyclic(doc)
    decreases Level(s, Rank(doc))
  {
    if s.ref == "" then s.default
    else
      match Lookup(doc, s.ref)
      case None => None
      case Some(target) =>
        ReferenceDescends(doc, LastSegment(s.ref));
        Missing(target, doc)
  }

  /** What a present value becomes. */
  function Fill(v: Json, s: Schema, doc: Document): Json
    requires Acyclic(doc)
    decreases v, Level(s, Rank(doc)), s
  {
    if s.ref != "" then
      match Lookup(doc, s.ref)
      case None => v
      case Some(target) =>
        ReferenceDescends(doc, LastSegment(s.ref));
        Fill(v, target, doc)
    else
      match v
      case Arr(items) =>
        if s.items.None? then v
        else Arr(seq(|items|, i requires 0 <= i < |items| => Fill(items[i], s.items.value, doc)))
      case Obj(fields) =>
        if s.anyOf.AnyOf? then
          var variant := Select(s.anyOf.candidates, fields);
          if variant.None? then v else Fill(v, variant.value, doc)
        else Obj(map k | k in fields.Keys + s.properties.Keys
                      && (k in fields || Missing(s.properties[k], doc).Some?) ::
                   if k !in fields then Missing(s.properties[k], doc).value
                   else if k in s.properties then Fill(fields[k], s.properties[k], doc)
                   else fields[k])
      case _ => v
  }

  /** `withDefaults`. */
  function WithDefaults(value: Option<Json>, schema: Option<Schema>, doc: Document): Option<Json>
    requires Acyclic(doc)
  {
    if schema.None? then value
    else if value.None? then Missing(schema.value, doc)
    else Some(Fill(value.value, schema.value, doc))
  }

  // ----- The result extends the input -----

  /** Array lengths, leaves and present keys of `a` are kept in `b`, at every depth. */
  ghost predicate Extends(a: Json, b: Json) {
    match a
    case Arr(xs) => b.Arr? && |b.items| == |xs| && forall i :: 0 <= i < |xs| ==> Extends(xs[i], b.items[i])
    case Obj(fs) => b.Obj? && forall k :: k in fs ==> k in b.fields && Extends(fs[k], b.fields[k])
    case _ => a == b
  }

  lemma {:induction false} ExtendsReflexive(a: Json)
    ensures Extends(a, a)
  {
    match a
    case Arr(xs) => forall i | 0 <= i < |xs| ensures Extends(xs[i], xs[i]) { ExtendsReflexive(xs[i]); }
    case Obj(fs) => forall k | k in fs ensures Extends(fs[k], fs[k]) { ExtendsReflexive(fs[k]); }
    case _ =>
  }

  lemma {:induction false} ExtendsTransitive(a: Json, b: Json, c: Json)
    requires Extends(a, b) && Extends(b, c)
    ensures Extends(a, c)
  {
    match a
    case Arr(xs) =>
      forall i | 0 <= i < |xs| ensures Extends(xs[i], c.items[i]) { ExtendsTransitive(xs[i], b.items[i], c.items[i]); }
    case Obj(fs) =>
      forall k | k in fs ensures Extends(fs[k], c.fields[k]) { ExtendsTransitive(fs[k], b.fields[k], c.fields[k]); }
    case _ =>
  }

  /** Two values that extend each other are the same value. */
  lemma {:induction false} ExtendsAntisymmetric(a: Json, b: Json)
    requires Extends(a, b) && Extends(b, a)
    ensures a == b
  {
    match a
    case Arr(xs) =>
      forall i | 0 <= i < |xs| ensures xs[i] == b.items[i] { ExtendsAntisymmetric(xs[i], b.items[i]); }
      assert xs == b.items;
    case Obj(fs) =>
      forall k | k in fs ensures fs[k] == b.fields[k] { ExtendsAntisymmetric(fs[k], b.fields[k]); }
      assert fs == b.fields;
    case _ =>
  }

  lemma {:induction false} FillExtends(v: Json, s: Schema, doc: Document)
    requires Acyclic(doc)
    ensures Extends(v, Fill(v, s, doc))
    decreases v, Level(s, Rank(doc)), s
  {
    if s.ref != "" {
      match Lookup(doc, s.ref)
      case None => ExtendsReflexive(v);
      case Some(target) =>
        ReferenceDescends(doc, LastSegment(s.ref));
        FillExtends(v, target, doc);
    } else {
      match v
      case Arr(items) =>
        if s.items.None? {
          ExtendsReflexive(v);
        } else {
          forall i | 0 <= i < |items| ensures Extends(items[i], Fill(items[i], s.items.value, doc)) {
            FillExtends(items[i], s.items.value, doc);
          }
        }
      case Obj(fields) =>
        if s.anyOf.AnyOf? {
          var variant := Select(s.anyOf.candidates, fields);
          if variant.None? { ExtendsReflexive(v); } else { FillExtends(v, variant.value, doc); }
        } else {
          forall k | k in fields ensures Extends(fields[k], Fill(v, s, doc).fields[k]) {
            if k in s.properties { FillExtends(fields[k], s.properties[k], doc); } else { ExtendsReflexive(fields[k]); }
          }
        }
      case _ =>
    }
  }

  // ----- Exactly which keys an object gains -----

  /** The object schema that governs an object: references followed, variants chosen. */
  function Selected(fields: map<string, Json>, s: Schema, doc: Document): (r: Option<Schema>)
    requires Acyclic(doc)
    ensures r.Some? ==> r.value.ref == "" && r.value.anyOf.NoVariants?
    decreases Level(s, Rank(doc)), s
  {
    if s.ref != "" then
      match Lookup(doc, s.ref)
      case None => None
      case Some(target) =>
        ReferenceDescends(doc, LastSegment(s.ref));
        Selected(fields, target, doc)
    else if s.anyOf.AnyOf? then
      var variant := Select(s.anyOf.candidates, fields);
      if variant.None? then None else Selected(fields, variant.value, doc)
    else Some(s)
  }

  lemma {:induction false} FillObject(fields: map<string, Json>, s: Schema, doc: Document)
    requires Acyclic(doc)
    ensures Selected(fields, s, doc).None? ==> Fill(Obj(fields), s, doc) == Obj(fields)
    ensures Selected(fields, s, doc).Some? ==>
      Fill(Obj(fields), s, doc) == Fill(Obj(fields), Selected(fields, s, doc).value, doc)
    decreases Level(s, Rank(doc)), s
  {
    if s.ref != "" {
      match Lookup(doc, s.ref)
      case None =>
      case Some(target) =>
        ReferenceDescends(doc, LastSegment(s.ref));
        FillObject(fields, target, doc);
    } else if s.anyOf.AnyOf? {
      var variant := Select(s.anyOf.candidates, fields);
      if variant.Some? { FillObject(fields, variant.value, doc); }
    }
  }

  /**
   * An object keeps its keys and gains exactly the properties of its selected schema that have a
   * default; a gained property holds that default, a kept one is filled by its own schema if it has one.
   */
  lemma ObjectGainsItsDefaults(fields: map<string, Json>, s: Schema, doc: Document)
    requires Acyclic(doc)
    requires Selected(fields, s, doc).Some?
    ensures
      var chosen := Selected(fields, s, doc).value;
      var filled := Fill(Obj(fields), s, doc);
      && filled.Obj?
      && (forall k :: k in filled.fields <==>
            k in fields || (k in chosen.properties && Missing(chosen.properties[k], doc).Some?))
      && (forall k :: k in filled.fields && k !in fields ==>
            Some(filled.fields[k]) == Missing(chosen.properties[k], doc))
      && (forall k :: k in fields ==>
            filled.fields[k] == if k in chosen.properties then Fill(fields[k], chosen.properties[k], doc) else fields[k])
  {
    FillObject(fields, s, doc);
  }

  // ----- What filling achieves -----

  /** Nothing is missing: every object, at any depth, has all the defaults of the schema selected for it. */
  ghost predicate Complete(v: Json, s: Schema, doc: Document)
    requires Acyclic(doc)
    decreases v, Level(s, Rank(doc)), s
  {
    if s.ref != "" then
      match Lookup(doc, s.ref)
      case None => true
      case Some(target) =>
        ReferenceDescends(doc, LastSegment(s.ref));
        Complete(v, target, doc)
    else
      match v
      case Arr(items) => s.items.Some? ==> forall i :: 0 <= i < |items| ==> Complete(items[i], s.items.value, doc)
      case Obj(fields) =>
        if s.anyOf.AnyOf? then
          var variant := Select(s.anyOf.candidates, fields);
          variant.Some? ==> Complete(v, variant.value, doc)
        else
          && (forall k :: k in s.properties && Missing(s.properties[k], doc).Some? ==> k in fields)
          && (forall k :: k in fields && k in s.properties ==> Complete(fields[k], s.properties[k], doc))
      case _ => true
  }

  /** Filling leaves alone exactly the values that miss nothing. */
  lemma {:induction false} FixpointIffComplete(v: Json, s: Schema, doc: Document)
    requires Acyclic(doc)
    ensures Fill(v, s, doc) == v <==> Complete(v, s, doc)
    decreases v, Level(s, Rank(doc)), s
  {
    if s.ref != "" {
      match Lookup(doc, s.ref)
      case None =>
      case Some(target) =>
        ReferenceDescends(doc, LastSegment(s.ref));
        FixpointIffComplete(v, target, doc);
    } else {
      match v
      case Arr(items) =>
        if s.items.Some? {
          forall i | 0 <= i < |items| ensures Fill(items[i], s.items.value, doc) == items[i] <==> Complete(items[i], s.items.value, doc) {
            FixpointIffComplete(items[i], s.items.value, doc);
          }
          var filled := Fill(v, s, doc).items;
          assert filled == items <==> forall i :: 0 <= i < |items| ==> filled[i] == items[i];
        }
      case Obj(fields) =>
        if s.anyOf.AnyOf? {
          var variant := Select(s.anyOf.candidates, fields);
          if variant.Some? { FixpointIffComplete(v, variant.value, doc); }
        } else {
          forall k | k in fields && k in s.properties
            ensures Fill(fields[k], s.properties[k], doc) == fields[k] <==> Complete(fields[k], s.properties[k], doc)
          {
            FixpointIffComplete(fields[k], s.properties[k], doc);
          }
          var filled := Fill(v, s, doc).fields;
          assert filled == fields <==> filled.Keys == fields.Keys && forall k :: k in fields ==> filled[k] == fields[k];
        }
      case _ =>
    }
  }

  // ----- The schemas filling can reach -----

  /** A schema and every schema written inside it. */
  ghost function Parts(s: Schema): (r: set<Schema>)
    ensures s in r
  {
    {s}
    + (set k, n | k in s.properties && n in Parts(s.properties[k]) :: n)
    + (if s.items.Some? then Parts(s.items.value) else {})
    + (if s.anyOf.AnyOf? then set i, n | 0 <= i < |s.anyOf.candidates| && n in Parts(s.anyOf.candidates[i]) :: n else {})
  }

  lemma ChildrenAreParts(s: Schema)
    ensures HoldsChildren(Parts(s), s)
  {
    forall k | k in s.properties ensures s.properties[k] in Parts(s) {
      assert s.properties[k] in Parts(s.properties[k]);
    }
    if s.anyOf.AnyOf? {
      forall i | 0 <= i < |s.anyOf.candidates| ensures s.anyOf.candidates[i] in Parts(s) {
        assert s.anyOf.candidates[i] in Parts(s.anyOf.candidates[i]);
      }
    }
  }

  ghost predicate HoldsChildren(all: set<Schema>, n: Schema) {
    && (forall k :: k in n.properties ==> n.properties[k] in all)
    && (n.items.Some? ==> n.items.value in all)
    && (n.anyOf.AnyOf? ==> forall i :: 0 <= i < |n.anyOf.candidates| ==> n.anyOf.candidates[i] in all)
  }

  lemma PropertyParts(s: Schema, k: string)
    requires k in s.properties
    ensures Parts(s.properties[k]) <= Parts(s)
  {}

  lemma CandidateParts(s: Schema, i: nat)
    requires s.anyOf.AnyOf? && i < |s.anyOf.candidates|
    ensures Parts(s.anyOf.candidates[i]) <= Parts(s)
  {}

  lemma ChildrenWithin(a: set<Schema>, b: set<Schema>, n: Schema)
    requires a <= b && HoldsChildren(a, n)
    ensures HoldsChildren(b, n)
  {}

  lemma {:induction false} PartsHoldChildren(s: Schema, n: Schema)
    requires n in Parts(s)
    ensures HoldsChildren(Parts(s), n)
  {
    if n == s {
      ChildrenAreParts(s);
    } else if k :| k in s.properties && n in Parts(s.properties[k]) {
      PartsHoldChildren(s.properties[k], n);
      PropertyParts(s, k);
      ChildrenWithin(Parts(s.properties[k]), Parts(s), n);
    } else if s.items.Some? && n in Parts(s.items.value) {
      PartsHoldChildren(s.items.value, n);
      ChildrenWithin(Parts(s.items.value), Parts(s), n);
    } else {
      var i :| 0 <= i < |s.anyOf.candidates| && n in Parts(s.anyOf.candidates[i]);
      PartsHoldChildren(s.anyOf.candidates[i], n);
      CandidateParts(s, i);
      ChildrenWithin(Parts(s.anyOf.candidates[i]), Parts(s), n);
    }
  }

  /** `Parts` is the least set that holds the schema and the children of its members. */
  lemma {:induction false} PartsAreLeast(s: Schema, all: set<Schema>)
    requires s in all
    requires forall n {:trigger n in all} {:trigger HoldsChildren(all, n)} :: n in all ==> HoldsChildren(all, n)
    ensures Parts(s) <= all
  {
    assert HoldsChildren(all, s);
    forall k | k in s.properties ensures Parts(s.properties[k]) <= all { PartsAreLeast(s.properties[k], all); }
    if s.items.Some? { PartsAreLeast(s.items.value, all); }
    if s.anyOf.AnyOf? {
      forall i | 0 <= i < |s.anyOf.candidates| ensures Parts(s.anyOf.candidates[i]) <= all {
        PartsAreLeast(s.anyOf.candidates[i], all);
      }
    }
  }

  /** Every schema filling can reach from `s`. */
  ghost function Universe(s: Schema, doc: Document): set<Schema> {
    Parts(s) + set t, n | t in doc && n in Parts(doc[t]) :: n
  }

  ghost predicate Closed(all: set<Schema>, doc: Document) {
    && (forall t :: t in doc ==> doc[t] in all)
    && forall n {:trigger n in all} {:trigger HoldsChildren(all, n)} :: n in all ==> HoldsChildren(all, n)
  }

  lemma UniverseClosed(s: Schema, doc: Document)
    ensures s in Universe(s, doc) && Closed(Universe(s, doc), doc)
  {
    var all := Universe(s, doc);
    forall t | t in doc ensures doc[t] in all && Parts(doc[t]) <= all {
      assert doc[t] in Parts(doc[t]);
    }
    forall n | n in all ensures HoldsChildren(all, n) {
      if n in Parts(s) {
        PartsHoldChildren(s, n);
      } else {
        var t :| t in doc && n in Parts(doc[t]);
        PartsHoldChildren(doc[t], n);
      }
    }
  }

  // ----- When filling may change the selection -----

  /** The candidate restricts `k` to an enum. */
  predicate Constrained(c: Schema, k: string) {
    k in c.properties && c.properties[k].allowed.Some?
  }

  predicate Accepts(c: Schema, k: string, x: Json) {
    Constrained(c, k) && x.Primitive() && x in c.properties[k].allowed.value
  }

  ghost predicate Satisfiable(c: Schema) {
    forall k :: Constrained(c, k) ==> exists x :: Accepts(c, k, x)
  }

  /** Both restrict some property, with no value in common. */
  ghost predicate Conflict(a: Schema, b: Schema) {
    exists k :: Constrained(a, k) && Constrained(b, k) && forall x :: Accepts(a, k, x) ==> !Accepts(b, k, x)
  }

  /** Every object that `b` matches is matched by `a`. */
  ghost predicate Shadows(a: Schema, b: Schema) {
    forall k :: Constrained(a, k) ==> Constrained(b, k) && forall x :: Accepts(b, k, x) ==> Accepts(a, k, x)
  }

  /** Filling an object without `k` by `c` may give it the value `x` there. */
  ghost predicate MayGive(c: Schema, k: string, x: Json, doc: Document)
    requires Acyclic(doc)
    decreases Level(c, Rank(doc)), c
  {
    if c.ref != "" then
      match Lookup(doc, c.ref)
      case None => false
      case Some(target) =>
        ReferenceDescends(doc, LastSegment(c.ref));
        MayGive(target, k, x, doc)
    else if c.anyOf.AnyOf? then
      exists i :: 0 <= i < |c.anyOf.candidates| && MayGive(c.anyOf.candidates[i], k, x, doc)
    else k in c.properties && Missing(c.properties[k], doc) == Some(x)
  }

  /** `b` leaves `k` open, and gives it a default that `a` asks for. */
  ghost predicate Lures(a: Schema, b: Schema, k: string, doc: Document)
    requires Acyclic(doc)
  {
    !Constrained(b, k) && exists x :: Accepts(a, k, x) && MayGive(b, k, x, doc)
  }

  /** Filling an object that `b` matches can make `a` match it too. */
  ghost predicate Steals(a: Schema, b: Schema, doc: Document)
    requires Acyclic(doc)
  {
    Satisfiable(a) && Satisfiable(b) && !Conflict(a, b) && exists k :: Lures(a, b, k, doc)
  }

  /** No candidate is stolen by an earlier one, unless it is never selected anyway. */
  ghost predicate Steady(cs: seq<Schema>, doc: Document)
    requires Acyclic(doc)
  {
    forall i, j :: 0 <= i < j < |cs| && Steals(cs[i], cs[j], doc) ==> Shadowed(cs, j)
  }

  ghost predicate Shadowed(cs: seq<Schema>, j: int)
    requires 0 <= j < |cs|
  {
    exists h :: 0 <= h < j && Shadows(cs[h], cs[j])
  }

  ghost predicate SteadyVariants(all: set<Schema>, doc: Document)
    requires Acyclic(doc)
  {
    forall n :: n in all && n.anyOf.AnyOf? ==> Steady(n.anyOf.candidates, doc)
  }

  function FillFields(fields: map<string, Json>, s: Schema, doc: Document): (r: map<string, Json>)
    requires Acyclic(doc)
    ensures Fill(Obj(fields), s, doc) == Obj(r) && Extends(Obj(fields), Obj(r))
  {
    FillExtends(Obj(fields), s, doc);
    Fill(Obj(fields), s, doc).fields
  }

  lemma {:induction false} GainedIsGiven(fields: map<string, Json>, c: Schema, doc: Document, k: string)
    requires Acyclic(doc)
    requires k !in fields && k in FillFields(fields, c, doc)
    ensures MayGive(c, k, FillFields(fields, c, doc)[k], doc)
    decreases Level(c, Rank(doc)), c
  {
    if c.ref != "" {
      var target := Lookup(doc, c.ref).value;
      ReferenceDescends(doc, LastSegment(c.ref));
      GainedIsGiven(fields, target, doc, k);
    } else if c.anyOf.AnyOf? {
      var variant := Select(c.anyOf.candidates, fields).value;
      var i :| FirstMatch(c.anyOf.candidates, fields, i) && variant == c.anyOf.candidates[i];
      GainedIsGiven(fields, variant, doc, k);
    }
  }

  lemma MatchesIff(c: Schema, fields: map<string, Json>)
    ensures Matches(c, fields) <==> forall k :: Constrained(c, k) ==> k in fields && Accepts(c, k, fields[k])
  {}

  lemma AcceptedBefore(a: Schema, k: string, before: map<string, Json>, after: map<string, Json>)
    requires Extends(Obj(before), Obj(after))
    ensures k in before && Accepts(a, k, after[k]) ==> Accepts(a, k, before[k])
  {
    assert k in before ==> Extends(before[k], after[k]);
  }

  /** An earlier candidate that matches only after filling steals the object. */
  lemma NewMatchSteals(a: Schema, b: Schema, fields: map<string, Json>, doc: Document)
    requires Acyclic(doc)
    requires Matches(b, fields) && !Matches(a, fields) && Matches(a, FillFields(fields, b, doc))
    ensures Steals(a, b, doc)
  {
    var r := FillFields(fields, b, doc);
    MatchesIff(a, fields);
    MatchesIff(a, r);
    MatchesIff(b, fields);
    MatchKept(b, fields, r);
    MatchesIff(b, r);
    var k :| Constrained(a, k) && !(k in fields && Accepts(a, k, fields[k]));
    AcceptedBefore(a, k, fields, r);
    GainedIsGiven(fields, b, doc, k);
    assert Accepts(a, k, r[k]);
    assert Lures(a, b, k, doc);
  }

  /** Filling keeps primitive values, so what matched matches still. */
  lemma MatchKept(c: Schema, before: map<string, Json>, after: map<string, Json>)
    requires Extends(Obj(before), Obj(after)) && Matches(c, before)
    ensures Matches(c, after)
  {
    forall k | Constrained(c, k) ensures k in after && Accepts(c, k, after[k]) {
      assert Extends(before[k], after[k]);
    }
    MatchesIff(c, after);
  }

  lemma FirstMatchSelects(cs: seq<Schema>, fields: map<string, Json>, j: int)
    requires FirstMatch(cs, fields, j)
    ensures Select(cs, fields) == Some(cs[j])
  {}

  /** Filling an object of a steady union does not change which variant is selected. */
  lemma SelectionStable(cs: seq<Schema>, fields: map<string, Json>, doc: Document)
    requires Acyclic(doc) && Steady(cs, doc)
    requires Select(cs, fields).Some?
    ensures Select(cs, FillFields(fields, Select(cs, fields).value, doc)) == Select(cs, fields)
  {
    var j :| FirstMatch(cs, fields, j) && Select(cs, fields) == Some(cs[j]);
    var r := FillFields(fields, cs[j], doc);
    MatchKept(cs[j], fields, r);
    forall i | 0 <= i < j ensures !Matches(cs[i], r) { NoNewMatch(cs, fields, doc, i, j); }
    FirstMatchSelects(cs, r, j);
  }

  lemma NoNewMatch(cs: seq<Schema>, fields: map<string, Json>, doc: Document, i: int, j: int)
    requires Acyclic(doc) && Steady(cs, doc)
    requires FirstMatch(cs, fields, j) && 0 <= i < j
    ensures !Matches(cs[i], FillFields(fields, cs[j], doc))
  {
    NotShadowed(cs, fields, j);
    NotStolen(cs, doc, i, j);
    if Matches(cs[i], FillFields(fields, cs[j], doc)) { NewMatchSteals(cs[i], cs[j], fields, doc); }
  }

  lemma NotShadowed(cs: seq<Schema>, fields: map<string, Json>, j: int)
    requires FirstMatch(cs, fields, j)
    ensures !Shadowed(cs, j)
  {
    forall h | 0 <= h < j ensures !Shadows(cs[h], cs[j]) {
      if Shadows(cs[h], cs[j]) { ShadowMatches(cs[h], cs[j], fields); }
    }
  }

  lemma NotStolen(cs: seq<Schema>, doc: Document, i: int, j: int)
    requires Acyclic(doc) && Steady(cs, doc)
    requires 0 <= i < j < |cs| && !Shadowed(cs, j)
    ensures !Steals(cs[i], cs[j], doc)
  {}

  lemma ShadowMatches(a: Schema, b: Schema, fields: map<string, Json>)
    requires Shadows(a, b) && Matches(b, fields)
    ensures Matches(a, fields)
  {
    MatchesIff(a, fields);
    MatchesIff(b, fields);
  }

  /** A union is steady when its first candidate restricts nothing, a reference for instance: it always wins. */
  lemma UnconstrainedFirstIsSteady(cs: seq<Schema>, doc: Document)
    requires Acyclic(doc)
    requires cs != [] && forall k :: !Constrained(cs[0], k)
    ensures Steady(cs, doc)
  {
    forall j | 0 < j < |cs| ensures Shadowed(cs, j) {
      assert Shadows(cs[0], cs[j]);
    }
  }

  // ----- For two candidates the condition is exact -----

  ghost predicate KeepsSecond(a: Schema, b: Schema, doc: Document, fields: map<string, Json>)
    requires Acyclic(doc)
  {
    Select([a, b], fields) == Some(b) ==> Select([a, b], FillFields(fields, b, doc)) == Some(b)
  }

  /** A value for `k` that suits `b` and, if it restricts `k`, `a`; or `a` alone where `b` leaves `k` open. */
  ghost function Bait(a: Schema, b: Schema, k: string): (x: Json)
    requires Satisfiable(a) && Satisfiable(b) && !Conflict(a, b)
    requires Constrained(a, k) || Constrained(b, k)
    ensures Constrained(a, k) ==> Accepts(a, k, x)
    ensures Constrained(b, k) ==> Accepts(b, k, x)
  {
    if !Constrained(b, k) then var x :| Accepts(a, k, x); x
    else if !Constrained(a, k) then var x :| Accepts(b, k, x); x
    else var x :| Accepts(a, k, x) && Accepts(b, k, x); x
  }

  /** An object that `b` matches, and `a` only once `b` has filled it. */
  ghost function Trap(a: Schema, b: Schema, doc: Document): (r: map<string, Json>)
    requires Acyclic(doc) && Steals(a, b, doc)
    ensures forall k :: k in r <==> Constrained(b, k) || (Constrained(a, k) && !Lures(a, b, k, doc))
    ensures forall k :: k in r ==> r[k] == Bait(a, b, k)
  {
    map k | k in a.properties.Keys + b.properties.Keys
         && (Constrained(b, k) || (Constrained(a, k) && !Lures(a, b, k, doc))) :: Bait(a, b, k)
  }

  lemma TrapSprings(a: Schema, b: Schema, doc: Document)
    requires Acyclic(doc) && Steals(a, b, doc)
    requires b.ref == "" && b.anyOf.NoVariants?
    ensures !KeepsSecond(a, b, doc, Trap(a, b, doc))
  {
    var fields := Trap(a, b, doc);
    var r := FillFields(fields, b, doc);
    var lured :| Lures(a, b, lured, doc);
    MatchesIff(a, fields);
    MatchesIff(b, fields);
    assert lured !in fields && Constrained(a, lured);
    FirstMatchSelects([a, b], fields, 1);
    forall k | Constrained(a, k) ensures k in r && Accepts(a, k, r[k]) {
      if k in fields {
        assert Extends(fields[k], r[k]);
      } else {
        assert Lures(a, b, k, doc);
      }
    }
    MatchesIff(a, r);
    FirstMatchSelects([a, b], r, 0);
  }

  /** Before a plain object schema, the selection of every object is stable exactly when nothing is stolen. */
  lemma SecondKeptIff(a: Schema, b: Schema, doc: Document)
    requires Acyclic(doc)
    requires b.ref == "" && b.anyOf.NoVariants?
    ensures (forall fields :: KeepsSecond(a, b, doc, fields)) <==> !Steals(a, b, doc)
  {
    if Steals(a, b, doc) {
      TrapSprings(a, b, doc);
    } else {
      forall fields ensures KeepsSecond(a, b, doc, fields) {
        if Select([a, b], fields) == Some(b) {
          assert Steady([a, b], doc);
          SelectionStable([a, b], fields, doc);
        }
      }
    }
  }

  // ----- Filling twice -----

  /** Every stored default is already filled by the schema it belongs to. */
  ghost predicate DefaultsSettled(all: set<Schema>, doc: Document)
    requires Acyclic(doc)
  {
    forall n :: n in all && n.ref == "" && n.default.Some? ==> Fill(n.default.value, n, doc) == n.default.value
  }

  /** Where filling an object of a union changes the selection, the new variant finds nothing missing. */
  ghost predicate Harmless(n: Schema, fields: map<string, Json>, doc: Document)
    requires Acyclic(doc)
  {
    n.ref == "" && n.anyOf.AnyOf? && Select(n.anyOf.candidates, fields).Some? ==>
      var chosen := Select(n.anyOf.candidates, fields).value;
      var r := FillFields(fields, chosen, doc);
      var again := Select(n.anyOf.candidates, r);
      again.Some? && again != Some(chosen) ==> Complete(Obj(r), again.value, doc)
  }

  ghost predicate ReselectionHarmless(all: set<Schema>, doc: Document)
    requires Acyclic(doc)
  {
    forall n, fields :: n in all ==> Harmless(n, fields, doc)
  }

  lemma SteadyVariantsAreHarmless(all: set<Schema>, doc: Document)
    requires Acyclic(doc) && SteadyVariants(all, doc)
    ensures ReselectionHarmless(all, doc)
  {
    forall n, fields | n in all ensures Harmless(n, fields, doc) {
      if n.ref == "" && n.anyOf.AnyOf? && Select(n.anyOf.candidates, fields).Some? {
        SelectionStable(n.anyOf.candidates, fields, doc);
      }
    }
  }

  lemma {:induction false} MissingSettled(s: Schema, doc: Document, all: set<Schema>)
    requires Acyclic(doc) && Closed(all, doc) && s in all
    requires DefaultsSettled(all, doc)
    requires Missing(s, doc).Some?
    ensures Fill(Missing(s, doc).value, s, doc) == Missing(s, doc).value
    decreases Level(s, Rank(doc))
  {
    if s.ref != "" {
      var name := LastSegment(s.ref);
      ReferenceDescends(doc, name);
      MissingSettled(doc[name], doc, all);
    }
  }

  lemma FilledObjectStays(fields: map<string, Json>, s: Schema, doc: Document)
    requires Acyclic(doc)
    requires s.ref == "" && s.anyOf.NoVariants?
    requires forall k :: k in fields && k in s.properties ==> Fill(fields[k], s.properties[k], doc) == fields[k]
    requires forall k :: k in s.properties && Missing(s.properties[k], doc).Some? ==> k in fields
    ensures Fill(Obj(fields), s, doc) == Obj(fields)
  {
    assert Fill(Obj(fields), s, doc).fields == fields;
  }

  lemma {:induction false} FillTwice(v: Json, s: Schema, doc: Document, all: set<Schema>)
    requires Acyclic(doc) && Closed(all, doc) && s in all
    requires DefaultsSettled(all, doc) && ReselectionHarmless(all, doc)
    ensures Fill(Fill(v, s, doc), s, doc) == Fill(v, s, doc)
    decreases v, 1, Level(s, Rank(doc)), s
  {
    if s.ref != "" {
      var name := LastSegment(s.ref);
      if name in doc {
        ReferenceDescends(doc, name);
        FillTwice(v, doc[name], doc, all);
      }
    } else {
      match v
      case Arr(items) =>
        if s.items.Some? { FillTwiceArray(items, s, doc, all); }
      case Obj(fields) =>
        if s.anyOf.NoVariants? {
          FillTwiceObject(fields, s, doc, all);
        } else if Select(s.anyOf.candidates, fields).Some? {
          var c := Select(s.anyOf.candidates, fields).value;
          assert c in all && c in s.anyOf.candidates;
          FillTwice(v, c, doc, all);
          FillTwiceUnion(fields, s, doc);
        }
      case _ =>
    }
  }

  lemma FillTwiceUnion(fields: map<string, Json>, s: Schema, doc: Document)
    requires Acyclic(doc) && Harmless(s, fields, doc)
    requires s.ref == "" && s.anyOf.AnyOf? && Select(s.anyOf.candidates, fields).Some?
    requires
      var c := Select(s.anyOf.candidates, fields).value;
      Fill(Fill(Obj(fields), c, doc), c, doc) == Fill(Obj(fields), c, doc)
    ensures Fill(Fill(Obj(fields), s, doc), s, doc) == Fill(Obj(fields), s, doc)
  {
    var c := Select(s.anyOf.candidates, fields).value;
    var r := FillFields(fields, c, doc);
    var again := Select(s.anyOf.candidates, r);
    if again.Some? && again.value != c { FixpointIffComplete(Obj(r), again.value, doc); }
  }

  lemma {:induction false} FillTwiceArray(items: seq<Json>, s: Schema, doc: Document, all: set<Schema>)
    requires Acyclic(doc) && Closed(all, doc) && s in all
    requires DefaultsSettled(all, doc) && ReselectionHarmless(all, doc)
    requires s.ref == "" && s.items.Some?
    ensures Fill(Fill(Arr(items), s, doc), s, doc) == Fill(Arr(items), s, doc)
    decreases Arr(items), 0, 0, s
  {
    var once := Fill(Arr(items), s, doc);
    forall i | 0 <= i < |items| ensures Fill(once.items[i], s.items.value, doc) == once.items[i] {
      assert items[i] < Arr(items);
      FillTwice(items[i], s.items.value, doc, all);
    }
    assert Fill(once, s, doc).items == once.items;
  }

  lemma {:induction false} FillTwiceObject(fields: map<string, Json>, s: Schema, doc: Document, all: set<Schema>)
    requires Acyclic(doc) && Closed(all, doc) && s in all
    requires DefaultsSettled(all, doc) && ReselectionHarmless(all, doc)
    requires s.ref == "" && s.anyOf.NoVariants?
    ensures Fill(Fill(Obj(fields), s, doc), s, doc) == Fill(Obj(fields), s, doc)
    decreases Obj(fields), 0, 0, s
  {
    var once := Fill(Obj(fields), s, doc);
    forall k | k in once.fields && k in s.properties ensures Fill(once.fields[k], s.properties[k], doc) == once.fields[k] {
      assert HoldsChildren(all, s);
      if k in fields {
        FillTwice(fields[k], s.properties[k], doc, all);
      } else {
        MissingSettled(s.properties[k], doc, all);
      }
    }
    FilledObjectStays(once.fields, s, doc);
  }

  ghost predicate Idempotent(value: Option<Json>, s: Schema, doc: Document)
    requires Acyclic(doc)
  {
    var once := WithDefaults(value, Some(s), doc);
    WithDefaults(once, Some(s), doc) == once
  }

  ghost predicate AllIdempotent(all: set<Schema>, doc: Document)
    requires Acyclic(doc)
  {
    forall n, value :: n in all ==> Idempotent(value, n, doc)
  }

  /**
   * Filling is idempotent, on every value, present or missing, for a schema, those inside it and those of the
   * document, exactly when stored defaults are settled and no change of selection finds something missing.
   */
  lemma IdempotentIff(s: Schema, doc: Document)
    requires Acyclic(doc)
    ensures AllIdempotent(Universe(s, doc), doc) <==>
      DefaultsSettled(Universe(s, doc), doc) && ReselectionHarmless(Universe(s, doc), doc)
  {
    var all := Universe(s, doc);
    UniverseClosed(s, doc);
    if !DefaultsSettled(all, doc) {
      var n :| n in all && n.ref == "" && n.default.Some? && Fill(n.default.value, n, doc) != n.default.value;
      assert !Idempotent(None, n, doc);
    } else if !ReselectionHarmless(all, doc) {
      var n, fields :| n in all && !Harmless(n, fields, doc);
      HarmfulNotIdempotent(n, fields, doc);
    } else {
      forall n, value: Option<Json> | n in all ensures Idempotent(value, n, doc) {
        if value.Some? {
          FillTwice(value.value, n, doc, all);
        } else if Missing(n, doc).Some? {
          MissingSettled(n, doc, all);
        }
      }
    }
  }

  lemma HarmfulNotIdempotent(n: Schema, fields: map<string, Json>, doc: Document)
    requires Acyclic(doc) && !Harmless(n, fields, doc)
    ensures !Idempotent(Some(Obj(fields)), n, doc)
  {
    var r := FillFields(fields, Select(n.anyOf.candidates, fields).value, doc);
    FixpointIffComplete(Obj(r), Select(n.anyOf.candidates, r).value, doc);
  }

  /** With steady variants, settled defaults are exactly what makes filling idempotent. */
  lemma IdempotentIffDefaultsSettled(s: Schema, doc: Document)
    requires Acyclic(doc) && SteadyVariants(Universe(s, doc), doc)
    ensures AllIdempotent(Universe(s, doc), doc) <==> DefaultsSettled(Universe(s, doc), doc)
  {
    SteadyVariantsAreHarmless(Universe(s, doc), doc);
    IdempotentIff(s, doc);
  }

  // ----- For two flat variants idempotence is a condition on the schemas -----

  /** Properties whose schemas hold no further schema. */
  predicate Leaf(s: Schema) {
    s.ref == "" && s.anyOf.NoVariants? && s.items.None? && s.properties == map[]
  }

  predicate Flat(s: Schema) {
    s.ref == "" && s.anyOf.NoVariants? && forall k :: k in s.properties ==> Leaf(s.properties[k])
  }

  predicate Gives(s: Schema, k: string) {
    k in s.properties && s.properties[k].default.Some?
  }

  /** `a` gives a default where an object that `b` has filled may still hold nothing. */
  predicate AsksFor(a: Schema, b: Schema, k: string) {
    Gives(a, k) && !Gives(b, k) && !Constrained(a, k) && !Constrained(b, k)
  }

  lemma LeafKeeps(v: Json, s: Schema, doc: Document)
    requires Acyclic(doc) && Leaf(s)
    ensures Fill(v, s, doc) == v && Complete(v, s, doc)
  {
    match v
    case Obj(fields) => assert Fill(v, s, doc).fields == fields;
    case _ =>
  }

  lemma FlatFills(fields: map<string, Json>, s: Schema, doc: Document)
    requires Acyclic(doc) && Flat(s)
    ensures FillFields(fields, s, doc).Keys == fields.Keys + set k | k in s.properties && Gives(s, k)
    ensures forall k :: k in fields ==> FillFields(fields, s, doc)[k] == fields[k]
  {
    forall k | k in fields && k in s.properties ensures Fill(fields[k], s.properties[k], doc) == fields[k] {
      LeafKeeps(fields[k], s.properties[k], doc);
    }
  }

  lemma FlatComplete(fields: map<string, Json>, s: Schema, doc: Document)
    requires Acyclic(doc) && Flat(s)
    ensures Complete(Obj(fields), s, doc) <==> forall k :: Gives(s, k) ==> k in fields
  {
    forall k | k in fields && k in s.properties ensures Complete(fields[k], s.properties[k], doc) {
      LeafKeeps(fields[k], s.properties[k], doc);
    }
  }

  ghost predicate ObjectIdempotent(fields: map<string, Json>, n: Schema, doc: Document)
    requires Acyclic(doc)
  {
    Fill(Fill(Obj(fields), n, doc), n, doc) == Fill(Obj(fields), n, doc)
  }

  /** Filled by a flat variant that is selected again, nothing changes any more. */
  lemma SelectedAgain(fields: map<string, Json>, n: Schema, c: Schema, doc: Document)
    requires Acyclic(doc) && n.ref == "" && n.anyOf.AnyOf? && Flat(c)
    requires Select(n.anyOf.candidates, fields) == Some(c)
    requires
      var again := Select(n.anyOf.candidates, FillFields(fields, c, doc));
      again == Some(c) || again.None?
    ensures ObjectIdempotent(fields, n, doc)
  {
    FlatFills(fields, c, doc);
    FlatComplete(FillFields(fields, c, doc), c, doc);
    FixpointIffComplete(Obj(FillFields(fields, c, doc)), c, doc);
  }

  lemma TrapNotIdempotent(a: Schema, b: Schema, n: Schema, k: string, doc: Document)
    requires Acyclic(doc) && Flat(a) && Flat(b) && n.ref == "" && n.anyOf == AnyOf([a, b])
    requires Steals(a, b, doc) && AsksFor(a, b, k)
    ensures !ObjectIdempotent(Trap(a, b, doc), n, doc)
  {
    var fields := Trap(a, b, doc);
    var r := FillFields(fields, b, doc);
    TrapReselects(a, b, doc);
    FlatFills(fields, b, doc);
    assert k !in r;
    FlatComplete(r, a, doc);
    FixpointIffComplete(Obj(r), a, doc);
  }

  lemma TrapReselects(a: Schema, b: Schema, doc: Document)
    requires Acyclic(doc) && Steals(a, b, doc) && b.ref == "" && b.anyOf.NoVariants?
    ensures Select([a, b], Trap(a, b, doc)) == Some(b)
    ensures Select([a, b], FillFields(Trap(a, b, doc), b, doc)) == Some(a)
  {
    TrapSprings(a, b, doc);
    var r := FillFields(Trap(a, b, doc), b, doc);
    FillKeepsSelected([a, b], Trap(a, b, doc), doc);
  }

  lemma FillKeepsSelected(cs: seq<Schema>, fields: map<string, Json>, doc: Document)
    requires Acyclic(doc) && Select(cs, fields).Some?
    ensures Select(cs, FillFields(fields, Select(cs, fields).value, doc)).Some?
  {
    var j :| FirstMatch(cs, fields, j) && Select(cs, fields) == Some(cs[j]);
    MatchKept(cs[j], fields, FillFields(fields, cs[j], doc));
  }

  lemma FirstKept(a: Schema, b: Schema, fields: map<string, Json>, doc: Document)
    requires Acyclic(doc) && Matches(a, fields)
    ensures Select([a, b], fields) == Some(a)
    ensures Select([a, b], FillFields(fields, a, doc)) == Some(a)
  {
    MatchKept(a, fields, FillFields(fields, a, doc));
    FirstMatchSelects([a, b], fields, 0);
    FirstMatchSelects([a, b], FillFields(fields, a, doc), 0);
  }

  lemma SecondFilled(a: Schema, b: Schema, n: Schema, fields: map<string, Json>, doc: Document)
    requires Acyclic(doc) && Flat(a) && Flat(b) && n.ref == "" && n.anyOf == AnyOf([a, b])
    requires !Matches(a, fields) && Matches(b, fields)
    requires Steals(a, b, doc) ==> forall k :: !AsksFor(a, b, k)
    ensures ObjectIdempotent(fields, n, doc)
  {
    var r := FillFields(fields, b, doc);
    FirstMatchSelects([a, b], fields, 1);
    MatchKept(b, fields, r);
    if Matches(a, r) {
      NewMatchSteals(a, b, fields, doc);
      FirstMatchSelects([a, b], r, 0);
      FlatFills(fields, b, doc);
      forall k | Gives(a, k) ensures k in r { NothingAskedFor(a, b, fields, r, k); }
      FlatComplete(r, a, doc);
      FixpointIffComplete(Obj(r), a, doc);
    } else {
      FirstMatchSelects([a, b], r, 1);
      SelectedAgain(fields, n, b, doc);
    }
  }

  lemma NothingAskedFor(a: Schema, b: Schema, fields: map<string, Json>, r: map<string, Json>, k: string)
    requires Matches(b, fields) && Matches(a, r) && Gives(a, k) && !AsksFor(a, b, k)
    requires r.Keys == fields.Keys + set k | k in b.properties && Gives(b, k)
    ensures k in r
  {
    MatchesIff(a, r);
    MatchesIff(b, fields);
  }

  /**
   * A union of two flat variants: filling every object twice is filling it once, exactly unless the first variant
   * steals from the second and asks for a default that the second does not give.
   */
  lemma FlatPairIdempotentIff(a: Schema, b: Schema, n: Schema, doc: Document)
    requires Acyclic(doc) && Flat(a) && Flat(b) && n.ref == "" && n.anyOf == AnyOf([a, b])
    ensures (forall fields :: ObjectIdempotent(fields, n, doc)) <==> !(Steals(a, b, doc) && exists k :: AsksFor(a, b, k))
  {
    if Steals(a, b, doc) && exists k :: AsksFor(a, b, k) {
      var k :| AsksFor(a, b, k);
      TrapNotIdempotent(a, b, n, k, doc);
    } else {
      forall fields ensures ObjectIdempotent(fields, n, doc) {
        if Matches(a, fields) {
          FirstKept(a, b, fields, doc);
          SelectedAgain(fields, n, a, doc);
        } else if Matches(b, fields) {
          SecondFilled(a, b, n, fields, doc);
        }
      }
    }
  }

  const PLAIN := Schema("", None, None, map[], None, NoVariants)

  lemma EmptyDocumentAcyclic()
    ensures Acyclic(map[])
  {
    assert Ranks(map[], {}, map[]);
    AcyclicIffRanked(map[]);
  }

  const ONLY_X := PLAIN.(allowed := Some([Str("x")]))
  const NULL_DEFAULT := PLAIN.(default := Some(Null))
  const X_DEFAULT := PLAIN.(default := Some(Str("x")))
  const STRICT := PLAIN.(properties := map["k" := ONLY_X, "q" := NULL_DEFAULT])
  const LOOSE := PLAIN.(properties := map["k" := X_DEFAULT])
  const EITHER := PLAIN.(anyOf := AnyOf([STRICT, LOOSE]))

  lemma EitherFirst()
    ensures Acyclic(map[]) && Fill(Obj(map[]), EITHER, map[]) == Obj(map["k" := Str("x")])
  {
    EmptyDocumentAcyclic();
    assert !Matches(STRICT, map[]) by { assert "k" in STRICT.properties; }
    assert Matches(LOOSE, map[]);
    assert Select([STRICT, LOOSE], map[]) == Some(LOOSE);
    assert Fill(Obj(map[]), LOOSE, map[]).fields == map["k" := Str("x")];
  }

  lemma StrictSelected()
    ensures Select([STRICT, LOOSE], map["k" := Str("x")]) == Some(STRICT)
  {
    assert STRICT.properties["k"].allowed == Some([Str("x")]);
    assert STRICT.properties["q"].allowed == None;
    assert Matches(STRICT, map["k" := Str("x")]);
  }

  lemma StrictFills()
    requires Acyclic(map[])
    ensures Fill(Obj(map["k" := Str("x")]), STRICT, map[]) == Obj(map["k" := Str("x"), "q" := Null])
  {
    assert STRICT.properties.Keys == {"k", "q"};
    assert Fill(Obj(map["k" := Str("x")]), STRICT, map[]).fields == map["k" := Str("x"), "q" := Null];
  }

  lemma EitherSecond()
    ensures Acyclic(map[]) && Fill(Obj(map["k" := Str("x")]), EITHER, map[]) == Obj(map["k" := Str("x"), "q" := Null])
  {
    EmptyDocumentAcyclic();
    StrictSelected();
    StrictFills();
  }

  ghost const EITHER_PARTS := {EITHER, STRICT, LOOSE, ONLY_X, NULL_DEFAULT, X_DEFAULT}

  lemma EitherParts()
    ensures Universe(EITHER, map[]) <= EITHER_PARTS
  {
    var all := EITHER_PARTS;
    assert HoldsChildren(all, EITHER) && HoldsChildren(all, STRICT) && HoldsChildren(all, LOOSE);
    assert HoldsChildren(all, ONLY_X) && HoldsChildren(all, NULL_DEFAULT) && HoldsChildren(all, X_DEFAULT);
    PartsAreLeast(EITHER, all);
  }

  lemma EitherSettled()
    ensures Acyclic(map[]) && DefaultsSettled(Universe(EITHER, map[]), map[])
  {
    EmptyDocumentAcyclic();
    EitherParts();
    forall n | n in EITHER_PARTS && n.default.Some? ensures Fill(n.default.value, n, map[]) == n.default.value {
      assert n.default.value == Null || n.default.value == Str("x");
    }
  }

  /** Settled defaults are not enough: a default can make an earlier variant match, which misses one of its own. */
  lemma StolenVariantNotIdempotent()
    ensures Acyclic(map[])
    ensures DefaultsSettled(Universe(EITHER, map[]), map[])
    ensures !Idempotent(Some(Obj(map[])), EITHER, map[])
  {
    EitherFirst();
    EitherSecond();
    EitherSettled();
    assert "q" !in map["k" := Str("x")];
  }

  // ----- References by name -----

  /** Behind `prefix/name` stands the document's schema of that name, or nothing. */
  lemma ReferenceIsByName(v: Json, s: Schema, doc: Document, prefix: string, name: string)
    requires Acyclic(doc) && '/' !in name && s.ref == prefix + "/" + name
    ensures name in doc ==> Fill(v, s, doc) == Fill(v, doc[name], doc) && Missing(s, doc) == Missing(doc[name], doc)
    ensures name !in doc ==> Fill(v, s, doc) == v && Missing(s, doc) == None
  {
    LastSegmentBehind(prefix, name);
  }

  /** Without a schema nothing changes, and a missing value becomes the schema's own default. */
  lemma NoSchemaKeeps(value: Option<Json>, s: Schema, doc: Document)
    requires Acyclic(doc)
    ensures WithDefaults(value, None, doc) == value
    ensures s.ref == "" ==> WithDefaults(None, Some(s), doc) == s.default
  {}

  /** A bare name refers to itself. */
  lemma BareReference(v: Json, s: Schema, doc: Document)
    requires Acyclic(doc) && '/' !in s.ref && s.ref in doc && s.ref != ""
    ensures Fill(v, s, doc) == Fill(v, doc[s.ref], doc) && Missing(s, doc) == Missing(doc[s.ref], doc)
  {
    LastSegmentWhole(s.ref);
  }

  /** A property without reference and a default for it: what a request that refers to the schema gains. */
  lemma RequestGainsDefault(fields: map<string, Json>, s: Schema, doc: Document, prefix: string, name: string, k: string)
    requires Acyclic(doc) && '/' !in name && s.ref == prefix + "/" + name && name in doc
    requires doc[name].ref == "" && doc[name].anyOf.NoVariants?
    requires k in doc[name].properties && doc[name].properties[k].ref == ""
    ensures
      var filled := WithDefaults(Some(Obj(fields)), Some(s), doc);
      && filled.Some? && filled.value.Obj?
      && var r := filled.value.fields;
      && (k in r <==> k in fields || doc[name].properties[k].default.Some?)
      && (k !in fields && k in r ==> Some(r[k]) == doc[name].properties[k].default)
      && forall j :: j in fields && j !in doc[name].properties ==> j in r && r[j] == fields[j]
  {
    ReferenceIsByName(Obj(fields), s, doc, prefix, name);
    ObjectGainsItsDefaults(fields, doc[name], doc);
  }

  /** The elements of an array are filled one by one by what the item schema refers to. */
  lemma ItemsAreFilled(items: seq<Json>, s: Schema, doc: Document, prefix: string, name: string, i: nat)
    requires Acyclic(doc) && s.ref == "" && s.items.Some? && i < |items|
    requires '/' !in name && s.items.value.ref == prefix + "/" + name && name in doc
    ensures
      var filled := WithDefaults(Some(Arr(items)), Some(s), doc);
      && filled.Some? && filled.value.Arr? && |filled.value.items| == |items|
      && filled.value.items[i] == Fill(items[i], doc[name], doc)
  {
    ReferenceIsByName(items[i], s.items.value, doc, prefix, name);
  }

  // ----- The code: a recursion with loops that build the array and the object -----

  method FillDefaults(v: Json, s: Schema, doc: Document) returns (r: Json)
    requires Acyclic(doc)
    ensures r == Fill(v, s, doc)
    decreases v, 1, Level(s, Rank(doc)), s
  {
    if s.ref != "" {
      var target := Lookup(doc, s.ref);
      if target.None? { return v; }
      ReferenceDescends(doc, LastSegment(s.ref));
      r := FillDefaults(v, target.value, doc);
      return;
    }
    match v
    case Arr(items) =>
      if s.items.None? { return v; }
      var filled := FillItems(items, s.items.value, doc);
      r := Arr(filled);
    case Obj(fields) =>
      if s.anyOf.AnyOf? {
        var variant := Select(s.anyOf.candidates, fields);
        if variant.None? { return v; }
        r := FillDefaults(v, variant.value, doc);
        return;
      }
      var result := FillProperties(fields, s, doc);
      r := Obj(result);
    case _ => r := v;
  }

  /** `withDefaults`, from its first branch on. */
  method ApplyDefaults(value: Option<Json>, schema: Option<Schema>, doc: Document) returns (r: Option<Json>)
    requires Acyclic(doc)
    ensures r == WithDefaults(value, schema, doc)
  {
    if schema.None? { return value; }
    if value.None? { return Missing(schema.value, doc); }
    var filled := FillDefaults(value.value, schema.value, doc);
    r := Some(filled);
  }

  method FillItems(items: seq<Json>, s: Schema, doc: Document) returns (filled: seq<Json>)
    requires Acyclic(doc)
    ensures filled == seq(|items|, i requires 0 <= i < |items| => Fill(items[i], s, doc))
    decreases Arr(items), 0, 0, s
  {
    filled := [];
    for i := 0 to |items|
      invariant |filled| == i
      invariant forall j :: 0 <= j < i ==> filled[j] == Fill(items[j], s, doc)
    {
      assert items[i] < Arr(items);
      var item := FillDefaults(items[i], s, doc);
      filled := filled + [item];
    }
  }

  /** `result` is right for every key that is not pending. */
  ghost predicate Progress(fields: map<string, Json>, target: map<string, Json>, result: map<string, Json>, pending: set<string>) {
    && (forall k :: k in pending ==> (k in result <==> k in fields) && (k in fields ==> result[k] == fields[k]))
    && (forall k :: k !in pending ==> (k in result <==> k in target) && (k in target ==> result[k] == target[k]))
  }

  /** The property loop, in any order of the keys. */
  method FillProperties(fields: map<string, Json>, s: Schema, doc: Document) returns (result: map<string, Json>)
    requires Acyclic(doc)
    requires s.ref == "" && s.anyOf.NoVariants?
    ensures Obj(result) == Fill(Obj(fields), s, doc)
    decreases Obj(fields), 0, 0, s
  {
    result := fields;
    var pending := s.properties.Keys;
    ghost var target := Fill(Obj(fields), s, doc).fields;
    while pending != {}
      invariant pending <= s.properties.Keys
      invariant Progress(fields, target, result, pending)
      decreases pending
    {
      var key :| key in pending;
      if key in fields {
        var resolved := FillDefaults(fields[key], s.properties[key], doc);
        result := result[key := resolved];
      } else {
        var resolved := Missing(s.properties[key], doc);
        if resolved.Some? { result := result[key := resolved.value]; }
      }
      pending := pending - {key};
    }
    assert result == target;
  }
}
