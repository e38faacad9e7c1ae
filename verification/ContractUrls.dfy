/**
 * The request half of a Runs fixture: merged parameters, the expanded URL and the grouped input.
 */
module ContractUrls {
  import opened Prelude
  import opened UrlText

  // ----- Parameters -----

  /** An example's text per element; a null element has no text. */
  datatype Example = Absent | Single(text: Option<string>) | Many(texts: seq<Option<string>>)

  datatype Parameter = Parameter(location: string, name: string, required: bool, example: Example)

  function Key(p: Parameter): string {
    p.location + ":" + p.name
  }

  /** The operation's parameters override path-level ones with the same key. */
  function MergeParameters(shared: seq<Parameter>, own: seq<Parameter>): seq<Parameter> {
    Inherited(shared, set p | p in own :: Key(p)) + own
  }

  function Inherited(shared: seq<Parameter>, owned: set<string>): seq<Parameter> {
    if shared == [] then []
    else (if Key(shared[0]) in owned then [] else [shared[0]]) + Inherited(shared[1..], owned)
  }

  /** The entries of a list for one location and name, in order. */
  function Entries(ps: seq<Parameter>, location: string, name: string): seq<Parameter> {
    if ps == [] then []
    else (if ps[0].location == location && ps[0].name == name then [ps[0]] else []) + Entries(ps[1..], location, name)
  }

  lemma {:induction false} EntriesConcat(a: seq<Parameter>, b: seq<Parameter>, location: string, name: string)
    ensures Entries(a + b, location, name) == Entries(a, location, name) + Entries(b, location, name)
  {
    if a == [] {
      assert a + b == b;
    } else {
      assert (a + b)[1..] == a[1..] + b;
      EntriesConcat(a[1..], b, location, name);
    }
  }

  lemma {:induction false} EntriesMember(ps: seq<Parameter>, location: string, name: string)
    ensures Entries(ps, location, name) != [] <==> exists p :: p in ps && p.location == location && p.name == name
    ensures forall p :: p in Entries(ps, location, name) ==> p in ps && p.location == location && p.name == name
  {
    if ps != [] { EntriesMember(ps[1..], location, name); }
  }

  lemma {:induction false} InheritedEntries(shared: seq<Parameter>, owned: set<string>, location: string, name: string)
    ensures Entries(Inherited(shared, owned), location, name)
         == if location + ":" + name in owned then [] else Entries(shared, location, name)
  {
    if shared != [] {
      InheritedEntries(shared[1..], owned, location, name);
      EntriesConcat(if Key(shared[0]) in owned then [] else [shared[0]], Inherited(shared[1..], owned), location, name);
    }
  }

  /** Each location and name resolves to the operation's entries if it has any, else to the path's. */
  ghost predicate ResolvesByPair(shared: seq<Parameter>, own: seq<Parameter>) {
    forall location, name ::
      Entries(MergeParameters(shared, own), location, name)
      == if Entries(own, location, name) != [] then Entries(own, location, name) else Entries(shared, location, name)
  }

  /** A path-level parameter is shadowed by an operation parameter that is a different one. */
  ghost predicate Clash(shared: seq<Parameter>, own: seq<Parameter>) {
    exists p, q :: p in shared && q in own && Key(p) == Key(q)
      && forall o :: o in own ==> o.location != p.location || o.name != p.name
  }

  lemma MergedEntries(shared: seq<Parameter>, own: seq<Parameter>, location: string, name: string)
    ensures Entries(MergeParameters(shared, own), location, name)
         == (if exists q :: q in own && Key(q) == location + ":" + name then [] else Entries(shared, location, name))
            + Entries(own, location, name)
  {
    var owned := set p | p in own :: Key(p);
    EntriesConcat(Inherited(shared, owned), own, location, name);
    InheritedEntries(shared, owned, location, name);
  }

  /** The merge is by location and name exactly when no joined `in:name` key clashes. */
  lemma MergeResolvesIff(shared: seq<Parameter>, own: seq<Parameter>)
    ensures ResolvesByPair(shared, own) <==> !Clash(shared, own)
  {
    forall location, name
      ensures !Clash(shared, own) ==>
        Entries(MergeParameters(shared, own), location, name)
        == if Entries(own, location, name) != [] then Entries(own, location, name) else Entries(shared, location, name)
    {
      MergedEntries(shared, own, location, name);
      EntriesMember(shared, location, name);
      EntriesMember(own, location, name);
      if Entries(own, location, name) != [] {
        var o :| o in own && o.location == location && o.name == name;
        assert Key(o) == location + ":" + name;
      } else if q :| q in own && Key(q) == location + ":" + name {
        if p :| p in shared && p.location == location && p.name == name {
          assert Key(p) == Key(q);
        }
      }
    }
    if Clash(shared, own) {
      var p, q :| p in shared && q in own && Key(p) == Key(q)
        && forall o :: o in own ==> o.location != p.location || o.name != p.name;
      MergedEntries(shared, own, p.location, p.name);
      EntriesMember(shared, p.location, p.name);
      EntriesMember(own, p.location, p.name);
    }
  }

  /** A colon in a location: the operation's `c` in `a:b` hides the path's `b:c` in `a`. */
  lemma ColonHides()
    ensures
      var p, q := Parameter("a", "b:c", true, Absent), Parameter("a:b", "c", true, Absent);
      !ResolvesByPair([p], [q])
  {
    var p, q := Parameter("a", "b:c", true, Absent), Parameter("a:b", "c", true, Absent);
    assert Key(p) == "a:b:c" == Key(q);
    assert p in [p] && q in [q];
    MergeResolvesIff([p], [q]);
  }

  lemma {:induction false} ColonSplit(a: string, b: string, x: string, y: string)
    requires ':' !in a && ':' !in b && a + ":" + x == b + ":" + y
    ensures a == b && x == y
  {
    var s, t := a + ":" + x, b + ":" + y;
    assert s[..|a|] == a && t[..|b|] == b;
    FindUnique(s, ':', |a|);
    FindUnique(t, ':', |b|);
    assert s[|a| + 1..] == x && t[|b| + 1..] == y;
  }

  /** OpenAPI's locations (`path`, `query`, `header`, `cookie`) hold no colon, so the merge resolves by pair. */
  lemma ColonFreeLocationsResolve(shared: seq<Parameter>, own: seq<Parameter>)
    requires forall p :: p in shared + own ==> ':' !in p.location
    ensures ResolvesByPair(shared, own)
  {
    forall p, q | p in shared && q in own && Key(p) == Key(q) ensures p.location == q.location && p.name == q.name {
      assert p in shared + own && q in shared + own;
      ColonSplit(p.location, q.location, p.name, q.name);
    }
    MergeResolvesIff(shared, own);
  }

  // ----- Path templates -----

  datatype Piece = Text(text: string) | Hole(name: string)

  predicate BraceFree(s: string) {
    '{' !in s && '}' !in s
  }

  ghost predicate WellFormed(pieces: seq<Piece>) {
    forall p :: p in pieces ==> BraceFree(if p.Text? then p.text else p.name)
  }

  function Render(pieces: seq<Piece>): string {
    if pieces == [] then ""
    else (if pieces[0].Text? then pieces[0].text else "{" + pieces[0].name + "}") + Render(pieces[1..])
  }

  /** `String.prototype.replace` with a string pattern and a replacement without `$`: the first occurrence. */
  function ReplaceFirst(s: string, pattern: string, replacement: string): string
    requires '$' !in replacement
  {
    if pattern <= s then replacement + s[|pattern|..]
    else if s == "" then ""
    else [s[0]] + ReplaceFirst(s[1..], pattern, replacement)
  }

  lemma {:induction false} ReplaceSkips(t: string, rest: string, pattern: string, replacement: string)
    requires '$' !in replacement
    requires |pattern| > 0 && pattern[0] !in t
    ensures ReplaceFirst(t + rest, pattern, replacement) == t + ReplaceFirst(rest, pattern, replacement)
  {
    if t == "" {
      assert t + rest == rest;
    } else {
      assert (t + rest)[1..] == t[1..] + rest;
      assert (t + rest)[0] != pattern[0];
      ReplaceSkips(t[1..], rest, pattern, replacement);
    }
  }

  lemma HoleMatches(name: string, other: string, rest: string)
    requires BraceFree(name) && BraceFree(other)
    ensures "{" + name + "}" <= "{" + other + "}" + rest <==> name == other
  {
    var a, b := "{" + name + "}", "{" + other + "}" + rest;
    assert a[1..] == name + "}" && b[1..] == other + "}" + rest;
    assert a[1..][..|name|] == name && b[1..][..|other|] == other;
    FindUnique(b[1..], '}', |other|);
    if a <= b {
      assert b[1..][..|name|] == a[1..][..|name|] && b[1..][|name|] == a[1..][|name|];
      FindUnique(b[1..], '}', |name|);
    }
  }

  function FillFirst(pieces: seq<Piece>, name: string, value: string): (r: seq<Piece>)
    ensures |r| == |pieces|
  {
    if pieces == [] then []
    else if pieces[0] == Hole(name) then [Text(value)] + pieces[1..]
    else [pieces[0]] + FillFirst(pieces[1..], name, value)
  }

  lemma {:induction false} FillFirstWellFormed(pieces: seq<Piece>, name: string, value: string)
    requires WellFormed(pieces) && BraceFree(value)
    ensures WellFormed(FillFirst(pieces, name, value))
  {
    if pieces != [] && pieces[0] != Hole(name) {
      assert pieces[0] in pieces;
      FillFirstWellFormed(pieces[1..], name, value);
    }
  }

  lemma ReplaceAtHole(name: string, other: string, rest: string, value: string)
    requires BraceFree(name) && BraceFree(other) && '$' !in value
    ensures ReplaceFirst("{" + other + "}" + rest, "{" + name + "}", value)
         == if name == other then value + rest else "{" + other + "}" + ReplaceFirst(rest, "{" + name + "}", value)
  {
    var pattern, s := "{" + name + "}", "{" + other + "}" + rest;
    HoleMatches(name, other, rest);
    if name == other {
      assert s[|pattern|..] == rest;
    } else {
      assert s[1..] == (other + "}") + rest;
      ReplaceSkips(other + "}", rest, pattern, value);
      assert [s[0]] + ((other + "}") + ReplaceFirst(rest, pattern, value)) == "{" + other + "}" + ReplaceFirst(rest, pattern, value);
    }
  }

  /** On a well-formed template, textual replacement fills the first hole of that name and nothing else. */
  lemma {:induction false} ReplaceFillsHole(pieces: seq<Piece>, name: string, value: string)
    requires WellFormed(pieces) && BraceFree(name) && '$' !in value
    ensures ReplaceFirst(Render(pieces), "{" + name + "}", value) == Render(FillFirst(pieces, name, value))
  {
    if pieces != [] {
      var p, rest := pieces[0], pieces[1..];
      assert p in pieces;
      ReplaceFillsHole(rest, name, value);
      if p.Text? {
        ReplaceSkips(p.text, Render(rest), "{" + name + "}", value);
      } else {
        ReplaceAtHole(name, p.name, Render(rest), value);
        assert ([Text(value)] + rest)[1..] == rest;
      }
    }
  }

  type Binding = (string, string)

  ghost predicate PlainBindings(bs: seq<Binding>) {
    forall b :: b in bs ==> BraceFree(b.0) && BraceFree(b.1) && '$' !in b.1
  }

  /** The code's URL: one replacement after another. */
  function Sequential(url: string, bs: seq<Binding>): string
    requires forall b :: b in bs ==> '$' !in b.1
  {
    if bs == [] then url
    else
      var b := bs[|bs| - 1];
      ReplaceFirst(Sequential(url, bs[..|bs| - 1]), "{" + b.0 + "}", b.1)
  }

  ghost function SequentialPieces(pieces: seq<Piece>, bs: seq<Binding>): (r: seq<Piece>)
    ensures |r| == |pieces|
  {
    if bs == [] then pieces
    else FillFirst(SequentialPieces(pieces, bs[..|bs| - 1]), bs[|bs| - 1].0, bs[|bs| - 1].1)
  }

  /** The first value bound to a name. */
  function ValueOf(bs: seq<Binding>, name: string): Option<string> {
    if bs == [] then None
    else
      var before := ValueOf(bs[..|bs| - 1], name);
      if before.Some? then before
      else if bs[|bs| - 1].0 == name then Some(bs[|bs| - 1].1)
      else None
  }

  /** The intended URL: every hole filled at once. */
  function Simultaneous(pieces: seq<Piece>, bs: seq<Binding>): (r: seq<Piece>)
    ensures |r| == |pieces|
    ensures forall i :: 0 <= i < |r| ==> r[i] == FillPiece(pieces[i], bs)
  {
    if pieces == [] then [] else [FillPiece(pieces[0], bs)] + Simultaneous(pieces[1..], bs)
  }

  function FillPiece(p: Piece, bs: seq<Binding>): Piece {
    if p.Hole? && ValueOf(bs, p.name).Some? then Text(ValueOf(bs, p.name).value) else p
  }

  function Count(pieces: seq<Piece>, name: string): nat {
    if pieces == [] then 0 else (if pieces[0] == Hole(name) then 1 else 0) + Count(pieces[1..], name)
  }

  lemma {:induction false} SequentialRenders(pieces: seq<Piece>, bs: seq<Binding>)
    requires WellFormed(pieces) && PlainBindings(bs)
    ensures WellFormed(SequentialPieces(pieces, bs))
    ensures Sequential(Render(pieces), bs) == Render(SequentialPieces(pieces, bs))
  {
    if bs != [] {
      var before, b := bs[..|bs| - 1], bs[|bs| - 1];
      assert b in bs;
      SequentialRenders(pieces, before);
      FillFirstWellFormed(SequentialPieces(pieces, before), b.0, b.1);
      ReplaceFillsHole(SequentialPieces(pieces, before), b.0, b.1);
    }
  }

  lemma {:induction false} CountZeroIff(pieces: seq<Piece>, name: string)
    ensures Count(pieces, name) == 0 <==> Hole(name) !in pieces
  {
    if pieces != [] { CountZeroIff(pieces[1..], name); }
  }

  /** Filling the only hole of a name is filling all of them. */
  lemma {:induction false} FillFirstIsFillAll(pieces: seq<Piece>, name: string, value: string)
    requires Count(pieces, name) <= 1
    ensures forall i :: 0 <= i < |pieces| ==>
      FillFirst(pieces, name, value)[i] == if pieces[i] == Hole(name) then Text(value) else pieces[i]
  {
    if pieces != [] {
      if pieces[0] == Hole(name) {
        CountZeroIff(pieces[1..], name);
      } else {
        FillFirstIsFillAll(pieces[1..], name, value);
      }
    }
  }

  lemma {:induction false} SimultaneousCount(pieces: seq<Piece>, bs: seq<Binding>, name: string)
    ensures Count(Simultaneous(pieces, bs), name) <= Count(pieces, name)
  {
    if pieces != [] {
      assert Simultaneous(pieces, bs)[1..] == Simultaneous(pieces[1..], bs);
      SimultaneousCount(pieces[1..], bs, name);
    }
  }

  lemma {:induction false} SequentialIsSimultaneous(pieces: seq<Piece>, bs: seq<Binding>)
    requires forall b :: b in bs ==> Count(pieces, b.0) <= 1
    ensures SequentialPieces(pieces, bs) == Simultaneous(pieces, bs)
  {
    if bs != [] {
      var before, b := bs[..|bs| - 1], bs[|bs| - 1];
      assert b in bs;
      SequentialIsSimultaneous(pieces, before);
      SimultaneousCount(pieces, before, b.0);
      FillFirstIsFillAll(Simultaneous(pieces, before), b.0, b.1);
    }
  }

  // A placeholder that occurs twice is filled once only, which the rendered URL shows.

  function Braces(s: string): nat {
    if s == "" then 0 else (if s[0] == '{' then 1 else 0) + Braces(s[1..])
  }

  lemma {:induction false} BracesConcat(a: string, b: string)
    ensures Braces(a + b) == Braces(a) + Braces(b)
  {
    if a == "" {
      assert a + b == b;
    } else {
      assert (a + b)[1..] == a[1..] + b;
      BracesConcat(a[1..], b);
    }
  }

  lemma {:induction false} BracesNone(s: string)
    requires '{' !in s
    ensures Braces(s) == 0
  {
    if s != "" { BracesNone(s[1..]); }
  }

  ghost function Holes(pieces: seq<Piece>): nat {
    if pieces == [] then 0 else (if pieces[0].Hole? then 1 else 0) + Holes(pieces[1..])
  }

  lemma {:induction false} BracesAreHoles(pieces: seq<Piece>)
    requires WellFormed(pieces)
    ensures Braces(Render(pieces)) == Holes(pieces)
  {
    if pieces != [] {
      var p := pieces[0];
      assert p in pieces;
      BracesAreHoles(pieces[1..]);
      if p.Text? {
        BracesNone(p.text);
        BracesConcat(p.text, Render(pieces[1..]));
      } else {
        BracesNone(p.name + "}");
        assert "{" + p.name + "}" == "{" + (p.name + "}");
        BracesConcat("{", p.name + "}");
        BracesConcat("{" + p.name + "}", Render(pieces[1..]));
      }
    }
  }

  lemma {:induction false} FewerHoles(a: seq<Piece>, b: seq<Piece>, at: nat)
    requires |a| == |b| && forall i :: 0 <= i < |a| && b[i].Hole? ==> a[i].Hole?
    ensures Holes(b) <= Holes(a)
    ensures at < |a| && a[at].Hole? && b[at].Text? ==> Holes(b) < Holes(a)
  {
    if a != [] { FewerHoles(a[1..], b[1..], if at > 0 then at - 1 else |a|); }
  }

  lemma {:induction false} FillFirstKeeps(pieces: seq<Piece>, name: string, value: string)
    ensures forall i :: 0 <= i < |pieces| && pieces[i] != Hole(name) ==> FillFirst(pieces, name, value)[i] == pieces[i]
    ensures forall other :: other != name ==> Count(FillFirst(pieces, name, value), other) == Count(pieces, other)
    ensures Count(FillFirst(pieces, name, value), name) + 1 >= Count(pieces, name)
  {
    if pieces != [] && pieces[0] != Hole(name) {
      var filled := FillFirst(pieces, name, value);
      assert filled[1..] == FillFirst(pieces[1..], name, value);
      FillFirstKeeps(pieces[1..], name, value);
    }
  }

  /** Distinct bindings fill at most one hole per name. */
  lemma {:induction false} SequentialLeaves(pieces: seq<Piece>, bs: seq<Binding>, name: string)
    requires DistinctNames(bs)
    ensures Count(SequentialPieces(pieces, bs), name) + 1 >= Count(pieces, name)
    ensures (forall b :: b in bs ==> b.0 != name) ==> Count(SequentialPieces(pieces, bs), name) == Count(pieces, name)
    ensures forall i :: 0 <= i < |pieces| && pieces[i].Hole? && ValueOf(bs, pieces[i].name).None? ==>
      SequentialPieces(pieces, bs)[i] == pieces[i]
  {
    if bs != [] {
      var before, b := bs[..|bs| - 1], bs[|bs| - 1];
      SequentialLeaves(pieces, before, name);
      FillFirstKeeps(SequentialPieces(pieces, before), b.0, b.1);
      assert b in bs;
    }
  }

  lemma {:induction false} ValueOfBound(bs: seq<Binding>, b: Binding)
    requires b in bs
    ensures ValueOf(bs, b.0).Some?
  {
    if b != bs[|bs| - 1] { ValueOfBound(bs[..|bs| - 1], b); }
  }

  lemma {:induction false} SequentialHoleWasHole(pieces: seq<Piece>, bs: seq<Binding>)
    ensures forall i :: 0 <= i < |pieces| && SequentialPieces(pieces, bs)[i].Hole? ==> SequentialPieces(pieces, bs)[i] == pieces[i]
  {
    if bs != [] {
      SequentialHoleWasHole(pieces, bs[..|bs| - 1]);
      FillFirstHoleWasHole(SequentialPieces(pieces, bs[..|bs| - 1]), bs[|bs| - 1].0, bs[|bs| - 1].1);
    }
  }

  lemma {:induction false} FillFirstHoleWasHole(pieces: seq<Piece>, name: string, value: string)
    ensures forall i :: 0 <= i < |pieces| && FillFirst(pieces, name, value)[i].Hole? ==> FillFirst(pieces, name, value)[i] == pieces[i]
  {
    if pieces != [] && pieces[0] != Hole(name) { FillFirstHoleWasHole(pieces[1..], name, value); }
  }

  lemma {:induction false} SimultaneousWellFormed(pieces: seq<Piece>, bs: seq<Binding>)
    requires WellFormed(pieces) && PlainBindings(bs)
    ensures WellFormed(Simultaneous(pieces, bs))
  {
    forall p | p in Simultaneous(pieces, bs) ensures BraceFree(if p.Text? then p.text else p.name) {
      var i :| 0 <= i < |pieces| && p == FillPiece(pieces[i], bs);
      assert pieces[i] in pieces;
      if pieces[i].Hole? { ValueIsBound(bs, pieces[i].name); }
    }
  }

  lemma {:induction false} ValueIsBound(bs: seq<Binding>, name: string)
    ensures ValueOf(bs, name).Some? ==> (name, ValueOf(bs, name).value) in bs
  {
    if bs != [] { ValueIsBound(bs[..|bs| - 1], name); }
  }

  /**
   * One-at-a-time replacement is simultaneous substitution exactly when no bound placeholder occurs
   * twice in the template.
   */
  lemma SequentialIffOnce(pieces: seq<Piece>, bs: seq<Binding>)
    requires WellFormed(pieces) && PlainBindings(bs)
    requires DistinctNames(bs)
    ensures Sequential(Render(pieces), bs) == Render(Simultaneous(pieces, bs))
       <==> forall b :: b in bs ==> Count(pieces, b.0) <= 1
  {
    SequentialRenders(pieces, bs);
    if forall b :: b in bs ==> Count(pieces, b.0) <= 1 {
      SequentialIsSimultaneous(pieces, bs);
    } else {
      var b :| b in bs && Count(pieces, b.0) > 1;
      var sequential, all := SequentialPieces(pieces, bs), Simultaneous(pieces, bs);
      SequentialLeaves(pieces, bs, b.0);
      CountZeroIff(sequential, b.0);
      var at :| 0 <= at < |sequential| && sequential[at] == Hole(b.0);
      SequentialHoleWasHole(pieces, bs);
      ValueOfBound(bs, b);
      FewerHoles(sequential, all, at);
      SimultaneousWellFormed(pieces, bs);
      BracesAreHoles(sequential);
      BracesAreHoles(all);
    }
  }

  /** A placeholder that occurs twice keeps its second occurrence. */
  lemma TwiceFilledOnce()
    ensures Sequential("{a}/{a}", [("a", "1")]) == "1/{a}"
  {
    assert "{a}" <= "{a}/{a}" && "{a}/{a}"[3..] == "/{a}";
    assert ReplaceFirst("{a}/{a}", "{a}", "1") == "1/{a}";
    assert [("a", "1")][..0] == [];
  }

  lemma {:induction false} DistinctValue(bs: seq<Binding>, b: Binding)
    requires b in bs
    requires DistinctNames(bs)
    ensures ValueOf(bs, b.0) == Some(b.1)
  {
    ValueIsBound(bs, b.0);
    ValueOfBound(bs, b);
  }

  ghost predicate DistinctNames(bs: seq<Binding>) {
    forall i, j :: 0 <= i < j < |bs| ==> bs[i].0 != bs[j].0
  }

  lemma SameBindingsSameValue(bs: seq<Binding>, cs: seq<Binding>, name: string)
    requires DistinctNames(bs) && DistinctNames(cs)
    requires forall b :: b in bs <==> b in cs
    ensures ValueOf(bs, name) == ValueOf(cs, name)
  {
    ValueIsBound(bs, name);
    ValueIsBound(cs, name);
    if ValueOf(bs, name).Some? {
      DistinctValue(cs, (name, ValueOf(bs, name).value));
    } else if ValueOf(cs, name).Some? {
      DistinctValue(bs, (name, ValueOf(cs, name).value));
    }
  }

  /** The order of differently named parameters does not matter. */
  lemma OrderIrrelevant(pieces: seq<Piece>, bs: seq<Binding>, cs: seq<Binding>)
    requires WellFormed(pieces) && PlainBindings(bs) && PlainBindings(cs)
    requires DistinctNames(bs) && DistinctNames(cs) && multiset(bs) == multiset(cs)
    requires forall b :: b in bs ==> Count(pieces, b.0) <= 1
    ensures Sequential(Render(pieces), bs) == Sequential(Render(pieces), cs)
  {
    forall b: Binding ensures b in bs <==> b in cs {
      assert b in bs <==> b in multiset(bs);
      assert b in cs <==> b in multiset(cs);
    }
    forall name: string ensures ValueOf(bs, name) == ValueOf(cs, name) { SameBindingsSameValue(bs, cs, name); }
    SequentialRenders(pieces, bs);
    SequentialRenders(pieces, cs);
    SequentialIsSimultaneous(pieces, bs);
    SequentialIsSimultaneous(pieces, cs);
    assert Simultaneous(pieces, bs) == Simultaneous(pieces, cs);
  }

  // ----- The request of one operation -----

  /** `String(example)`. */
  function TextOf(e: Example): string {
    match e
    case Absent => "undefined"
    case Single(text) => if text.Some? then text.value else "null"
    case Many(texts) => Join(texts)
  }

  function Join(texts: seq<Option<string>>): string {
    if texts == [] then ""
    else (if texts[0].Some? then texts[0].value else "") + (if |texts| > 1 then "," + Join(texts[1..]) else "")
  }

  function Elements(e: Example): seq<Option<string>> {
    match e case Absent => [] case Single(text) => [text] case Many(texts) => texts
  }

  function Present(name: string, texts: seq<Option<string>>): seq<(string, string)> {
    if texts == [] then []
    else
      var last := texts[|texts| - 1];
      Present(name, texts[..|texts| - 1]) + (if last.Some? then [(name, last.value)] else [])
  }

  function Group(location: string): string {
    if location == "header" then "headers" else location
  }

  datatype Request = Request(url: string, input: Input, query: seq<(string, string)>)

  function PathBindings(ps: seq<Parameter>): (bs: seq<Binding>)
    ensures forall b :: b in bs ==> Plain(b.1)
  {
    if ps == [] then []
    else
      var p := ps[|ps| - 1];
      EncodedPlain(TextOf(p.example), false);
      PathBindings(ps[..|ps| - 1])
      + if p.location == "path" && p.example != Absent then [(p.name, EncodeURIComponent(TextOf(p.example)))] else []
  }

  function QueryItems(ps: seq<Parameter>): seq<(string, string)> {
    if ps == [] then []
    else
      var p := ps[|ps| - 1];
      QueryItems(ps[..|ps| - 1]) + if p.location == "query" then Present(p.name, Elements(p.example)) else []
  }

  /** The last example given for a name in an input group. */
  function InputExample(ps: seq<Parameter>, group: string, name: string): Option<Example> {
    if ps == [] then None
    else
      var p := ps[|ps| - 1];
      if p.example != Absent && Group(p.location) == group && p.name == name then Some(p.example)
      else InputExample(ps[..|ps| - 1], group, name)
  }

  predicate Unfillable(p: Parameter) {
    p.example == Absent && p.required
  }

  type Input = map<string, map<string, Example>>

  ghost predicate Holds(input: Input, ps: seq<Parameter>) {
    forall group, name :: LookIn(input, group, name) == InputExample(ps, group, name)
  }

  function LookIn(input: Input, group: string, name: string): Option<Example> {
    if group in input && name in input[group] then Some(input[group][name]) else None
  }

  /** The first required parameter without example, if any. */
  ghost predicate FirstUnfillable(ps: seq<Parameter>, i: int) {
    && 0 <= i < |ps| && Unfillable(ps[i])
    && forall j :: 0 <= j < i ==> !Unfillable(ps[j])
  }

  function Remember(input: Input, p: Parameter): Input {
    var group := Group(p.location);
    var values := if group in input then input[group] else map[];
    input[group := values[p.name := p.example]]
  }

  lemma RememberHolds(input: Input, ps: seq<Parameter>, p: Parameter)
    requires Holds(input, ps)
    ensures Holds(if p.example == Absent then input else Remember(input, p), ps + [p])
  {
    assert (ps + [p])[..|ps|] == ps;
    forall group, name
      ensures LookIn(if p.example == Absent then input else Remember(input, p), group, name)
           == InputExample(ps + [p], group, name)
    {
      assert LookIn(input, group, name) == InputExample(ps, group, name);
    }
  }

  lemma SequentialStep(url: string, ps: seq<Parameter>, p: Parameter)
    ensures Plain(EncodeURIComponent(TextOf(p.example)))
    ensures Sequential(url, PathBindings(ps + [p]))
         == if p.location == "path" && p.example != Absent
            then ReplaceFirst(Sequential(url, PathBindings(ps)), "{" + p.name + "}", EncodeURIComponent(TextOf(p.example)))
            else Sequential(url, PathBindings(ps))
  {
    EncodedPlain(TextOf(p.example), false);
    assert (ps + [p])[..|ps|] == ps;
    var bs := PathBindings(ps + [p]);
    if p.location == "path" && p.example != Absent {
      assert bs[..|bs| - 1] == PathBindings(ps);
    } else {
      assert bs == PathBindings(ps);
    }
  }

  method AppendElements(query: seq<(string, string)>, name: string, items: seq<Option<string>>)
    returns (r: seq<(string, string)>)
    ensures r == query + Present(name, items)
  {
    r := query;
    for k := 0 to |items|
      invariant r == query + Present(name, items[..k])
    {
      assert items[..k + 1][..k] == items[..k];
      if items[k].Some? { r := r + [(name, items[k].value)]; }
    }
    assert items[..|items|] == items;
  }

  /** What a request holds once the parameters `ps` have been added to it. */
  ghost predicate Built(r: Request, path: string, ps: seq<Parameter>) {
    && r.url == Sequential(path, PathBindings(ps))
    && r.query == QueryItems(ps)
    && Holds(r.input, ps)
  }

  /** One iteration of the parameter loop, for a parameter with an example. */
  method AddParameter(before: Request, p: Parameter, ghost path: string, ghost ps: seq<Parameter>, ghost all: seq<Parameter>)
    returns (r: Request)
    requires Built(before, path, ps) && p.example != Absent && all == ps + [p]
    ensures Built(r, path, all)
  {
    assert (ps + [p])[..|ps|] == ps;
    RememberHolds(before.input, ps, p);
    SequentialStep(path, ps, p);
    r := before.(input := Remember(before.input, p));
    if p.location == "path" {
      r := r.(url := ReplaceFirst(r.url, "{" + p.name + "}", EncodeURIComponent(TextOf(p.example))));
    } else if p.location == "query" {
      var query := AppendElements(r.query, p.name, Elements(p.example));
      r := r.(query := query);
    }
  }

  lemma NothingBuilt(path: string)
    ensures Built(Request(path, map[], []), path, [])
  {}

  lemma SkippedParameter(r: Request, p: Parameter, path: string, ps: seq<Parameter>, all: seq<Parameter>)
    requires Built(r, path, ps) && p.example == Absent && all == ps + [p]
    ensures Built(r, path, all)
  {
    assert (ps + [p])[..|ps|] == ps;
    RememberHolds(r.input, ps, p);
    SequentialStep(path, ps, p);
    assert Present(p.name, []) == [];
  }

  lemma PrefixSnoc(ps: seq<Parameter>, i: nat)
    requires i < |ps|
    ensures ps[..i + 1] == ps[..i] + [ps[i]]
  {}

  /** One iteration of the parameter loop that does not throw. */
  method NextParameter(before: Request, ghost path: string, ps: seq<Parameter>, i: nat) returns (r: Request)
    requires i < |ps| && Built(before, path, ps[..i]) && !Unfillable(ps[i])
    ensures Built(r, path, ps[..i + 1])
  {
    r := before;
    PrefixSnoc(ps, i);
    if ps[i].example != Absent {
      r := AddParameter(before, ps[i], path, ps[..i], ps[..i + 1]);
    } else {
      SkippedParameter(before, ps[i], path, ps[..i], ps[..i + 1]);
    }
  }

  /** The parameter loop of `extractRunsFixtures`, over merged parameters. */
  method BuildMerged(path: string, ps: seq<Parameter>) returns (r: Result<Request, string>)
    ensures r.Ok? ==> Built(r.value, path, ps) && forall i :: 0 <= i < |ps| ==> !Unfillable(ps[i])
    ensures r.Err? ==> exists i :: FirstUnfillable(ps, i) && r.error == ps[i].name
  {
    var request := Request(path, map[], []);
    assert ps[..0] == [];
    NothingBuilt(path);
    for i := 0 to |ps|
      invariant forall j :: 0 <= j < i ==> !Unfillable(ps[j])
      invariant Built(request, path, ps[..i])
    {
      if Unfillable(ps[i]) {
        assert FirstUnfillable(ps, i);
        return Err(ps[i].name);
      }
      request := NextParameter(request, path, ps, i);
    }
    assert ps[..|ps|] == ps;
    r := Ok(request);
  }

  /** The finished request: the query stands behind the URL, if there is one. */
  ghost predicate Finished(r: Request, path: string, ps: seq<Parameter>) {
    && r.url == WithQuery(Sequential(path, PathBindings(ps)), QueryItems(ps))
    && r.query == QueryItems(ps)
    && Holds(r.input, ps)
  }

  /** The request of one operation; the error names the first required parameter without example. */
  method BuildRequest(path: string, shared: seq<Parameter>, own: seq<Parameter>) returns (r: Result<Request, string>)
    ensures r.Ok? <==> forall p :: p in MergeParameters(shared, own) ==> !Unfillable(p)
    ensures r.Ok? ==> Finished(r.value, path, MergeParameters(shared, own))
    ensures r.Err? ==>
      exists i :: FirstUnfillable(MergeParameters(shared, own), i) && r.error == MergeParameters(shared, own)[i].name
  {
    var ps := MergeParameters(shared, own);
    r := BuildMerged(path, ps);
    if r.Err? {
      ghost var i :| FirstUnfillable(ps, i) && r.error == ps[i].name;
      assert ps[i] in ps;
    } else if r.value.query != [] {
      r := Ok(r.value.(url := r.value.url + "?" + Query(r.value.query)));
    }
  }

  /**
   * Reading the built URL gives back the expanded path and exactly the query items, when the path template holds
   * no question mark.
   */
  lemma BuiltUrlReadsBack(path: string, ps: seq<Parameter>)
    requires '?' !in path
    ensures
      var expanded := Sequential(path, PathBindings(ps));
      ReadUrl(WithQuery(expanded, QueryItems(ps))) == (expanded, Some(QueryItems(ps)))
  {
    SequentialLacks(path, PathBindings(ps));
    WithQueryReads(Sequential(path, PathBindings(ps)), QueryItems(ps));
  }

  lemma {:induction false} SequentialLacks(path: string, bs: seq<Binding>)
    requires '?' !in path && forall b :: b in bs ==> Plain(b.1)
    requires forall b :: b in bs ==> '$' !in b.1
    ensures '?' !in Sequential(path, bs)
  {
    if bs != [] {
      var b := bs[|bs| - 1];
      SequentialLacks(path, bs[..|bs| - 1]);
      assert b in bs && Special('?') && '?' !in b.1;
      ReplaceLacks(Sequential(path, bs[..|bs| - 1]), "{" + b.0 + "}", b.1);
    }
  }

  lemma {:induction false} ReplaceLacks(s: string, pattern: string, replacement: string)
    requires '$' !in replacement && '?' !in s && '?' !in replacement
    ensures '?' !in ReplaceFirst(s, pattern, replacement)
  {
    if !(pattern <= s) && s != "" { ReplaceLacks(s[1..], pattern, replacement); }
  }

  /** The built URL is the template with every parameter in its placeholder, at once. */
  lemma BuiltUrlFillsTemplate(pieces: seq<Piece>, ps: seq<Parameter>)
    requires WellFormed(pieces)
    requires forall p :: p in ps ==> BraceFree(p.name)
    requires forall b :: b in PathBindings(ps) ==> Count(pieces, b.0) <= 1
    ensures Sequential(Render(pieces), PathBindings(ps)) == Render(Simultaneous(pieces, PathBindings(ps)))
  {
    BindingNames(ps);
    SequentialRenders(pieces, PathBindings(ps));
    SequentialIsSimultaneous(pieces, PathBindings(ps));
  }

  lemma {:induction false} BindingNames(ps: seq<Parameter>)
    ensures forall b :: b in PathBindings(ps) ==> exists p :: p in ps && p.name == b.0
  {
    if ps != [] {
      BindingNames(ps[..|ps| - 1]);
      assert ps[|ps| - 1] in ps;
    }
  }

  // ----- What each parameter contributes -----

  /** The query items of a list are those of its parts, one after another. */
  lemma {:induction false} QueryConcat(ps: seq<Parameter>, qs: seq<Parameter>)
    ensures QueryItems(ps + qs) == QueryItems(ps) + QueryItems(qs)
  {
    if qs == [] {
      assert ps + qs == ps;
    } else {
      var init, last := qs[..|qs| - 1], qs[|qs| - 1];
      QueryConcat(ps, init);
      QuerySnoc(ps + init, last);
      QuerySnoc(init, last);
      Associate(ps, init, [last]);
      assert qs == init + [last];
      Associate(QueryItems(ps), QueryItems(init), QueryItems([last]));
    }
  }

  lemma QuerySnoc(ps: seq<Parameter>, p: Parameter)
    ensures QueryItems(ps + [p]) == QueryItems(ps) + QueryItems([p])
  {
    assert (ps + [p])[..|ps|] == ps;
    QueryOfOne(p);
  }

  lemma QueryOfOne(p: Parameter)
    ensures QueryItems([p]) == if p.location == "query" then Present(p.name, Elements(p.example)) else []
  {
    assert [p][..0] == [];
  }

  /** A single example is one item of its name, null is none, and no other location gives any. */
  lemma QuerySingle(location: string, name: string, required: bool, text: string)
    ensures QueryItems([Parameter("query", name, required, Single(Some(text)))]) == [(name, text)]
    ensures QueryItems([Parameter("query", name, required, Single(None))]) == []
    ensures location != "query" ==> QueryItems([Parameter(location, name, required, Single(Some(text)))]) == []
  {
    QueryOfOne(Parameter("query", name, required, Single(Some(text))));
    QueryOfOne(Parameter("query", name, required, Single(None)));
    QueryOfOne(Parameter(location, name, required, Single(Some(text))));
    PresentOne(name, Some(text));
    PresentOne(name, None);
  }

  lemma PresentOne(name: string, text: Option<string>)
    ensures Present(name, [text]) == if text.Some? then [(name, text.value)] else []
  {
    assert [text][..0] == [];
  }

  /** Several examples are the items of each, in order. */
  lemma {:induction false} QueryMany(name: string, required: bool, texts: seq<Option<string>>)
    ensures
      var items := QueryItems([Parameter("query", name, required, Many(texts))]);
      && (texts == [] ==> items == [])
      && (texts != [] ==>
            items == QueryItems([Parameter("query", name, required, Single(texts[0]))])
                     + QueryItems([Parameter("query", name, required, Many(texts[1..]))]))
  {
    QueryOfOne(Parameter("query", name, required, Many(texts)));
    if texts != [] {
      QueryOfOne(Parameter("query", name, required, Many(texts[1..])));
      QueryOfOne(Parameter("query", name, required, Single(texts[0])));
      PresentFront(name, texts);
    }
  }

  lemma {:induction false} PresentFront(name: string, texts: seq<Option<string>>)
    requires texts != []
    ensures Present(name, texts) == Present(name, [texts[0]]) + Present(name, texts[1..])
  {
    if |texts| == 1 {
      assert texts == [texts[0]] && texts[1..] == [];
    } else {
      PresentFront(name, texts[..|texts| - 1]);
      assert texts[1..][..|texts| - 2] == texts[..|texts| - 1][1..];
    }
  }

  /** The last parameter of a group and name that has an example; header parameters are in the group `headers`. */
  ghost predicate LastGiven(ps: seq<Parameter>, i: int, group: string, name: string) {
    && 0 <= i < |ps| && GivenFor(ps[i], group, name)
    && forall j :: i < j < |ps| ==> !GivenFor(ps[j], group, name)
  }

  ghost predicate GivenFor(p: Parameter, group: string, name: string) {
    && p.example != Absent && p.name == name
    && if p.location == "header" then group == "headers" else group == p.location
  }

  lemma {:induction false} InputExampleIsLast(ps: seq<Parameter>, group: string, name: string)
    ensures InputExample(ps, group, name).None? ==> forall i :: !LastGiven(ps, i, group, name)
    ensures InputExample(ps, group, name).Some? ==>
      exists i :: LastGiven(ps, i, group, name) && InputExample(ps, group, name) == Some(ps[i].example)
  {
    if ps != [] {
      var n := |ps| - 1;
      if GivenFor(ps[n], group, name) {
        assert LastGiven(ps, n, group, name);
      } else {
        var init := ps[..n];
        InputExampleIsLast(init, group, name);
        forall i ensures LastGiven(ps, i, group, name) <==> LastGiven(init, i, group, name) {
          assert forall j :: 0 <= j < n ==> init[j] == ps[j];
        }
      }
    }
  }

  /** The grouped input holds exactly the last example of each group and name. */
  lemma InputHoldsLast(input: Input, ps: seq<Parameter>, group: string, name: string, i: int)
    requires Holds(input, ps)
    ensures LastGiven(ps, i, group, name) ==> group in input && name in input[group] && input[group][name] == ps[i].example
    ensures group in input && name in input[group] ==> exists k :: LastGiven(ps, k, group, name) && input[group][name] == ps[k].example
  {
    InputExampleIsLast(ps, group, name);
    assert LookIn(input, group, name) == InputExample(ps, group, name);
  }

  /** The path values of a list are those of its parts, one after another. */
  lemma {:induction false} BindingsConcat(ps: seq<Parameter>, qs: seq<Parameter>)
    ensures PathBindings(ps + qs) == PathBindings(ps) + PathBindings(qs)
  {
    if qs == [] {
      assert ps + qs == ps;
    } else {
      BindingsConcat(ps, qs[..|qs| - 1]);
      assert (ps + qs)[..|ps + qs| - 1] == ps + qs[..|qs| - 1];
    }
  }

  /** A path parameter fills its own placeholder with a value that decodes to its example; no other location fills any. */
  lemma BindingOfOne(p: Parameter)
    requires p.example.Single? && p.example.text.Some?
    ensures p.location != "path" ==> PathBindings([p]) == []
    ensures p.location == "path" ==>
      && |PathBindings([p])| == 1 && PathBindings([p])[0].0 == p.name
      && Decode(PathBindings([p])[0].1, false) == p.example.text
  {
    assert [p][..0] == [];
    DecodesEncoded(p.example.text.value, false);
  }

  /** The text of an array joins the texts of its elements with commas; null is empty. */
  lemma JoinedText(first: Option<string>, second: Option<string>, more: seq<Option<string>>)
    ensures TextOf(Single(first)) == if first.Some? then first.value else "null"
    ensures TextOf(Many([])) == ""
    ensures TextOf(Many([first])) == if first.Some? then first.value else ""
    ensures TextOf(Many([first, second] + more)) == TextOf(Many([first])) + ("," + TextOf(Many([second] + more)))
  {
    assert [first][1..] == [] && ([first, second] + more)[1..] == [second] + more;
  }
}
