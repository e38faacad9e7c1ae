/**
 * Adding the task-input events to the pinned Runs contract.
 *
 * Two `oneOf` unions discriminate on `event_type`: named variants list the types they accept in an
 * `enum`, one fallback accepts every type outside its `not.enum`.
 */
module ContractPatch {
  import opened Prelude

  /** `names` is the `enum`, `excluded` the `not.enum`. */
  datatype EventType = EventType(names: Option<seq<string>>, excluded: Option<seq<string>>)

  datatype Variant = Variant(envelope: string, eventType: EventType, payload: string)

  type Union = seq<Variant>

  const SEALED := "AGENT_RUN_AUTHORIZATION_SEALED"

  predicate HasType(v: Variant, t: string) {
    v.eventType.names.Some? && t in v.eventType.names.value
  }

  predicate HasNot(v: Variant) {
    v.eventType.excluded.Some?
  }

  /** `variants.find(hasType)`. */
  function FindType(u: Union, t: string): (r: Option<Variant>)
    ensures r.Some? ==> r.value in u && HasType(r.value, t)
    ensures r.None? ==> forall v :: v in u ==> !HasType(v, t)
  {
    if u == [] then None
    else if HasType(u[0], t) then Some(u[0])
    else FindType(u[1..], t)
  }

  predicate Names(u: Union, t: string) {
    FindType(u, t).Some?
  }

  /** The index of the first variant with a `not`, or the length when there is none. */
  function FirstNot(u: Union): (i: nat)
    ensures i <= |u| && (i < |u| ==> HasNot(u[i]))
    ensures forall v :: v in u[..i] ==> !HasNot(v)
  {
    if u == [] || HasNot(u[0]) then 0
    else
      var i := FirstNot(u[1..]) + 1;
      assert u[..i] == [u[0]] + u[1..][..i - 1];
      i
  }

  /** The base envelope with the upstream discriminant and payload. */
  function Graft(envelope: string, upstream: Variant): Variant {
    upstream.(envelope := envelope)
  }

  /** `variants.splice(fallbackIndex, 0, variant)`; without a fallback the index is -1, one before the end. */
  function Splice(u: Union, v: Variant): (r: Union)
    requires u != []
    ensures |r| == |u| + 1
    ensures forall w :: w in r <==> w in u || w == v
  {
    var at := if FirstNot(u) < |u| then FirstNot(u) else |u| - 1;
    assert u == u[..at] + u[at..];
    u[..at] + [v] + u[at..]
  }

  /** The union with the event type named by some variant; `None` where the code throws. */
  function WithName(u: Union, upstream: Option<Union>, t: string): Option<Union> {
    if Names(u, t) then Some(u)
    else
      var template := FindType(u, SEALED);
      if template.None? || upstream.None? || !Names(upstream.value, t) then None
      else Some(Splice(u, Graft(template.value.envelope, FindType(upstream.value, t).value)))
  }

  /** The fallback with the type among its exclusions. */
  function Excluding(v: Variant, t: string): Variant
    requires HasNot(v)
  {
    var excluded := v.eventType.excluded.value;
    if t in excluded then v else v.(eventType := v.eventType.(excluded := Some(excluded + [t])))
  }

  function AddType(u: Union, upstream: Option<Union>, t: string): Option<Union> {
    var named := WithName(u, upstream, t);
    if named.None? then None
    else
      var n := named.value;
      var f := FirstNot(n);
      if f == |n| then None else Some(n[f := Excluding(n[f], t)])
  }

  function AddTypes(u: Union, upstream: Option<Union>, t1: string, t2: string): Option<Union> {
    var first := AddType(u, upstream, t1);
    if first.None? then None else AddType(first.value, upstream, t2)
  }

  // ----- One step, on a union laid out around its fallback -----

  ghost predicate NoNot(u: Union) {
    forall v :: v in u ==> !HasNot(v)
  }

  lemma {:induction false} FindConcat(a: Union, b: Union, t: string)
    ensures FindType(a + b, t) == if Names(a, t) then FindType(a, t) else FindType(b, t)
  {
    if a == [] {
      assert a + b == b;
    } else {
      assert (a + b)[1..] == a[1..] + b;
      FindConcat(a[1..], b, t);
    }
  }

  lemma {:induction false} FirstNotConcat(before: Union, fallback: Variant, after: Union)
    requires NoNot(before) && HasNot(fallback)
    ensures FirstNot(before + [fallback] + after) == |before|
  {
    if before != [] {
      var u := before + [fallback] + after;
      assert u[0] in before && u[1..] == before[1..] + [fallback] + after;
      FirstNotConcat(before[1..], fallback, after);
    }
  }

  lemma Layout(u: Union)
    requires FirstNot(u) < |u|
    ensures u == u[..FirstNot(u)] + [u[FirstNot(u)]] + u[FirstNot(u) + 1..]
  {
    Around(u, FirstNot(u));
  }

  lemma Around<T>(u: seq<T>, i: nat)
    requires i < |u|
    ensures u == u[..i] + [u[i]] + u[i + 1..]
  {}

  lemma ExcludeAt(before: Union, fallback: Variant, after: Union, t: string)
    requires NoNot(before) && HasNot(fallback)
    ensures
      var u := before + [fallback] + after;
      && FirstNot(u) == |before|
      && u[|before| := Excluding(fallback, t)] == before + [Excluding(fallback, t)] + after
  {
    FirstNotConcat(before, fallback, after);
  }

  /** One step on `before + [fallback] + after`, whatever stands after the fallback. */
  lemma AddTypeLayout(before: Union, fallback: Variant, after: Union, upstream: Option<Union>, t: string)
    requires NoNot(before) && HasNot(fallback)
    requires AddType(before + [fallback] + after, upstream, t).Some?
    ensures
      var u := before + [fallback] + after;
      var r := AddType(u, upstream, t).value;
      if Names(u, t) then r == before + [Excluding(fallback, t)] + after
      else
        && Names(u, SEALED) && upstream.Some? && Names(upstream.value, t)
        && var v := Graft(FindType(u, SEALED).value.envelope, FindType(upstream.value, t).value);
        if HasNot(v) then r == before + [Excluding(v, t)] + ([fallback] + after)
        else r == (before + [v]) + [Excluding(fallback, t)] + after
  {
    var u := before + [fallback] + after;
    FirstNotConcat(before, fallback, after);
    if Names(u, t) {
      ExcludeAt(before, fallback, after, t);
    } else {
      var v := Graft(FindType(u, SEALED).value.envelope, FindType(upstream.value, t).value);
      assert u[..|before|] == before && u[|before|..] == [fallback] + after;
      if HasNot(v) {
        assert Splice(u, v) == before + [v] + ([fallback] + after);
        ExcludeAt(before, v, [fallback] + after, t);
      } else {
        assert Splice(u, v) == (before + [v]) + [fallback] + after;
        ExcludeAt(before + [v], fallback, after, t);
      }
    }
  }

  // ----- Idempotence -----

  /** Named by a variant, and excluded by the first variant with a `not`. */
  ghost predicate Settled(u: Union, t: string) {
    Names(u, t) && FirstNot(u) < |u| && t in u[FirstNot(u)].eventType.excluded.value
  }

  lemma ExcludeKeepsNames(u: Union, f: nat, t: string, other: string)
    requires f < |u| && HasNot(u[f]) && Names(u, other)
    ensures Names(u[f := Excluding(u[f], t)], other)
  {
    var r := u[f := Excluding(u[f], t)];
    var v := FindType(u, other).value;
    var i :| 0 <= i < |u| && u[i] == v;
    assert r[i] in r && HasType(r[i], other);
  }

  lemma WithNameNames(u: Union, upstream: Option<Union>, t: string)
    requires WithName(u, upstream, t).Some?
    ensures Names(WithName(u, upstream, t).value, t)
    ensures forall other :: Names(u, other) ==> Names(WithName(u, upstream, t).value, other)
  {
    var n := WithName(u, upstream, t).value;
    if !Names(u, t) {
      var v := Graft(FindType(u, SEALED).value.envelope, FindType(upstream.value, t).value);
      assert v in n && HasType(v, t);
      forall other | Names(u, other) ensures Names(n, other) {
        assert FindType(u, other).value in n;
      }
    }
  }

  lemma AddTypeSettles(u: Union, upstream: Option<Union>, t: string)
    requires AddType(u, upstream, t).Some?
    ensures Settled(AddType(u, upstream, t).value, t)
    ensures forall other :: Names(u, other) ==> Names(AddType(u, upstream, t).value, other)
  {
    var n := WithName(u, upstream, t).value;
    var f := FirstNot(n);
    WithNameNames(u, upstream, t);
    forall other | Names(n, other) ensures Names(n[f := Excluding(n[f], t)], other) {
      ExcludeKeepsNames(n, f, t, other);
    }
    Layout(n);
    ExcludeAt(n[..f], n[f], n[f + 1..], t);
    FirstNotConcat(n[..f], Excluding(n[f], t), n[f + 1..]);
  }

  /** A step changes nothing exactly on a settled union. */
  lemma AddTypeFixpoint(u: Union, upstream: Option<Union>, t: string)
    ensures AddType(u, upstream, t) == Some(u) <==> Settled(u, t)
  {
    if AddType(u, upstream, t) == Some(u) { AddTypeSettles(u, upstream, t); }
    if Settled(u, t) { assert u[FirstNot(u) := u[FirstNot(u)]] == u; }
  }

  lemma AddTypesFixpoint(u: Union, upstream: Option<Union>, t1: string, t2: string)
    ensures AddTypes(u, upstream, t1, t2) == Some(u) <==> Settled(u, t1) && Settled(u, t2)
  {
    AddTypeFixpoint(u, upstream, t1);
    AddTypeFixpoint(u, upstream, t2);
    if AddTypes(u, upstream, t1, t2) == Some(u) { NoStepChanges(u, upstream, t1, t2); }
  }

  lemma NoStepChanges(u: Union, upstream: Option<Union>, t1: string, t2: string)
    requires AddTypes(u, upstream, t1, t2) == Some(u)
    ensures Settled(u, t1) && Settled(u, t2)
  {
    // No step inserted anything, so both only extended the same fallback's exclusions.
    assert Names(u, t1) && Names(AddType(u, upstream, t1).value, t2);
    Layout(u);
    TwoExclusions(u[..FirstNot(u)], u[FirstNot(u)], u[FirstNot(u) + 1..], upstream, t1, t2);
  }

  lemma TwoExclusions(before: Union, fallback: Variant, after: Union, upstream: Option<Union>, t1: string, t2: string)
    requires NoNot(before) && HasNot(fallback)
    requires
      var u := before + [fallback] + after;
      && Names(u, t1) && AddTypes(u, upstream, t1, t2) == Some(u)
      && Names(AddType(u, upstream, t1).value, t2)
    ensures Excluding(Excluding(fallback, t1), t2) == fallback
  {
    ExcludeAt(before, fallback, after, t1);
    ExcludeAt(before, Excluding(fallback, t1), after, t2);
    assert (before + [fallback] + after)[|before|] == fallback;
    assert (before + [Excluding(Excluding(fallback, t1), t2)] + after)[|before|] == Excluding(Excluding(fallback, t1), t2);
  }

  /**
   * The second type is named neither by the base nor by the variant copied for the first, and its upstream variant
   * carries a `not` without the first type.
   */
  predicate Hides(u: Union, upstream: Option<Union>, t1: string, t2: string) {
    !Names(u, t2) && !Names(Picked(u, upstream, t1), t2) && upstream.Some? && Names(upstream.value, t2) &&
    var v := FindType(upstream.value, t2).value;
    HasNot(v) && t1 !in v.eventType.excluded.value
  }

  lemma SpliceNames(u: Union, v: Variant, t: string)
    requires u != []
    ensures Names(Splice(u, v), t) <==> Names(u, t) || HasType(v, t)
  {
    var r := Splice(u, v);
    if Names(r, t) { assert FindType(r, t).value in r; }
    if Names(u, t) { assert FindType(u, t).value in r; }
    assert v in r;
  }

  lemma ExcludeNames(u: Union, f: nat, t: string, other: string)
    requires f < |u| && HasNot(u[f])
    ensures Names(u[f := Excluding(u[f], t)], other) <==> Names(u, other)
  {
    var r := u[f := Excluding(u[f], t)];
    if Names(u, other) { ExcludeKeepsNames(u, f, t, other); }
    if Names(r, other) {
      var v := FindType(r, other).value;
      var i :| 0 <= i < |r| && r[i] == v;
      assert HasType(u[i], other) && u[i] in u;
    }
  }

  /** After a step, exactly the old names and those of the copied variant are there. */
  lemma NamesAfterStep(u: Union, upstream: Option<Union>, t: string, other: string)
    requires AddType(u, upstream, t).Some?
    ensures Names(AddType(u, upstream, t).value, other) <==> Names(u, other) || Names(Picked(u, upstream, t), other)
  {
    var n := WithName(u, upstream, t).value;
    ExcludeNames(n, FirstNot(n), t, other);
    if !Names(u, t) {
      var v := FindType(upstream.value, t).value;
      SpliceNames(u, Graft(FindType(u, SEALED).value.envelope, v), other);
      assert [v][1..] == [];
    }
  }

  /**
   * Patching a patched union changes nothing, except exactly when the second event's upstream variant
   * carries a `not` without the first event: that variant then becomes the fallback.
   */
  lemma PatchIdempotentIff(u: Union, upstream: Option<Union>, t1: string, t2: string)
    requires AddTypes(u, upstream, t1, t2).Some? && t1 != t2
    ensures
      var r := AddTypes(u, upstream, t1, t2).value;
      AddTypes(r, upstream, t1, t2) == Some(r) <==> !Hides(u, upstream, t1, t2)
  {
    var m := AddType(u, upstream, t1).value;
    var r := AddType(m, upstream, t2).value;
    AddTypeSettles(u, upstream, t1);
    AddTypeSettles(m, upstream, t2);
    AddTypesFixpoint(r, upstream, t1, t2);
    FallbackAfter(m, upstream, t2);
    NamesAfterStep(u, upstream, t1, t2);
  }

  /** The types the fallback excludes after a step. */
  lemma FallbackAfter(m: Union, upstream: Option<Union>, t: string)
    requires FirstNot(m) < |m| && AddType(m, upstream, t).Some?
    ensures
      var r := AddType(m, upstream, t).value;
      var spliced := !Names(m, t) && HasNot(FindType(upstream.value, t).value);
      var now := if spliced then FindType(upstream.value, t).value else m[FirstNot(m)];
      && FirstNot(r) < |r|
      && r[FirstNot(r)].eventType.excluded == Excluding(now, t).eventType.excluded
  {
    var f := FirstNot(m);
    Layout(m);
    SecondFallback(m[..f], m[f], m[f + 1..], upstream, t);
  }

  /** Which variant is the fallback after a step, and what it excludes. */
  lemma SecondFallback(before: Union, fallback: Variant, after: Union, upstream: Option<Union>, t: string)
    requires NoNot(before) && HasNot(fallback)
    requires AddType(before + [fallback] + after, upstream, t).Some?
    ensures
      var u := before + [fallback] + after;
      var r := AddType(u, upstream, t).value;
      var now := if !Names(u, t) && HasNot(FindType(upstream.value, t).value) then FindType(upstream.value, t).value else fallback;
      && FirstNot(r) < |r|
      && r[FirstNot(r)].eventType.excluded == Excluding(now, t).eventType.excluded
  {
    var u := before + [fallback] + after;
    AddTypeLayout(before, fallback, after, upstream, t);
    if Names(u, t) {
      FirstNotConcat(before, Excluding(fallback, t), after);
    } else {
      var v := Graft(FindType(u, SEALED).value.envelope, FindType(upstream.value, t).value);
      if HasNot(v) {
        FirstNotConcat(before, Excluding(v, t), [fallback] + after);
      } else {
        FirstNotConcat(before + [v], Excluding(fallback, t), after);
      }
    }
  }

  // ----- What the patch adds, and where -----

  ghost predicate AllNamed(u: Union) {
    forall v :: v in u ==> v.eventType.names.Some? && !HasNot(v)
  }

  /** Named variants around one fallback. */
  ghost predicate Shape(before: Union, fallback: Variant, after: Union) {
    AllNamed(before) && HasNot(fallback) && fallback.eventType.names.None? && AllNamed(after)
  }

  /** Upstream variants that name an added type are plain named variants. */
  ghost predicate PlainFor(upstream: Option<Union>, t: string) {
    upstream.Some? ==> forall v :: v in upstream.value && HasType(v, t) ==> !HasNot(v)
  }

  /** The upstream variant a step copies, if it copies one. */
  function Picked(u: Union, upstream: Option<Union>, t: string): seq<Variant> {
    if Names(u, t) || upstream.None? || !Names(upstream.value, t) then [] else [FindType(upstream.value, t).value]
  }

  /** The upstream variants both steps copy, in order. */
  function PickedBoth(u: Union, upstream: Option<Union>, t1: string, t2: string): seq<Variant> {
    Picked(u, upstream, t1) + Picked(u + Picked(u, upstream, t1), upstream, t2)
  }

  /** The envelope of the first variant that names the sealed-authorization event. */
  function TemplateEnvelope(u: Union): string {
    if Names(u, SEALED) then FindType(u, SEALED).value.envelope else ""
  }

  /** Copies of the picked variants in one envelope. */
  function Copies(envelope: string, picked: seq<Variant>): (r: seq<Variant>)
    ensures |r| == |picked|
    ensures forall i :: 0 <= i < |r| ==> r[i] == Graft(envelope, picked[i])
  {
    seq(|picked|, i requires 0 <= i < |picked| => Graft(envelope, picked[i]))
  }

  lemma AddTypeShape(before: Union, fallback: Variant, after: Union, upstream: Option<Union>, t: string)
    requires Shape(before, fallback, after) && PlainFor(upstream, t)
    requires AddType(before + [fallback] + after, upstream, t).Some?
    ensures
      var u := before + [fallback] + after;
      var copies := Copies(TemplateEnvelope(u), Picked(u, upstream, t));
      && AddType(u, upstream, t).value == (before + copies) + [Excluding(fallback, t)] + after
      && Shape(before + copies, Excluding(fallback, t), after)
      && (Picked(u, upstream, t) != [] ==> Names(u, SEALED))
      && (!Names(u, t) ==> Picked(u, upstream, t) != [])
  {
    var u := before + [fallback] + after;
    AddTypeLayout(before, fallback, after, upstream, t);
    if Names(u, t) {
      assert before + Copies(TemplateEnvelope(u), []) == before;
    } else {
      var picked := FindType(upstream.value, t).value;
      assert Copies(TemplateEnvelope(u), [picked]) == [Graft(TemplateEnvelope(u), picked)];
    }
  }

  lemma NamesOfLayout(before: Union, fallback: Variant, after: Union, t: string)
    requires fallback.eventType.names.None?
    ensures FindType(before + [fallback] + after, t) == FindType(before + after, t)
  {
    FindConcat(before + [fallback], after, t);
    FindConcat(before, [fallback], t);
    FindConcat(before, after, t);
  }

  lemma {:induction false} CopiesNames(envelope: string, picked: seq<Variant>, t: string)
    ensures FindType(Copies(envelope, picked), t)
         == if Names(picked, t) then Some(Graft(envelope, FindType(picked, t).value)) else None
  {
    if picked != [] {
      CopiesNames(envelope, picked[1..], t);
      assert Copies(envelope, picked)[1..] == Copies(envelope, picked[1..]);
    }
  }

  /** What a union finds after a step: the old variant of that type, or the copied one. */
  lemma StepFinds(before: Union, fallback: Variant, after: Union, copies: seq<Variant>, t: string, s: string)
    requires HasNot(fallback) && fallback.eventType.names.None?
    ensures
      var u := before + [fallback] + after;
      var found := FindType((before + copies) + [Excluding(fallback, t)] + after, s);
      found == if Names(before, s) then FindType(u, s) else if Names(copies, s) then FindType(copies, s) else FindType(u, s)
  {
    NamesOfLayout(before + copies, Excluding(fallback, t), after, s);
    FindConcat(before + copies, after, s);
    FindConcat(before, copies, s);
    NamesOfLayout(before, fallback, after, s);
    FindConcat(before, after, s);
  }

  lemma StepNamesOne(before: Union, fallback: Variant, after: Union, envelope: string, picked: seq<Variant>, t: string, s: string)
    requires HasNot(fallback) && fallback.eventType.names.None?
    ensures
      var u := before + [fallback] + after;
      var m := (before + Copies(envelope, picked)) + [Excluding(fallback, t)] + after;
      && (Names(m, s) <==> Names(u, s) || Names(picked, s))
      && (Names(u, s) && FindType(m, s) != FindType(u, s) ==>
            FindType(m, s) == FindType(Copies(envelope, picked), s) && FindType(m, s).value.envelope == envelope)
  {
    StepFinds(before, fallback, after, Copies(envelope, picked), t, s);
    CopiesNames(envelope, picked, s);
    NamesOfLayout(before, fallback, after, s);
    FindConcat(before, after, s);
  }

  /** After a step, the names are the old ones and the copied ones, and the template envelope is the same. */
  lemma StepNames(before: Union, fallback: Variant, after: Union, picked: seq<Variant>, t: string, s: string)
    requires HasNot(fallback) && fallback.eventType.names.None?
    requires picked != [] ==> Names(before + [fallback] + after, SEALED)
    ensures
      var u := before + [fallback] + after;
      var m := (before + Copies(TemplateEnvelope(u), picked)) + [Excluding(fallback, t)] + after;
      && (Names(m, s) <==> Names(u, s) || Names(picked, s))
      && TemplateEnvelope(m) == TemplateEnvelope(u)
  {
    var u := before + [fallback] + after;
    var copies := Copies(TemplateEnvelope(u), picked);
    StepNamesOne(before, fallback, after, TemplateEnvelope(u), picked, t, s);
    StepNamesOne(before, fallback, after, TemplateEnvelope(u), picked, t, SEALED);
  }

  lemma CopiesConcat(envelope: string, p: seq<Variant>, q: seq<Variant>)
    ensures Copies(envelope, p + q) == Copies(envelope, p) + Copies(envelope, q)
  {}

  lemma FindThree(u: Union, p1: Union, p2: Union, t: string)
    ensures Names(u + (p1 + p2), t) <==> Names(u, t) || Names(p1, t) || Names(p2, t)
    ensures Names(u + p1, t) <==> Names(u, t) || Names(p1, t)
  {
    FindConcat(u, p1 + p2, t);
    FindConcat(p1, p2, t);
    FindConcat(u, p1, t);
  }

  lemma PickedBothNames(u: Union, upstream: Option<Union>, t1: string, t2: string)
    requires Names(u, t1) || Picked(u, upstream, t1) != []
    requires Names(u + Picked(u, upstream, t1), t2) || Picked(u + Picked(u, upstream, t1), upstream, t2) != []
    ensures Names(u + PickedBoth(u, upstream, t1, t2), t1) && Names(u + PickedBoth(u, upstream, t1, t2), t2)
  {
    var p1 := Picked(u, upstream, t1);
    var p2 := Picked(u + p1, upstream, t2);
    FindThree(u, p1, p2, t1);
    FindThree(u, p1, p2, t2);
  }

  /**
   * The frame: pre-existing variants keep their contents and order, the copies stand right before the
   * fallback, and the fallback only gains the missing types at the end of its `not.enum`.
   */
  lemma PatchFrame(before: Union, fallback: Variant, after: Union, upstream: Option<Union>, t1: string, t2: string)
    requires Shape(before, fallback, after) && PlainFor(upstream, t1) && PlainFor(upstream, t2)
    requires AddTypes(before + [fallback] + after, upstream, t1, t2).Some?
    ensures
      var u := before + [fallback] + after;
      var copies := Copies(TemplateEnvelope(u), PickedBoth(u, upstream, t1, t2));
      && AddTypes(u, upstream, t1, t2).value == (before + copies) + [Excluding(Excluding(fallback, t1), t2)] + after
      && Shape(before + copies, Excluding(Excluding(fallback, t1), t2), after)
      && Names(u + PickedBoth(u, upstream, t1, t2), t1)
      && Names(u + PickedBoth(u, upstream, t1, t2), t2)
  {
    var u := before + [fallback] + after;
    var e := TemplateEnvelope(u);
    var p1 := Picked(u, upstream, t1);
    var m := (before + Copies(e, p1)) + [Excluding(fallback, t1)] + after;
    AddTypeShape(before, fallback, after, upstream, t1);
    AddTypeShape(before + Copies(e, p1), Excluding(fallback, t1), after, upstream, t2);
    StepNames(before, fallback, after, p1, t1, t2);
    FindConcat(u, p1, t2);
    var p2 := Picked(m, upstream, t2);
    assert p2 == Picked(u + p1, upstream, t2);
    CopiesConcat(e, p1, p2);
    Regroup(before, Copies(e, p1), Copies(e, p2));
    PickedBothNames(u, upstream, t1, t2);
  }

  lemma Regroup(a: Union, b: Union, c: Union)
    ensures (a + b) + c == a + (b + c)
  {}

  // ----- Exclusivity -----

  /** The variant accepts an event of type `t`. */
  predicate Admits(v: Variant, t: string) {
    && (v.eventType.names.Some? ==> t in v.eventType.names.value)
    && (v.eventType.excluded.Some? ==> t !in v.eventType.excluded.value)
  }

  function Hits(u: Union, t: string): nat {
    if u == [] then 0 else (if Admits(u[0], t) then 1 else 0) + Hits(u[1..], t)
  }

  /** Every event type matches exactly one variant, as `oneOf` demands. */
  ghost predicate Exclusive(u: Union) {
    forall t :: Hits(u, t) == 1
  }

  lemma {:induction false} HitsConcat(a: Union, b: Union, t: string)
    ensures Hits(a + b, t) == Hits(a, t) + Hits(b, t)
  {
    if a == [] {
      assert a + b == b;
    } else {
      assert (a + b)[1..] == a[1..] + b;
      HitsConcat(a[1..], b, t);
    }
  }

  lemma {:induction false} HitsNamed(u: Union, t: string)
    requires AllNamed(u)
    ensures Hits(u, t) > 0 <==> Names(u, t)
  {
    if u != [] {
      assert u[0] in u;
      HitsNamed(u[1..], t);
    }
  }

  lemma {:induction false} HitsCopies(envelope: string, picked: seq<Variant>, t: string)
    ensures Hits(Copies(envelope, picked), t) == Hits(picked, t)
  {
    if picked != [] {
      HitsCopies(envelope, picked[1..], t);
      assert Copies(envelope, picked)[1..] == Copies(envelope, picked[1..]);
    }
  }

  lemma HitsLayout(before: Union, fallback: Variant, after: Union, t: string)
    ensures Hits(before + [fallback] + after, t) == Hits(before, t) + (if Admits(fallback, t) then 1 else 0) + Hits(after, t)
  {
    HitsConcat(before + [fallback], after, t);
    HitsConcat(before, [fallback], t);
  }

  /** A type is named at most once, and excluded by the fallback exactly when it is named. */
  ghost predicate Covered(named: Union, fallback: Variant, t: string)
    requires HasNot(fallback)
  {
    Hits(named, t) <= 1 && (t in fallback.eventType.excluded.value <==> Names(named, t))
  }

  /** For a shaped union, exclusivity is: no type named twice, and exactly the named types excluded. */
  lemma ExclusiveIff(before: Union, fallback: Variant, after: Union)
    requires Shape(before, fallback, after)
    ensures Exclusive(before + [fallback] + after) <==> forall t :: Covered(before + after, fallback, t)
  {
    var u := before + [fallback] + after;
    forall t ensures Hits(u, t) == 1 <==> Covered(before + after, fallback, t) {
      HitsLayout(before, fallback, after, t);
      HitsConcat(before, after, t);
      HitsNamed(before + after, t);
    }
    if Exclusive(u) {
      forall t ensures Covered(before + after, fallback, t) { assert Hits(u, t) == 1; }
    }
  }

  /**
   * What the copied upstream variants must be: their types are among the two added ones, not already
   * named by the base, and no type is in two of them.
   */
  ghost predicate Fits(u: Union, picked: seq<Variant>, t1: string, t2: string) {
    forall t :: FitsType(u, picked, t1, t2, t)
  }

  ghost predicate FitsType(u: Union, picked: seq<Variant>, t1: string, t2: string, t: string) {
    Names(picked, t) ==> (t == t1 || t == t2) && !Names(u, t) && Hits(picked, t) <= 1
  }

  /** The patch keeps an exclusive union exclusive exactly when the variants it copies fit. */
  lemma PatchKeepsExclusiveIff(before: Union, fallback: Variant, after: Union, upstream: Option<Union>, t1: string, t2: string)
    requires Shape(before, fallback, after) && PlainFor(upstream, t1) && PlainFor(upstream, t2)
    requires Exclusive(before + [fallback] + after)
    requires AddTypes(before + [fallback] + after, upstream, t1, t2).Some?
    ensures
      var u := before + [fallback] + after;
      Exclusive(AddTypes(u, upstream, t1, t2).value) <==> Fits(u, PickedBoth(u, upstream, t1, t2), t1, t2)
  {
    var u := before + [fallback] + after;
    var picked := PickedBoth(u, upstream, t1, t2);
    PatchFrame(before, fallback, after, upstream, t1, t2);
    PickedNamed(u, upstream, t1, t2);
    PatchedExclusiveIff(before, fallback, after, TemplateEnvelope(u), picked, t1, t2);
  }

  lemma PatchedExclusiveIff(before: Union, fallback: Variant, after: Union, envelope: string, picked: seq<Variant>, t1: string, t2: string)
    requires Shape(before, fallback, after) && AllNamed(picked)
    requires Exclusive(before + [fallback] + after)
    requires Names(before + [fallback] + after + picked, t1) && Names(before + [fallback] + after + picked, t2)
    ensures Exclusive((before + Copies(envelope, picked)) + [Excluding(Excluding(fallback, t1), t2)] + after)
       <==> Fits(before + [fallback] + after, picked, t1, t2)
  {
    var u := before + [fallback] + after;
    var r := (before + Copies(envelope, picked)) + [Excluding(Excluding(fallback, t1), t2)] + after;
    forall t ensures Hits(r, t) == 1 <==> FitsType(u, picked, t1, t2, t) {
      assert Hits(u, t) == 1;
      PatchedHits(before, fallback, after, envelope, picked, t1, t2, t);
    }
    if Exclusive(r) {
      forall t ensures FitsType(u, picked, t1, t2, t) { assert Hits(r, t) == 1; }
    }
  }

  lemma PickedNamed(u: Union, upstream: Option<Union>, t1: string, t2: string)
    requires PlainFor(upstream, t1) && PlainFor(upstream, t2)
    ensures AllNamed(PickedBoth(u, upstream, t1, t2))
  {}

  lemma PatchedHits(before: Union, fallback: Variant, after: Union, envelope: string, picked: seq<Variant>, t1: string, t2: string, t: string)
    requires Shape(before, fallback, after) && AllNamed(picked)
    requires Hits(before + [fallback] + after, t) == 1
    requires t == t1 || t == t2 ==> Names(before + [fallback] + after + picked, t)
    ensures
      var u := before + [fallback] + after;
      var r := (before + Copies(envelope, picked)) + [Excluding(Excluding(fallback, t1), t2)] + after;
      Hits(r, t) == 1 <==> FitsType(u, picked, t1, t2, t)
  {
    var u := before + [fallback] + after;
    HitsLayout(before, fallback, after, t);
    HitsLayout(before + Copies(envelope, picked), Excluding(Excluding(fallback, t1), t2), after, t);
    HitsConcat(before, Copies(envelope, picked), t);
    HitsCopies(envelope, picked, t);
    HitsNamed(before, t);
    HitsNamed(after, t);
    HitsNamed(picked, t);
    NamesOfLayout(before, fallback, after, t);
    FindConcat(before, after, t);
    FindConcat(u, picked, t);
  }

  /**
   * The copies fit when the upstream union is itself exclusive among named variants and the picked
   * variants name nothing but added types that the base does not name.
   */
  lemma ExclusiveUpstreamFits(u: Union, upstream: Union, t1: string, t2: string)
    requires PlainFor(Some(upstream), t1) && PlainFor(Some(upstream), t2)
    requires forall t :: Hits(upstream, t) <= 1
    requires forall t :: Names(PickedBoth(u, Some(upstream), t1, t2), t) ==> (t == t1 || t == t2) && !Names(u, t)
    ensures Fits(u, PickedBoth(u, Some(upstream), t1, t2), t1, t2)
  {
    var p1 := Picked(u, Some(upstream), t1);
    var p2 := Picked(u + p1, Some(upstream), t2);
    forall t ensures Hits(p1 + p2, t) <= 1 {
      if p1 == [] || p2 == [] {
        assert p1 + p2 == p1 || p1 + p2 == p2;
      } else {
        FindConcat(u, p1, t2);
        assert HasType(p2[0], t2) && !HasType(p1[0], t2);
        HitsConcat(p1, p2, t);
        TwoHits(upstream, p1[0], p2[0], t);
      }
    }
  }

  lemma {:induction false} TwoHits(u: Union, v: Variant, w: Variant, t: string)
    requires v in u && w in u && v != w
    ensures (if Admits(v, t) then 1 else 0) + (if Admits(w, t) then 1 else 0) <= Hits(u, t)
  {
    if v in u[1..] && w in u[1..] {
      TwoHits(u[1..], v, w, t);
    } else {
      OneHit(u[1..], if v in u[1..] then v else w, t);
    }
  }

  lemma {:induction false} OneHit(u: Union, v: Variant, t: string)
    requires v in u
    ensures (if Admits(v, t) then 1 else 0) <= Hits(u, t)
  {
    if v != u[0] { OneHit(u[1..], v, t); }
  }

  // ----- Where exclusivity and idempotence fail -----

  function Named(types: seq<string>): Variant {
    Variant("", EventType(Some(types), None), "")
  }

  function AllBut(types: seq<string>): Variant {
    Variant("", EventType(None, Some(types)), "")
  }

  lemma StepAdds(before: Union, excluded: seq<string>, v: Variant, upstream: Union, t: string)
    requires AllNamed(before) && Names(before, SEALED) && FindType(before, SEALED).value.envelope == ""
    requires !Names(before, t) && t !in excluded && v.envelope == ""
    requires Names(upstream, t) && FindType(upstream, t).value == v && !HasNot(v)
    ensures AddType(before + [AllBut(excluded)] + [], Some(upstream), t) == Some((before + [v]) + [AllBut(excluded + [t])] + [])
  {
    var fallback := AllBut(excluded);
    var u := before + [fallback] + [];
    FindsBefore(before, fallback, t);
    FindsBefore(before, fallback, SEALED);
    SpliceLast(before, fallback, v);
    ExcludeAt(before + [v], fallback, [], t);
    assert Graft("", v) == v;
    assert WithName(u, Some(upstream), t) == Some((before + [v]) + [fallback] + []);
  }

  lemma FindsBefore(before: Union, fallback: Variant, t: string)
    requires fallback.eventType.names.None?
    ensures FindType(before + [fallback] + [], t) == FindType(before, t)
  {
    NamesOfLayout(before, fallback, [], t);
    assert before + [] == before;
  }

  lemma SpliceLast(before: Union, fallback: Variant, v: Variant)
    requires NoNot(before) && HasNot(fallback)
    ensures Splice(before + [fallback] + [], v) == (before + [v]) + [fallback] + []
  {
    FirstNotConcat(before, fallback, []);
  }

  /** Upstream names the first type in two variants, and the second step copies the other one: that type then matches twice. */
  lemma OverlapBreaksExclusive(t1: string, t2: string)
    requires t1 != t2 && t1 != SEALED && t2 != SEALED
    ensures
      var u := [Named([SEALED])] + [AllBut([SEALED])] + [];
      var upstream := [Named([t1]), Named([t1, t2])];
      var r := [Named([SEALED])] + [Named([t1])] + [Named([t1, t2])] + [AllBut([SEALED] + [t1] + [t2])] + [];
      && Exclusive(u)
      && AddTypes(u, Some(upstream), t1, t2) == Some(r)
      && !Exclusive(r)
  {
    var sealed, a, b := Named([SEALED]), Named([t1]), Named([t1, t2]);
    var upstream := [a, b];
    assert upstream[1..] == [b];
    assert [sealed][1..] == [] && ([sealed] + [a])[1..] == [a] && [a][1..] == [];
    StepAdds([sealed], [SEALED], a, upstream, t1);
    StepAdds([sealed] + [a], [SEALED] + [t1], b, upstream, t2);
    forall t ensures Hits([sealed] + [AllBut([SEALED])] + [], t) == 1 {
      HitsLayout([sealed], AllBut([SEALED]), [], t);
      HitsOne(sealed, t);
    }
    HitsLayout([sealed] + [a] + [b], AllBut([SEALED] + [t1] + [t2]), [], t1);
    HitsConcat([sealed] + [a], [b], t1);
    HitsConcat([sealed], [a], t1);
    HitsOne(sealed, t1);
    HitsOne(a, t1);
    HitsOne(b, t1);
  }

  lemma HitsOne(v: Variant, t: string)
    ensures Hits([v], t) == if Admits(v, t) then 1 else 0
  {
    assert [v][1..] == [];
    assert Hits([], t) == 0;
  }

  /** The upstream variant of the second type carries a `not`: it becomes the fallback, and a second run extends it. */
  lemma NotBreaksIdempotence(t1: string, t2: string)
    requires t1 != t2 && t1 != SEALED && t2 != SEALED
    ensures
      var u := [Named([SEALED]), Named([t1])] + [AllBut([SEALED] + [t1])] + [];
      var v := Variant("", EventType(Some([t2]), Some([])), "");
      && AddTypes(u, Some([v]), t1, t2).Some? && Hides(u, Some([v]), t1, t2)
      && var r := AddTypes(u, Some([v]), t1, t2).value; AddTypes(r, Some([v]), t1, t2) != Some(r)
  {
    var before, fallback := [Named([SEALED]), Named([t1])], AllBut([SEALED] + [t1]);
    var u := before + [fallback] + [];
    var v := Variant("", EventType(Some([t2]), Some([])), "");
    assert before[1..] == [Named([t1])] && before[1..][1..] == [];
    NotHides(before, SEALED, v, t1, t2);
    PatchIdempotentIff(u, Some([v]), t1, t2);
  }

  lemma NotHides(before: Union, other: string, v: Variant, t1: string, t2: string)
    requires NoNot(before) && Names(before, t1) && Names(before, SEALED) && !Names(before, t2)
    requires HasType(v, t2) && HasNot(v) && t1 !in v.eventType.excluded.value
    ensures
      var u := before + [AllBut([other] + [t1])] + [];
      AddTypes(u, Some([v]), t1, t2).Some? && Hides(u, Some([v]), t1, t2)
  {
    var fallback := AllBut([other] + [t1]);
    FindsBefore(before, fallback, t2);
    FindsBefore(before, fallback, SEALED);
    FindsBefore(before, fallback, t1);
    AlreadyThere(before, other, t1, Some([v]));
    SpliceHasNot(before, fallback, Graft(FindType(before, SEALED).value.envelope, v));
  }

  lemma AlreadyThere(before: Union, other: string, t: string, upstream: Option<Union>)
    requires NoNot(before) && Names(before, t)
    ensures
      var u := before + [AllBut([other] + [t])] + [];
      AddType(u, upstream, t) == Some(u)
  {
    var fallback := AllBut([other] + [t]);
    FindsBefore(before, fallback, t);
    ExcludeAt(before, fallback, [], t);
    assert t in [other] + [t];
  }

  lemma SpliceHasNot(before: Union, fallback: Variant, v: Variant)
    requires NoNot(before) && HasNot(fallback) && HasNot(v)
    ensures FirstNot(Splice(before + [fallback] + [], v)) == |before|
  {
    SpliceLast(before, fallback, v);
    FirstNotConcat(before, v, [fallback]);
    assert (before + [v]) + [fallback] + [] == before + [v] + [fallback];
  }

  // ----- The whole document -----

  const ACCEPTED := "AGENT_RUN_TASK_INPUT_ACCEPTED"
  const ADMITTED := "AGENT_RUN_TASK_INPUT_ADMITTED"
  const EVENT_TYPES := [ACCEPTED, ADMITTED]
  const UNION_NAMES := ["RunEvent", "RunSnapshotEvent"]

  datatype Component = Opaque(json: string) | OneOf(variants: Union)

  type Schemas = map<string, Component>

  /** A payload is its `$ref`. */
  datatype Contract = Contract(payloads: map<string, string>, readPayloads: map<string, string>, schemas: Schemas)

  /** Assigning `undefined` leaves no key once the document is written as JSON. */
  function Assign<T>(m: map<string, T>, from: map<string, T>, key: string): map<string, T> {
    if key in from then m[key := from[key]] else m - {key}
  }

  function UnionOf(schemas: Schemas, name: string): Option<Union> {
    if name in schemas && schemas[name].OneOf? then Some(schemas[name].variants) else None
  }

  function AddToUnion(schemas: Schemas, upstream: Schemas, name: string, t: string): Option<Schemas> {
    var u := UnionOf(schemas, name);
    if u.None? then None
    else
      var r := AddType(u.value, UnionOf(upstream, name), t);
      if r.None? then None else Some(schemas[name := OneOf(r.value)])
  }

  function AddToUnions(schemas: Schemas, upstream: Schemas, names: seq<string>, t: string): Option<Schemas> {
    if names == [] then Some(schemas)
    else
      var before := AddToUnions(schemas, upstream, names[..|names| - 1], t);
      if before.None? then None else AddToUnion(before.value, upstream, names[|names| - 1], t)
  }

  function PayloadName(upstream: Contract, t: string): string
    requires t in upstream.payloads
  {
    LastSegment(upstream.payloads[t])
  }

  function CopyPayload(document: Contract, upstream: Contract, t: string): Contract
    requires t in upstream.payloads
  {
    var name := PayloadName(upstream, t);
    Contract(
      Assign(document.payloads, upstream.payloads, t),
      Assign(document.readPayloads, upstream.readPayloads, t),
      Assign(Assign(document.schemas, upstream.schemas, name), upstream.schemas, name + "Redacted"))
  }

  function AddEvent(document: Contract, upstream: Contract, t: string): Option<Contract> {
    if t !in upstream.payloads then None
    else
      var copied := CopyPayload(document, upstream, t);
      var schemas := AddToUnions(copied.schemas, upstream.schemas, UNION_NAMES, t);
      if schemas.None? then None else Some(copied.(schemas := schemas.value))
  }

  function AddEvents(document: Contract, upstream: Contract, ts: seq<string>): Option<Contract> {
    if ts == [] then Some(document)
    else
      var before := AddEvents(document, upstream, ts[..|ts| - 1]);
      if before.None? then None else AddEvent(before.value, upstream, ts[|ts| - 1])
  }

  /** The union edit of the code: test, splice, then push onto the fallback's exclusions. */
  method PatchUnion(u: Union, upstream: Option<Union>, t: string) returns (r: Option<Union>)
    ensures r == AddType(u, upstream, t)
  {
    var variants := u;
    if FindType(variants, t).None? {
      var template := FindType(variants, SEALED);
      if template.None? || upstream.None? { return None; }
      var source := FindType(upstream.value, t);
      if source.None? { return None; }
      var index := FirstNot(variants);
      if index == |variants| { index := |variants| - 1; }
      variants := variants[..index] + [Graft(template.value.envelope, source.value)] + variants[index..];
    }
    var fallback := FirstNot(variants);
    if fallback == |variants| { return None; }
    if t !in variants[fallback].eventType.excluded.value {
      var excluded := variants[fallback].eventType.excluded.value + [t];
      variants := variants[fallback := variants[fallback].(eventType := variants[fallback].eventType.(excluded := Some(excluded)))];
    } else {
      assert variants[fallback := variants[fallback]] == variants;
    }
    r := Some(variants);
  }

  method PatchUnions(schemas: Schemas, upstream: Schemas, names: seq<string>, t: string) returns (r: Option<Schemas>)
    ensures r == AddToUnions(schemas, upstream, names, t)
  {
    var patched := schemas;
    for j := 0 to |names|
      invariant AddToUnions(schemas, upstream, names[..j], t) == Some(patched)
    {
      var name := names[j];
      assert names[..j + 1][..j] == names[..j];
      UnionPrefixThrows(schemas, upstream, names, t, j + 1);
      var union := UnionOf(patched, name);
      if union.None? { return None; }
      var variants := PatchUnion(union.value, UnionOf(upstream, name), t);
      if variants.None? { return None; }
      patched := patched[name := OneOf(variants.value)];
    }
    assert names[..|names|] == names;
    r := Some(patched);
  }

  method PatchEvents(document: Contract, upstream: Contract, ts: seq<string>) returns (r: Option<Contract>)
    ensures r == AddEvents(document, upstream, ts)
  {
    var contract := document;
    for i := 0 to |ts|
      invariant AddEvents(document, upstream, ts[..i]) == Some(contract)
    {
      var t := ts[i];
      assert ts[..i + 1][..i] == ts[..i];
      PrefixThrows(document, upstream, ts, i + 1);
      if t !in upstream.payloads { return None; }
      contract := CopyPayload(contract, upstream, t);
      var schemas := PatchUnions(contract.schemas, upstream.schemas, UNION_NAMES, t);
      if schemas.None? { return None; }
      contract := contract.(schemas := schemas.value);
    }
    assert ts[..|ts|] == ts;
    r := Some(contract);
  }

  /** `openapi.target.json`. */
  class ContractFile {
    var document: Contract

    constructor (document: Contract)
      ensures this.document == document
    {
      this.document := document;
    }

    /** Rewrites the file with both events added, or throws and leaves it alone. */
    method Generate(upstream: Contract) returns (ok: bool)
      modifies this
      ensures ok == AddEvents(old(document), upstream, EVENT_TYPES).Some?
      ensures document == if ok then AddEvents(old(document), upstream, EVENT_TYPES).value else old(document)
    {
      var contract := PatchEvents(document, upstream, EVENT_TYPES);
      ok := contract.Some?;
      if ok { document := contract.value; }
    }
  }

  lemma {:induction false} PrefixThrows(document: Contract, upstream: Contract, ts: seq<string>, n: nat)
    requires n <= |ts|
    ensures AddEvents(document, upstream, ts[..n]).None? ==> AddEvents(document, upstream, ts).None?
  {
    if n == |ts| {
      assert ts[..n] == ts;
    } else {
      assert ts[..|ts| - 1][..n] == ts[..n];
      PrefixThrows(document, upstream, ts[..|ts| - 1], n);
    }
  }

  lemma {:induction false} UnionPrefixThrows(schemas: Schemas, upstream: Schemas, names: seq<string>, t: string, n: nat)
    requires n <= |names|
    ensures AddToUnions(schemas, upstream, names[..n], t).None? ==> AddToUnions(schemas, upstream, names, t).None?
  {
    if n == |names| {
      assert names[..n] == names;
    } else {
      assert names[..|names| - 1][..n] == names[..n];
      UnionPrefixThrows(schemas, upstream, names[..|names| - 1], t, n);
    }
  }

  // ----- Running the generator twice -----

  /** The payload schemas of an event are not the unions themselves. */
  ghost predicate Apart(upstream: Contract, t: string) {
    t in upstream.payloads ==>
      PayloadName(upstream, t) !in UNION_NAMES && PayloadName(upstream, t) + "Redacted" !in UNION_NAMES
  }

  predicate Agrees<T(==)>(m: map<string, T>, from: map<string, T>, key: string) {
    if key in from then key in m && m[key] == from[key] else key !in m
  }

  /** The document already holds the upstream payloads and payload schemas of an event. */
  predicate Carries(document: Contract, upstream: Contract, t: string)
    requires t in upstream.payloads
  {
    && Agrees(document.payloads, upstream.payloads, t)
    && Agrees(document.readPayloads, upstream.readPayloads, t)
    && Agrees(document.schemas, upstream.schemas, PayloadName(upstream, t))
    && Agrees(document.schemas, upstream.schemas, PayloadName(upstream, t) + "Redacted")
  }

  lemma AssignIsIdentity<T>(m: map<string, T>, from: map<string, T>, key: string)
    ensures Assign(m, from, key) == m <==> Agrees(m, from, key)
  {}

  lemma CopyIsIdentity(document: Contract, upstream: Contract, t: string)
    requires t in upstream.payloads
    ensures CopyPayload(document, upstream, t) == document <==> Carries(document, upstream, t)
  {
    var name := PayloadName(upstream, t);
    AssignIsIdentity(document.payloads, upstream.payloads, t);
    AssignIsIdentity(document.readPayloads, upstream.readPayloads, t);
    AssignIsIdentity(document.schemas, upstream.schemas, name);
    AssignIsIdentity(document.schemas, upstream.schemas, name + "Redacted");
    assert |name| < |name + "Redacted"|;
  }

  lemma CopyCarries(document: Contract, upstream: Contract, t: string, other: string)
    requires t in upstream.payloads && other in upstream.payloads
    ensures Carries(CopyPayload(document, upstream, t), upstream, t)
    ensures Carries(document, upstream, other) ==> Carries(CopyPayload(document, upstream, t), upstream, other)
  {}

  ghost predicate UnionStepped(before: Schemas, after: Schemas, upstream: Schemas, name: string, t: string) {
    && UnionOf(before, name).Some?
    && UnionOf(after, name).Some?
    && AddType(UnionOf(before, name).value, UnionOf(upstream, name), t) == UnionOf(after, name)
  }

  lemma AddToUnionsFrame(schemas: Schemas, upstream: Schemas, t: string)
    requires AddToUnions(schemas, upstream, UNION_NAMES, t).Some?
    ensures
      var r := AddToUnions(schemas, upstream, UNION_NAMES, t).value;
      && UnionStepped(schemas, r, upstream, "RunEvent", t)
      && UnionStepped(schemas, r, upstream, "RunSnapshotEvent", t)
      && forall n :: n !in UNION_NAMES ==> (n in r <==> n in schemas) && (n in r ==> r[n] == schemas[n])
  {
    UnrollUnions(schemas, upstream, t);
  }

  lemma AddToUnionsFixpoint(schemas: Schemas, upstream: Schemas, t: string)
    requires forall n :: n in UNION_NAMES ==> UnionOf(schemas, n).Some?
    requires forall n :: n in UNION_NAMES ==>
      AddType(UnionOf(schemas, n).value, UnionOf(upstream, n), t) == UnionOf(schemas, n)
    ensures AddToUnions(schemas, upstream, UNION_NAMES, t) == Some(schemas)
  {
    UnrollUnions(schemas, upstream, t);
    assert "RunEvent" in UNION_NAMES && "RunSnapshotEvent" in UNION_NAMES;
    assert schemas["RunEvent" := schemas["RunEvent"]] == schemas;
    assert schemas["RunSnapshotEvent" := schemas["RunSnapshotEvent"]] == schemas;
  }

  /** What one event does to a document. */
  lemma AddEventEffect(document: Contract, upstream: Contract, t: string)
    requires AddEvent(document, upstream, t).Some? && Apart(upstream, t)
    ensures
      var d := AddEvent(document, upstream, t).value;
      && UnionStepped(document.schemas, d.schemas, upstream.schemas, "RunEvent", t)
      && UnionStepped(document.schemas, d.schemas, upstream.schemas, "RunSnapshotEvent", t)
      && Carries(d, upstream, t)
      && forall other :: other in upstream.payloads && Apart(upstream, other) && Carries(document, upstream, other) ==>
           Carries(d, upstream, other)
  {
    var copied := CopyPayload(document, upstream, t);
    var d := AddEvent(document, upstream, t).value;
    AddToUnionsFrame(copied.schemas, upstream.schemas, t);
    CopyCarries(document, upstream, t, t);
    assert UnionOf(copied.schemas, "RunEvent") == UnionOf(document.schemas, "RunEvent");
    assert UnionOf(copied.schemas, "RunSnapshotEvent") == UnionOf(document.schemas, "RunSnapshotEvent");
    forall other | other in upstream.payloads && Apart(upstream, other) && Carries(document, upstream, other)
      ensures Carries(d, upstream, other)
    {
      CopyCarries(document, upstream, t, other);
    }
  }

  ghost predicate Hidden(document: Contract, upstream: Contract, name: string) {
    UnionOf(document.schemas, name).Some? &&
    var u, up := UnionOf(document.schemas, name).value, UnionOf(upstream.schemas, name);
    AddTypes(u, up, ACCEPTED, ADMITTED).Some? && Hides(u, up, ACCEPTED, ADMITTED)
  }

  lemma EventFixpoint(d: Contract, upstream: Contract, t: string)
    requires t in upstream.payloads && Apart(upstream, t) && Carries(d, upstream, t)
    requires UnionOf(d.schemas, "RunEvent").Some? && UnionOf(d.schemas, "RunSnapshotEvent").Some?
    ensures AddEvent(d, upstream, t) == Some(d) <==>
      && Settled(UnionOf(d.schemas, "RunEvent").value, t)
      && Settled(UnionOf(d.schemas, "RunSnapshotEvent").value, t)
  {
    CopyIsIdentity(d, upstream, t);
    AddTypeFixpoint(UnionOf(d.schemas, "RunEvent").value, UnionOf(upstream.schemas, "RunEvent"), t);
    AddTypeFixpoint(UnionOf(d.schemas, "RunSnapshotEvent").value, UnionOf(upstream.schemas, "RunSnapshotEvent"), t);
    if AddEvent(d, upstream, t) == Some(d) {
      AddEventEffect(d, upstream, t);
    } else if Settled(UnionOf(d.schemas, "RunEvent").value, t) && Settled(UnionOf(d.schemas, "RunSnapshotEvent").value, t) {
      AddToUnionsFixpoint(d.schemas, upstream.schemas, t);
    }
  }

  /**
   * A second run of the generator with the same upstream changes nothing, exactly unless in some union
   * the second event's upstream variant hides the first event's exclusion.
   */
  lemma GenerateTwiceIff(document: Contract, upstream: Contract)
    requires AddEvents(document, upstream, EVENT_TYPES).Some?
    requires Apart(upstream, ACCEPTED) && Apart(upstream, ADMITTED)
    ensures
      var d := AddEvents(document, upstream, EVENT_TYPES).value;
      AddEvents(d, upstream, EVENT_TYPES) == Some(d) <==>
        !Hidden(document, upstream, "RunEvent") && !Hidden(document, upstream, "RunSnapshotEvent")
  {
    UnrollEvents(document, upstream);
    var m := AddEvent(document, upstream, ACCEPTED).value;
    var d := AddEvent(m, upstream, ADMITTED).value;
    AddEventEffect(document, upstream, ACCEPTED);
    AddEventEffect(m, upstream, ADMITTED);
    forall n | n == "RunEvent" || n == "RunSnapshotEvent"
      ensures UnionOf(d.schemas, n).Some?
      ensures Settled(UnionOf(d.schemas, n).value, ACCEPTED) && Settled(UnionOf(d.schemas, n).value, ADMITTED)
         <==> !Hidden(document, upstream, n)
    {
      var u, up := UnionOf(document.schemas, n).value, UnionOf(upstream.schemas, n);
      PatchIdempotentIff(u, up, ACCEPTED, ADMITTED);
      AddTypesFixpoint(UnionOf(d.schemas, n).value, up, ACCEPTED, ADMITTED);
    }
    EventFixpoint(d, upstream, ACCEPTED);
    EventFixpoint(d, upstream, ADMITTED);
    UnrollEvents(d, upstream);
    if AddEvents(d, upstream, EVENT_TYPES) == Some(d) { SecondRunSettles(d, upstream); }
  }

  lemma SecondRunSettles(d: Contract, upstream: Contract)
    requires AddEvents(d, upstream, EVENT_TYPES) == Some(d)
    requires Apart(upstream, ACCEPTED) && Apart(upstream, ADMITTED)
    ensures forall n :: n == "RunEvent" || n == "RunSnapshotEvent" ==>
      && UnionOf(d.schemas, n).Some?
      && Settled(UnionOf(d.schemas, n).value, ACCEPTED)
      && Settled(UnionOf(d.schemas, n).value, ADMITTED)
  {
    UnrollEvents(d, upstream);
    AddEventEffect(d, upstream, ACCEPTED);
    AddEventEffect(AddEvent(d, upstream, ACCEPTED).value, upstream, ADMITTED);
    AddTypesFixpoint(UnionOf(d.schemas, "RunEvent").value, UnionOf(upstream.schemas, "RunEvent"), ACCEPTED, ADMITTED);
    AddTypesFixpoint(
      UnionOf(d.schemas, "RunSnapshotEvent").value, UnionOf(upstream.schemas, "RunSnapshotEvent"), ACCEPTED, ADMITTED);
  }

  lemma UnrollUnions(schemas: Schemas, upstream: Schemas, t: string)
    ensures AddToUnions(schemas, upstream, UNION_NAMES, t)
         == var one := AddToUnion(schemas, upstream, "RunEvent", t);
            if one.None? then None else AddToUnion(one.value, upstream, "RunSnapshotEvent", t)
  {
    assert UNION_NAMES[..|UNION_NAMES| - 1] == ["RunEvent"];
    assert ["RunEvent"][..0] == [];
    assert AddToUnions(schemas, upstream, [], t) == Some(schemas);
    assert AddToUnions(schemas, upstream, ["RunEvent"], t) == AddToUnion(schemas, upstream, "RunEvent", t);
  }

  lemma UnrollEvents(document: Contract, upstream: Contract)
    ensures AddEvents(document, upstream, EVENT_TYPES)
         == var one := AddEvent(document, upstream, ACCEPTED);
            if one.None? then None else AddEvent(one.value, upstream, ADMITTED)
  {
    assert EVENT_TYPES[..|EVENT_TYPES| - 1] == [ACCEPTED];
    assert [ACCEPTED][..0] == [];
    assert AddEvents(document, upstream, []) == Some(document);
    assert AddEvents(document, upstream, [ACCEPTED]) == AddEvent(document, upstream, ACCEPTED);
  }

  /** Document and upstream whose second run changes the document. */
  lemma NotBreaksGenerate()
    ensures
      var u := [Named([SEALED]), Named([ACCEPTED])] + [AllBut([SEALED] + [ACCEPTED])] + [];
      var v := Variant("", EventType(Some([ADMITTED]), Some([])), "");
      var document := Contract(map[], map[], BothUnions(u));
      var upstream := Contract(map[ACCEPTED := "p", ADMITTED := "p"], map[], BothUnions([v]));
      && AddEvents(document, upstream, EVENT_TYPES).Some?
      && var d := AddEvents(document, upstream, EVENT_TYPES).value; AddEvents(d, upstream, EVENT_TYPES) != Some(d)
  {
    TypesDiffer();
    NotBreaksIdempotence(ACCEPTED, ADMITTED);
    var u := [Named([SEALED]), Named([ACCEPTED])] + [AllBut([SEALED] + [ACCEPTED])] + [];
    var v := Variant("", EventType(Some([ADMITTED]), Some([])), "");
    WithUnions(u, [v]);
    var upstream := Contract(map[ACCEPTED := "p", ADMITTED := "p"], map[], BothUnions([v]));
    GenerateTwiceFails(Contract(map[], map[], BothUnions(u)), upstream, u, [v]);
  }

  lemma TypesDiffer()
    ensures ACCEPTED != ADMITTED && ACCEPTED != SEALED && ADMITTED != SEALED
  {
    assert |SEALED| == 30 && |ACCEPTED| == 29 && |ADMITTED| == 29;
    assert ACCEPTED[22] != ADMITTED[22];
  }

  function BothUnions(u: Union): Schemas {
    map["RunEvent" := OneOf(u), "RunSnapshotEvent" := OneOf(u)]
  }

  /** Both documents have one union under both names, and upstream has both events, apart from the unions. */
  ghost predicate Twins(document: Contract, upstream: Contract, u: Union, up: Union) {
    && UnionOf(document.schemas, "RunEvent") == Some(u) == UnionOf(document.schemas, "RunSnapshotEvent")
    && UnionOf(upstream.schemas, "RunEvent") == Some(up) == UnionOf(upstream.schemas, "RunSnapshotEvent")
    && ACCEPTED in upstream.payloads && ADMITTED in upstream.payloads
    && Apart(upstream, ACCEPTED) && Apart(upstream, ADMITTED)
  }

  lemma WithUnions(u: Union, up: Union)
    ensures Twins(Contract(map[], map[], BothUnions(u)), Contract(map[ACCEPTED := "p", ADMITTED := "p"], map[], BothUnions(up)), u, up)
  {
    LastSegmentWhole("p");
    assert |"p"| == 1 && |"p" + "Redacted"| == 9 && |"RunEvent"| == 8 && |"RunSnapshotEvent"| == 16;
  }

  lemma GenerateTwiceFails(document: Contract, upstream: Contract, u: Union, up: Union)
    requires Twins(document, upstream, u, up)
    requires AddTypes(u, Some(up), ACCEPTED, ADMITTED).Some? && Hides(u, Some(up), ACCEPTED, ADMITTED)
    ensures AddEvents(document, upstream, EVENT_TYPES).Some?
    ensures
      var d := AddEvents(document, upstream, EVENT_TYPES).value;
      AddEvents(d, upstream, EVENT_TYPES) != Some(d)
  {
    BothEvents(document, upstream, u, up);
    GenerateTwiceIff(document, upstream);
  }

  lemma BothEvents(document: Contract, upstream: Contract, u: Union, up: Union)
    requires Twins(document, upstream, u, up)
    requires AddTypes(u, Some(up), ACCEPTED, ADMITTED).Some?
    ensures AddEvents(document, upstream, EVENT_TYPES).Some?
  {
    var m := EventOnBoth(document, upstream, u, up, ACCEPTED);
    var d := EventOnBoth(m, upstream, AddType(u, Some(up), ACCEPTED).value, up, ADMITTED);
    UnrollEvents(document, upstream);
  }

  /** An event apart from the unions steps both. */
  lemma EventOnBoth(d: Contract, upstream: Contract, u: Union, up: Union, t: string) returns (r: Contract)
    requires t in upstream.payloads && Apart(upstream, t)
    requires UnionOf(upstream.schemas, "RunEvent") == Some(up) == UnionOf(upstream.schemas, "RunSnapshotEvent")
    requires UnionOf(d.schemas, "RunEvent") == Some(u) == UnionOf(d.schemas, "RunSnapshotEvent")
    requires AddType(u, Some(up), t).Some?
    ensures AddEvent(d, upstream, t) == Some(r)
    ensures UnionOf(r.schemas, "RunEvent") == AddType(u, Some(up), t) == UnionOf(r.schemas, "RunSnapshotEvent")
  {
    var copied := CopyPayload(d, upstream, t).schemas;
    CopyKeepsUnions(d, upstream, t);
    StepsOne(copied, upstream.schemas, "RunEvent", u, up, t);
    var one := AddToUnion(copied, upstream.schemas, "RunEvent", t).value;
    assert "RunEvent" != "RunSnapshotEvent";
    StepsOne(one, upstream.schemas, "RunSnapshotEvent", u, up, t);
    UnrollUnions(copied, upstream.schemas, t);
    r := AddEvent(d, upstream, t).value;
  }

  lemma CopyKeepsUnions(d: Contract, upstream: Contract, t: string)
    requires t in upstream.payloads && Apart(upstream, t)
    ensures
      var copied := CopyPayload(d, upstream, t).schemas;
      && UnionOf(copied, "RunEvent") == UnionOf(d.schemas, "RunEvent")
      && UnionOf(copied, "RunSnapshotEvent") == UnionOf(d.schemas, "RunSnapshotEvent")
  {
    assert "RunEvent" == UNION_NAMES[0] && "RunSnapshotEvent" == UNION_NAMES[1];
  }

  lemma StepsOne(schemas: Schemas, upstream: Schemas, name: string, u: Union, up: Union, t: string)
    requires UnionOf(schemas, name) == Some(u) && UnionOf(upstream, name) == Some(up)
    requires AddType(u, Some(up), t).Some?
    ensures AddToUnion(schemas, upstream, name, t) == Some(schemas[name := OneOf(AddType(u, Some(up), t).value)])
  {}

  // ----- Exclusivity of the whole document -----

  /** The union is exclusive named variants around one fallback, and upstream variants of both types are plain. */
  ghost predicate Patchable(document: Contract, upstream: Contract, name: string) {
    && UnionOf(document.schemas, name).Some?
    && PlainFor(UnionOf(upstream.schemas, name), ACCEPTED) && PlainFor(UnionOf(upstream.schemas, name), ADMITTED)
    && var u := UnionOf(document.schemas, name).value;
    && Exclusive(u)
    && exists i :: 0 <= i < |u| && Shape(u[..i], u[i], u[i + 1..])
  }

  /** The variants copied into the union name only the added types, which it does not name, none twice. */
  ghost predicate CopiesFit(document: Contract, upstream: Contract, name: string)
    requires UnionOf(document.schemas, name).Some?
  {
    var u := UnionOf(document.schemas, name).value;
    Fits(u, PickedBoth(u, UnionOf(upstream.schemas, name), ACCEPTED, ADMITTED), ACCEPTED, ADMITTED)
  }

  ghost predicate ExclusiveAt(document: Contract, name: string) {
    UnionOf(document.schemas, name).Some? && Exclusive(UnionOf(document.schemas, name).value)
  }

  lemma UnionKeepsExclusiveIff(document: Contract, upstream: Contract, name: string)
    requires Patchable(document, upstream, name)
    requires AddTypes(UnionOf(document.schemas, name).value, UnionOf(upstream.schemas, name), ACCEPTED, ADMITTED).Some?
    ensures
      var u := UnionOf(document.schemas, name).value;
      Exclusive(AddTypes(u, UnionOf(upstream.schemas, name), ACCEPTED, ADMITTED).value) <==> CopiesFit(document, upstream, name)
  {
    var u := UnionOf(document.schemas, name).value;
    var i :| 0 <= i < |u| && Shape(u[..i], u[i], u[i + 1..]);
    Around(u, i);
    PatchKeepsExclusiveIff(u[..i], u[i], u[i + 1..], UnionOf(upstream.schemas, name), ACCEPTED, ADMITTED);
  }

  /** Both unions of the document the generator writes are exclusive exactly when what it copies fits both. */
  lemma GenerateKeepsExclusiveIff(document: Contract, upstream: Contract)
    requires AddEvents(document, upstream, EVENT_TYPES).Some?
    requires Apart(upstream, ACCEPTED) && Apart(upstream, ADMITTED)
    requires Patchable(document, upstream, "RunEvent") && Patchable(document, upstream, "RunSnapshotEvent")
    ensures
      var d := AddEvents(document, upstream, EVENT_TYPES).value;
      ExclusiveAt(d, "RunEvent") && ExclusiveAt(d, "RunSnapshotEvent") <==>
        CopiesFit(document, upstream, "RunEvent") && CopiesFit(document, upstream, "RunSnapshotEvent")
  {
    UnrollEvents(document, upstream);
    var m := AddEvent(document, upstream, ACCEPTED).value;
    AddEventEffect(document, upstream, ACCEPTED);
    AddEventEffect(m, upstream, ADMITTED);
    UnionKeepsExclusiveIff(document, upstream, "RunEvent");
    UnionKeepsExclusiveIff(document, upstream, "RunSnapshotEvent");
  }

  // ----- What the patch leaves alone -----

  /** Entry `key` of both maps is the same, or absent in both. */
  ghost predicate SameEntry<T>(a: map<string, T>, b: map<string, T>, key: string) {
    (key in a <==> key in b) && (key in a ==> a[key] == b[key])
  }

  /** A payload schema of the event, plain or redacted. */
  predicate IsPayloadSchema(upstream: Contract, t: string, name: string) {
    t in upstream.payloads && (name == LastSegment(upstream.payloads[t]) || name == LastSegment(upstream.payloads[t]) + "Redacted")
  }

  lemma EventFrame(document: Contract, upstream: Contract, t: string)
    requires AddEvent(document, upstream, t).Some?
    ensures
      var d := AddEvent(document, upstream, t).value;
      && (forall e :: e != t ==> SameEntry(document.payloads, d.payloads, e))
      && (forall e :: e != t ==> SameEntry(document.readPayloads, d.readPayloads, e))
      && forall n :: n !in UNION_NAMES && !IsPayloadSchema(upstream, t, n) ==> SameEntry(document.schemas, d.schemas, n)
  {
    var copied := CopyPayload(document, upstream, t);
    CopyFrame(document, upstream, t);
    AddToUnionsFrame(copied.schemas, upstream.schemas, t);
  }

  lemma AssignFrame<T>(m: map<string, T>, from: map<string, T>, key: string, other: string)
    requires other != key
    ensures SameEntry(m, Assign(m, from, key), other)
  {}

  lemma CopyFrame(document: Contract, upstream: Contract, t: string)
    requires t in upstream.payloads
    ensures
      var d := CopyPayload(document, upstream, t);
      && (forall e :: e != t ==> SameEntry(document.payloads, d.payloads, e))
      && (forall e :: e != t ==> SameEntry(document.readPayloads, d.readPayloads, e))
      && forall n :: !IsPayloadSchema(upstream, t, n) ==> SameEntry(document.schemas, d.schemas, n)
  {
    var name := PayloadName(upstream, t);
    forall e: string | e != t
      ensures SameEntry(document.payloads, Assign(document.payloads, upstream.payloads, t), e)
      ensures SameEntry(document.readPayloads, Assign(document.readPayloads, upstream.readPayloads, t), e)
    {
      AssignFrame(document.payloads, upstream.payloads, t, e);
      AssignFrame(document.readPayloads, upstream.readPayloads, t, e);
    }
    forall n: string | n != name && n != name + "Redacted"
      ensures SameEntry(document.schemas, CopyPayload(document, upstream, t).schemas, n)
    {
      AssignFrame(document.schemas, upstream.schemas, name, n);
      AssignFrame(Assign(document.schemas, upstream.schemas, name), upstream.schemas, name + "Redacted", n);
    }
  }

  /** Outside the two events, their payload schemas and the two unions, the written document is the base document. */
  lemma GenerateFrame(document: Contract, upstream: Contract)
    requires AddEvents(document, upstream, EVENT_TYPES).Some?
    ensures
      var d := AddEvents(document, upstream, EVENT_TYPES).value;
      && (forall e :: e !in EVENT_TYPES ==> SameEntry(document.payloads, d.payloads, e))
      && (forall e :: e !in EVENT_TYPES ==> SameEntry(document.readPayloads, d.readPayloads, e))
      && forall n :: n !in UNION_NAMES && !IsPayloadSchema(upstream, ACCEPTED, n) && !IsPayloadSchema(upstream, ADMITTED, n) ==>
           SameEntry(document.schemas, d.schemas, n)
  {
    UnrollEvents(document, upstream);
    var m := AddEvent(document, upstream, ACCEPTED).value;
    var d := AddEvent(m, upstream, ADMITTED).value;
    EventFrame(document, upstream, ACCEPTED);
    EventFrame(m, upstream, ADMITTED);
    forall e | e !in EVENT_TYPES
      ensures SameEntry(document.payloads, d.payloads, e) && SameEntry(document.readPayloads, d.readPayloads, e)
    {
      assert e != EVENT_TYPES[0] && e != EVENT_TYPES[1];
    }
  }

  /** Both events stand in the written document with upstream's payloads and payload schemas. */
  lemma GenerateInstalls(document: Contract, upstream: Contract, t: string, prefix: string, name: string)
    requires AddEvents(document, upstream, EVENT_TYPES).Some? && t in EVENT_TYPES
    requires Apart(upstream, ACCEPTED) && Apart(upstream, ADMITTED)
    requires t in upstream.payloads && upstream.payloads[t] == prefix + "/" + name && '/' !in name
    ensures
      var d := AddEvents(document, upstream, EVENT_TYPES).value;
      && SameEntry(upstream.payloads, d.payloads, t) && SameEntry(upstream.readPayloads, d.readPayloads, t)
      && SameEntry(upstream.schemas, d.schemas, name) && SameEntry(upstream.schemas, d.schemas, name + "Redacted")
  {
    UnrollEvents(document, upstream);
    var m := AddEvent(document, upstream, ACCEPTED).value;
    AddEventEffect(document, upstream, ACCEPTED);
    AddEventEffect(m, upstream, ADMITTED);
    LastSegmentBehind(prefix, name);
    assert t == ACCEPTED || t == ADMITTED by { assert t == EVENT_TYPES[0] || t == EVENT_TYPES[1]; }
  }

  // ----- What a copied variant holds -----

  /** The base template's envelope with the upstream variant's discriminant and payload. */
  ghost predicate CopiedFrom(v: Variant, template: Variant, source: Variant) {
    v.envelope == template.envelope && v.eventType == source.eventType && v.payload == source.payload
  }

  /** The upstream variant that a step for an unnamed type copies. */
  function Source(upstream: Union, t: string): Variant
    requires Names(upstream, t)
  {
    FindType(upstream, t).value
  }

  lemma StepNeeds(u: Union, upstream: Union, t: string)
    requires !Names(u, t) && AddType(u, Some(upstream), t).Some?
    ensures Names(u, SEALED) && Names(upstream, t)
  {}

  /** A step for an unnamed type puts exactly one copy in, right before the fallback, which excludes the type. */
  lemma StepCopies(before: Union, fallback: Variant, after: Union, upstream: Union, t: string)
    requires NoNot(before) && HasNot(fallback)
    requires
      var u := before + [fallback] + after;
      && !Names(u, t) && Names(u, SEALED) && Names(upstream, t)
      && AddType(u, Some(upstream), t).Some? && !HasNot(Source(upstream, t))
    ensures
      var u := before + [fallback] + after;
      var r := AddType(u, Some(upstream), t).value;
      && |r| == |u| + 1 && r[..|before|] == before && r[|before| + 2..] == after
      && CopiedFrom(r[|before|], FindType(u, SEALED).value, Source(upstream, t))
      && KeptBut(r[|before| + 1], fallback, t)
  {
    AddTypeLayout(before, fallback, after, Some(upstream), t);
  }

  /** A copy that carries a `not` itself takes the type among its own exclusions, and the fallback stays as it is. */
  lemma StepCopiesNot(before: Union, fallback: Variant, after: Union, upstream: Union, t: string)
    requires NoNot(before) && HasNot(fallback)
    requires
      var u := before + [fallback] + after;
      && !Names(u, t) && Names(u, SEALED) && Names(upstream, t)
      && AddType(u, Some(upstream), t).Some? && HasNot(Source(upstream, t))
    ensures
      var u := before + [fallback] + after;
      var r := AddType(u, Some(upstream), t).value;
      && |r| == |u| + 1 && r[..|before|] == before && r[|before| + 1..] == [fallback] + after
      && r[|before|].envelope == FindType(u, SEALED).value.envelope && r[|before|].payload == Source(upstream, t).payload
      && r[|before|].eventType.names == Source(upstream, t).eventType.names
      && ExcludedToo(r[|before|], Source(upstream, t), t)
  {
    AddTypeLayout(before, fallback, after, Some(upstream), t);
  }

  /** The same variant, except that it excludes the type. */
  ghost predicate KeptBut(v: Variant, from: Variant, t: string)
    requires HasNot(from)
  {
    && v.envelope == from.envelope && v.payload == from.payload && v.eventType.names == from.eventType.names
    && ExcludedToo(v, from, t)
  }

  /** `v` excludes what `from` did, in order, and behind it `t` if that was missing. */
  ghost predicate ExcludedToo(v: Variant, from: Variant, t: string)
    requires HasNot(from)
  {
    var was := from.eventType.excluded.value;
    HasNot(v) && v.eventType.excluded.value == if t in was then was else was + [t]
  }

  /** A step for a type that is named already only touches the fallback's exclusions. */
  lemma StepExcludes(before: Union, fallback: Variant, after: Union, upstream: Option<Union>, t: string)
    requires NoNot(before) && HasNot(fallback)
    requires Names(before + [fallback] + after, t)
    ensures
      var r := AddType(before + [fallback] + after, upstream, t);
      && r.Some? && |r.value| == |before| + 1 + |after|
      && r.value[..|before|] == before && r.value[|before| + 1..] == after
      && KeptBut(r.value[|before|], fallback, t)
  {
    FirstNotConcat(before, fallback, after);
    AddTypeLayout(before, fallback, after, upstream, t);
  }
}
