/**
 * Making a remote-controlled string safe to log.
 *
 * Text is a sequence of UTF-16 code units, as the length cap and the patterns of the code count them.
 */
module LogSanitizer {

  newtype Unit = u: int | 0 <= u < 0x10000

  type Text = seq<Unit>

  const LF: Unit := 10
  const CR: Unit := 13
  const SPACE: Unit := 32

  predicate IsBreak(u: Unit) {
    u == LF || u == CR
  }

  /** `[\u0000-\u001F\u007F-\u009F\u2028\u2029]`. */
  predicate IsControl(u: Unit) {
    u <= 0x1F || 0x7F <= u <= 0x9F || u == 0x2028 || u == 0x2029
  }

  /** `\s`, which is also what `trim` removes. */
  predicate IsSpace(u: Unit) {
    9 <= u <= 13 || u == SPACE || u == 0xA0 || u == 0x1680 || 0x2000 <= u <= 0x200A
    || u == 0x2028 || u == 0x2029 || u == 0x202F || u == 0x205F || u == 0x3000 || u == 0xFEFF
  }

  /** Neither blank nor control: what a reader sees. */
  predicate IsVisible(u: Unit) {
    !IsControl(u) && !IsSpace(u)
  }

  // ----- The passes -----

  /** `.replace(/[\r\n]/g, " ")`. */
  function BreaksToSpaces(s: Text): (r: Text)
    ensures |r| == |s|
    ensures forall i :: 0 <= i < |s| ==> r[i] == if IsBreak(s[i]) then SPACE else s[i]
  {
    seq(|s|, i requires 0 <= i < |s| => if IsBreak(s[i]) then SPACE else s[i])
  }

  /** `.replace(/[\r\n]/g, "")`. */
  function DropBreaks(s: Text): Text {
    if s == [] then [] else (if IsBreak(s[0]) then [] else [s[0]]) + DropBreaks(s[1..])
  }

  /** The length of the run of units in a class at the start. */
  function Run(s: Text, p: Unit -> bool): (n: nat)
    ensures n <= |s|
    ensures forall i :: 0 <= i < n ==> p(s[i])
    ensures n < |s| ==> !p(s[n])
  {
    if s == [] || !p(s[0]) then 0 else 1 + Run(s[1..], p)
  }

  /** `.replace(/[class]{min,}/g, " ")`: every maximal run of at least `min` becomes one space. */
  function CollapseRuns(s: Text, p: Unit -> bool, min: nat): Text
    requires min > 0
    decreases |s|
  {
    if s == [] then []
    else
      var n := Run(s, p);
      if n == 0 then [s[0]] + CollapseRuns(s[1..], p, min)
      else (if n >= min then [SPACE] else s[..n]) + CollapseRuns(s[n..], p, min)
  }

  function TrimStart(s: Text): Text {
    if s != [] && IsSpace(s[0]) then TrimStart(s[1..]) else s
  }

  function TrimEnd(s: Text): (r: Text)
    ensures |r| <= |s| && r == s[..|r|]
    ensures r != [] ==> !IsSpace(r[|r| - 1])
  {
    if s != [] && IsSpace(s[|s| - 1]) then
      var r := TrimEnd(s[..|s| - 1]);
      assert s[..|s| - 1][..|r|] == s[..|r|];
      r
    else
      assert s[..|s|] == s;
      s
  }

  function Slice(s: Text, n: nat): Text {
    if |s| <= n then s else s[..n]
  }

  const CAP := 500

  /** Everything but the cap. */
  function Tidy(s: Text): Text {
    var controlled := CollapseRuns(DropBreaks(BreaksToSpaces(s)), u => IsControl(u), 1);
    TrimEnd(TrimStart(CollapseRuns(controlled, u => IsSpace(u), 2)))
  }

  function SanitizeLogValue(s: Text): Text {
    Slice(Tidy(s), CAP)
  }

  // ----- What a reader sees -----

  /** A visible unit, and whether the unit right before it was visible too. */
  datatype Mark = Mark(unit: Unit, attached: bool)

  function Marks(s: Text, attached: bool): seq<Mark> {
    if s == [] then []
    else if IsVisible(s[0]) then [Mark(s[0], attached)] + Marks(s[1..], true)
    else Marks(s[1..], false)
  }

  lemma {:induction false} MarksConcat(a: Text, b: Text, attached: bool)
    ensures Marks(a + b, attached) == Marks(a, attached) + Marks(b, if a == [] then attached else IsVisible(a[|a| - 1]))
  {
    if a == [] {
      assert a + b == b;
    } else {
      assert (a + b)[1..] == a[1..] + b;
      MarksConcat(a[1..], b, IsVisible(a[0]));
    }
  }

  lemma {:induction false} MarksHidden(s: Text, attached: bool)
    requires forall i :: 0 <= i < |s| ==> !IsVisible(s[i])
    ensures Marks(s, attached) == []
  {
    if s != [] { MarksHidden(s[1..], false); }
  }

  /** After a break or blank it does not matter what came before. */
  lemma HiddenRun(run: Text, rest: Text, attached: bool)
    requires run != [] && forall i :: 0 <= i < |run| ==> !IsVisible(run[i])
    ensures Marks(run + rest, attached) == Marks(rest, false)
  {
    MarksConcat(run, rest, attached);
    MarksHidden(run, attached);
  }

  lemma {:induction false} BreaksMarks(s: Text, attached: bool)
    ensures Marks(DropBreaks(BreaksToSpaces(s)), attached) == Marks(s, attached)
    ensures DropBreaks(BreaksToSpaces(s)) == BreaksToSpaces(s)
  {
    if s != [] {
      assert BreaksToSpaces(s)[1..] == BreaksToSpaces(s[1..]);
      BreaksMarks(s[1..], IsVisible(s[0]));
    }
  }

  lemma {:induction false} CollapseMarks(s: Text, p: Unit -> bool, min: nat, attached: bool)
    requires min > 0 && forall u :: p(u) ==> !IsVisible(u)
    ensures Marks(CollapseRuns(s, p, min), attached) == Marks(s, attached)
    decreases |s|
  {
    if s != [] {
      var n := Run(s, p);
      if n == 0 {
        CollapseMarks(s[1..], p, min, IsVisible(s[0]));
      } else {
        var kept, rest := if n >= min then [SPACE] else s[..n], CollapseRuns(s[n..], p, min);
        CollapseMarks(s[n..], p, min, false);
        HiddenRun(kept, rest, attached);
        HiddenRun(s[..n], s[n..], attached);
        assert s == s[..n] + s[n..];
      }
    }
  }

  lemma {:induction false} TrimStartMarks(s: Text)
    ensures Marks(TrimStart(s), false) == Marks(s, false)
  {
    if s != [] && IsSpace(s[0]) { TrimStartMarks(s[1..]); }
  }

  lemma {:induction false} TrimEndMarks(s: Text, attached: bool)
    ensures Marks(TrimEnd(s), attached) == Marks(s, attached)
  {
    if s != [] && IsSpace(s[|s| - 1]) {
      TrimEndMarks(s[..|s| - 1], attached);
      MarksConcat(s[..|s| - 1], [s[|s| - 1]], attached);
      assert s == s[..|s| - 1] + [s[|s| - 1]];
    }
  }

  /** Tidying keeps every visible unit, and which of them touch. */
  lemma TidyMarks(s: Text)
    ensures Marks(Tidy(s), false) == Marks(s, false)
  {
    var b := DropBreaks(BreaksToSpaces(s));
    var c := CollapseRuns(b, u => IsControl(u), 1);
    var d := CollapseRuns(c, u => IsSpace(u), 2);
    BreaksMarks(s, false);
    CollapseMarks(b, u => IsControl(u), 1, false);
    CollapseMarks(c, u => IsSpace(u), 2, false);
    TrimStartMarks(d);
    TrimEndMarks(TrimStart(d), false);
  }

  lemma SliceMarks(s: Text, n: nat)
    ensures Marks(Slice(s, n), false) <= Marks(s, false)
  {
    if n < |s| {
      MarksConcat(s[..n], s[n..], false);
      assert s == s[..n] + s[n..];
    }
  }

  // ----- The normal form -----

  ghost predicate NoControl(s: Text) {
    forall i :: 0 <= i < |s| ==> !IsControl(s[i])
  }

  /** No two adjacent blanks. */
  ghost predicate NoDoubleSpace(s: Text) {
    forall i :: 0 <= i < |s| - 1 ==> !IsSpace(s[i]) || !IsSpace(s[i + 1])
  }

  lemma {:induction false} CollapseControl(s: Text)
    ensures NoControl(CollapseRuns(s, u => IsControl(u), 1))
    decreases |s|
  {
    if s != [] {
      var n := Run(s, u => IsControl(u));
      CollapseControl(if n == 0 then s[1..] else s[n..]);
    }
  }

  lemma {:induction false} CollapseSpace(s: Text)
    requires NoControl(s)
    ensures NoControl(CollapseRuns(s, u => IsSpace(u), 2)) && NoDoubleSpace(CollapseRuns(s, u => IsSpace(u), 2))
    ensures s != [] ==> CollapseRuns(s, u => IsSpace(u), 2) != []
    ensures s != [] && !IsSpace(s[0]) ==> !IsSpace(CollapseRuns(s, u => IsSpace(u), 2)[0])
    decreases |s|
  {
    if s != [] {
      var n := Run(s, u => IsSpace(u));
      var rest := if n == 0 then s[1..] else s[n..];
      CollapseSpace(rest);
      if n == 0 {
        ConsNormal(s[0], CollapseRuns(rest, u => IsSpace(u), 2));
      } else {
        RunNormal(s[..n], CollapseRuns(rest, u => IsSpace(u), 2));
      }
    }
  }

  lemma ConsNormal(c: Unit, r: Text)
    requires !IsControl(c) && !IsSpace(c) && NoControl(r) && NoDoubleSpace(r)
    ensures NoControl([c] + r) && NoDoubleSpace([c] + r)
  {}

  lemma RunNormal(run: Text, r: Text)
    requires run != [] && NoControl(run) && NoControl(r) && NoDoubleSpace(r) && (r != [] ==> !IsSpace(r[0]))
    ensures
      var kept := if |run| >= 2 then [SPACE] else run;
      NoControl(kept + r) && NoDoubleSpace(kept + r)
  {}

  lemma {:induction false} TrimStartSuffix(s: Text) returns (n: nat)
    ensures n <= |s| && TrimStart(s) == s[n..]
    ensures TrimStart(s) != [] ==> !IsSpace(TrimStart(s)[0])
  {
    if s != [] && IsSpace(s[0]) {
      n := TrimStartSuffix(s[1..]);
      n := n + 1;
    } else {
      n := 0;
    }
  }

  lemma TrimNormal(d: Text)
    requires NoControl(d) && NoDoubleSpace(d)
    ensures
      var r := TrimEnd(TrimStart(d));
      && NoControl(r) && NoDoubleSpace(r)
      && (r != [] ==> !IsSpace(r[0]) && !IsSpace(r[|r| - 1]))
  {
    var n := TrimStartSuffix(d);
    var e := TrimStart(d);
    var r := TrimEnd(e);
    assert forall i :: 0 <= i < |r| ==> r[i] == e[i] == d[i + n];
  }

  lemma TidyNormal(s: Text)
    ensures NoControl(Tidy(s)) && NoDoubleSpace(Tidy(s))
    ensures Tidy(s) != [] ==> !IsSpace(Tidy(s)[0]) && !IsSpace(Tidy(s)[|Tidy(s)| - 1])
  {
    var b := DropBreaks(BreaksToSpaces(s));
    var c := CollapseRuns(b, u => IsControl(u), 1);
    CollapseControl(b);
    CollapseSpace(c);
    TrimNormal(CollapseRuns(c, u => IsSpace(u), 2));
  }

  /**
   * The result is at most 500 units, holds no control character, line separator or double blank, and shows a
   * prefix of what the input shows: the same visible units, touching exactly where they touched.
   */
  lemma SanitizedIsExact(s: Text)
    ensures
      var r := SanitizeLogValue(s);
      && |r| <= CAP
      && NoControl(r) && NoDoubleSpace(r)
      && Marks(r, false) <= Marks(s, false)
      && (|Tidy(s)| <= CAP ==> Marks(r, false) == Marks(s, false))
      && (r != [] ==> !IsSpace(r[0]))
  {
    TidyNormal(s);
    TidyMarks(s);
    SliceMarks(Tidy(s), CAP);
  }

  // ----- A second pass -----

  lemma {:induction false} NoRuns(s: Text, p: Unit -> bool)
    requires forall i :: 0 <= i < |s| ==> !p(s[i])
    ensures CollapseRuns(s, p, 1) == s
  {
    if s != [] { NoRuns(s[1..], p); }
  }

  lemma {:induction false} NoPairs(s: Text, p: Unit -> bool)
    requires forall i :: 0 <= i < |s| - 1 ==> !p(s[i]) || !p(s[i + 1])
    ensures CollapseRuns(s, p, 2) == s
    decreases |s|
  {
    if s != [] {
      var n := Run(s, p);
      assert n < 2 by { assert |s| > 1 ==> !p(s[0]) || !p(s[1]); }
      assert s == [s[0]] + s[1..] && s[..1] == [s[0]];
      NoPairs(s[1..], p);
    }
  }

  lemma {:induction false} BreaksIdentity(s: Text)
    requires NoControl(s)
    ensures DropBreaks(BreaksToSpaces(s)) == s
  {
    BreaksMarks(s, false);
    assert BreaksToSpaces(s) == s;
  }

  /** Sanitising again only trims the blank the cap may have left at the end. */
  lemma SanitizeTwice(s: Text)
    ensures SanitizeLogValue(SanitizeLogValue(s)) == TrimEnd(SanitizeLogValue(s))
  {
    var r := SanitizeLogValue(s);
    SanitizedIsExact(s);
    BreaksIdentity(r);
    NoRuns(r, u => IsControl(u));
    NoPairs(r, u => IsSpace(u));
    assert TrimStart(r) == r;
  }

  /** Once sanitised twice, nothing changes any more. */
  lemma SanitizeThrice(s: Text)
    ensures SanitizeLogValue(SanitizeLogValue(SanitizeLogValue(s))) == SanitizeLogValue(SanitizeLogValue(s))
  {
    SanitizeTwice(s);
    SanitizeTwice(SanitizeLogValue(s));
    var r := SanitizeLogValue(s);
    TrimEndTwice(r);
  }

  lemma TrimEndTwice(s: Text)
    ensures TrimEnd(TrimEnd(s)) == TrimEnd(s)
  {}

  // ----- Unit by unit -----

  /** How many units at the start are blank or control. */
  function GapLength(s: Text): (n: nat)
    ensures n <= |s| && (forall i :: 0 <= i < n ==> !IsVisible(s[i])) && (n < |s| ==> IsVisible(s[n]))
  {
    if s == [] || IsVisible(s[0]) then 0 else 1 + GapLength(s[1..])
  }

  /** What a gap becomes: a single blank stays, anything else is one space. */
  function Separator(gap: Text): Unit {
    if |gap| == 1 && !IsControl(gap[0]) then gap[0] else SPACE
  }

  /** Every gap replaced by its separator. */
  function Gapped(s: Text): Text
    decreases |s|
  {
    if s == [] then []
    else if IsVisible(s[0]) then [s[0]] + Gapped(s[1..])
    else [Separator(s[..GapLength(s)])] + Gapped(s[GapLength(s)..])
  }

  /** The same without the gap at the end. */
  function Between(s: Text): Text
    decreases |s|
  {
    if s == [] then []
    else if IsVisible(s[0]) then [s[0]] + Between(s[1..])
    else if GapLength(s) == |s| then []
    else [Separator(s[..GapLength(s)])] + Between(s[GapLength(s)..])
  }

  /** The visible units with one separator for each gap between them. */
  function Clean(s: Text): Text {
    Between(s[GapLength(s)..])
  }

  function Controls(s: Text): Text {
    CollapseRuns(s, u => IsControl(u), 1)
  }

  function Blanks(s: Text): Text {
    CollapseRuns(s, u => IsSpace(u), 2)
  }

  lemma {:induction false} RunConcat(a: Text, b: Text, p: Unit -> bool)
    requires b == [] || !p(b[0])
    ensures Run(a + b, p) == Run(a, p)
  {
    if a == [] {
      assert a + b == b;
    } else {
      assert (a + b)[1..] == a[1..] + b;
      RunConcat(a[1..], b, p);
    }
  }

  lemma CollapseCons(c: Unit, rest: Text, p: Unit -> bool, min: nat)
    requires min > 0 && !p(c)
    ensures CollapseRuns([c] + rest, p, min) == [c] + CollapseRuns(rest, p, min)
  {
    assert ([c] + rest)[1..] == rest;
  }

  function Collapsed(run: Text, min: nat): Text {
    if |run| >= min then [SPACE] else run
  }

  lemma CollapseThen(run: Text, rest: Text, p: Unit -> bool, min: nat)
    requires min > 0 && run != [] && (forall i :: 0 <= i < |run| ==> p(run[i])) && (rest == [] || !p(rest[0]))
    ensures CollapseRuns(run + rest, p, min) == Collapsed(run, min) + CollapseRuns(rest, p, min)
  {
    RunConcat(run, rest, p);
    FullRun(run, p);
    assert (run + rest)[..|run|] == run && (run + rest)[|run|..] == rest;
  }

  lemma {:induction false} CollapseConcat(a: Text, b: Text, p: Unit -> bool, min: nat)
    requires min > 0 && (b == [] || !p(b[0]))
    ensures CollapseRuns(a + b, p, min) == CollapseRuns(a, p, min) + CollapseRuns(b, p, min)
    decreases |a|
  {
    if a == [] {
      CollapseNothing(b, p, min);
    } else {
      var n := Run(a, p);
      if n == 0 {
        CollapseConcat(a[1..], b, p, min);
        ConsConcat(a[0], a[1..], b, p, min);
        assert a == [a[0]] + a[1..];
      } else {
        CollapseConcat(a[n..], b, p, min);
        RunThenConcat(a[..n], a[n..], b, p, min);
        assert a == a[..n] + a[n..];
      }
    }
  }

  lemma CollapseNothing(b: Text, p: Unit -> bool, min: nat)
    requires min > 0
    ensures CollapseRuns([] + b, p, min) == CollapseRuns([], p, min) + CollapseRuns(b, p, min)
  {
    assert [] + b == b;
    assert CollapseRuns([], p, min) == [] && [] + CollapseRuns(b, p, min) == CollapseRuns(b, p, min);
  }

  lemma ConsConcat(c: Unit, rest: Text, b: Text, p: Unit -> bool, min: nat)
    requires min > 0 && !p(c)
    requires CollapseRuns(rest + b, p, min) == CollapseRuns(rest, p, min) + CollapseRuns(b, p, min)
    ensures CollapseRuns(([c] + rest) + b, p, min) == CollapseRuns([c] + rest, p, min) + CollapseRuns(b, p, min)
  {
    Associate([c], rest, b);
    CollapseCons(c, rest, p, min);
    CollapseCons(c, rest + b, p, min);
    Associate([c], CollapseRuns(rest, p, min), CollapseRuns(b, p, min));
  }

  lemma RunThenConcat(run: Text, rest: Text, b: Text, p: Unit -> bool, min: nat)
    requires min > 0 && run != [] && (forall i :: 0 <= i < |run| ==> p(run[i]))
    requires (rest == [] || !p(rest[0])) && (b == [] || !p(b[0]))
    requires CollapseRuns(rest + b, p, min) == CollapseRuns(rest, p, min) + CollapseRuns(b, p, min)
    ensures CollapseRuns((run + rest) + b, p, min) == CollapseRuns(run + rest, p, min) + CollapseRuns(b, p, min)
  {
    Associate(run, rest, b);
    StartsOutside(rest, b, p);
    CollapseThen(run, rest, p, min);
    CollapseThen(run, rest + b, p, min);
    Associate(Collapsed(run, min), CollapseRuns(rest, p, min), CollapseRuns(b, p, min));
  }

  lemma StartsOutside(a: Text, b: Text, p: Unit -> bool)
    requires (a == [] || !p(a[0])) && (b == [] || !p(b[0]))
    ensures a + b == [] || !p((a + b)[0])
  {}

  lemma Associate(a: Text, b: Text, c: Text)
    ensures (a + b) + c == a + (b + c)
  {}

  lemma {:induction false} FullRun(s: Text, p: Unit -> bool)
    requires forall i :: 0 <= i < |s| ==> p(s[i])
    ensures Run(s, p) == |s|
  {
    if s != [] { FullRun(s[1..], p); }
  }

  /** A collapsed gap is all blanks: one, the separator, or several in place of which a space will stand. */
  lemma {:induction false} ControlsOfGap(gap: Text)
    requires gap != [] && forall i :: 0 <= i < |gap| ==> !IsVisible(gap[i])
    ensures Controls(gap) != [] && |Controls(gap)| <= |gap|
    ensures forall i :: 0 <= i < |Controls(gap)| ==> IsSpace(Controls(gap)[i])
    ensures |Controls(gap)| == 1 ==> Controls(gap)[0] == Separator(gap)
    decreases |gap|
  {
    assert Controls([]) == [];
    var n := Run(gap, u => IsControl(u));
    var rest := if n == 0 then gap[1..] else gap[n..];
    if rest != [] {
      ControlsOfGap(rest);
    } else if n == 0 {
      assert gap == [gap[0]];
    }
  }

  lemma BlanksOfGap(gap: Text)
    requires gap != [] && forall i :: 0 <= i < |gap| ==> IsSpace(gap[i])
    ensures Blanks(gap) == [if |gap| == 1 then gap[0] else SPACE]
  {
    FullRun(gap, u => IsSpace(u));
    assert Blanks([]) == [];
    assert gap[..|gap|] == gap && gap[|gap|..] == [];
    assert |gap| == 1 ==> gap == [gap[0]];
  }

  lemma VisibleFirst(s: Text)
    requires s == [] || IsVisible(s[0])
    ensures s != [] ==> Controls(s) == [s[0]] + Controls(s[1..]) && Blanks(s) == [s[0]] + Blanks(s[1..])
    ensures s == [] ==> Controls(s) == [] && Blanks(s) == []
  {}

  lemma GapFirst(gap: Text, rest: Text)
    requires gap != [] && (forall i :: 0 <= i < |gap| ==> !IsVisible(gap[i])) && (rest == [] || IsVisible(rest[0]))
    ensures Blanks(Controls(gap + rest)) == [Separator(gap)] + Blanks(Controls(rest))
  {
    CollapseConcat(gap, rest, u => IsControl(u), 1);
    ControlsOfGap(gap);
    VisibleFirst(rest);
    CollapseConcat(Controls(gap), Controls(rest), u => IsSpace(u), 2);
    BlanksOfGap(Controls(gap));
  }

  lemma {:induction false} TwoPassesGap(s: Text)
    ensures Blanks(Controls(s)) == Gapped(s)
    decreases |s|
  {
    VisibleFirst([]);
    if s != [] {
      if IsVisible(s[0]) {
        TwoPassesGap(s[1..]);
        VisibleFirst(s);
        VisibleFirst(Controls(s));
      } else {
        var n := GapLength(s);
        TwoPassesGap(s[n..]);
        GapFirst(s[..n], s[n..]);
        assert s == s[..n] + s[n..];
      }
    }
  }

  lemma {:induction false} BreaksKeepGaps(s: Text)
    ensures GapLength(BreaksToSpaces(s)) == GapLength(s)
  {
    if s != [] {
      assert BreaksToSpaces(s)[1..] == BreaksToSpaces(s[1..]);
      BreaksKeepGaps(s[1..]);
    }
  }

  lemma {:induction false} BreaksGapped(s: Text)
    ensures Gapped(BreaksToSpaces(s)) == Gapped(s)
    decreases |s|
  {
    var b := BreaksToSpaces(s);
    if s != [] {
      var n := GapLength(s);
      if IsVisible(s[0]) {
        assert b[1..] == BreaksToSpaces(s[1..]) && b[0] == s[0];
        BreaksGapped(s[1..]);
      } else {
        BreaksKeepGaps(s);
        assert b[n..] == BreaksToSpaces(s[n..]);
        assert Separator(b[..n]) == Separator(s[..n]);
        BreaksGapped(s[n..]);
      }
    }
  }

  lemma {:induction false} TrimEndBehind(a: Text, b: Text)
    requires TrimEnd(b) != []
    ensures TrimEnd(a + b) == a + TrimEnd(b)
  {
    if IsSpace(b[|b| - 1]) {
      assert (a + b)[..|a + b| - 1] == a + b[..|b| - 1];
      TrimEndBehind(a, b[..|b| - 1]);
    }
  }

  lemma SeparatorBlank(gap: Text)
    requires gap != [] && forall i :: 0 <= i < |gap| ==> !IsVisible(gap[i])
    ensures IsSpace(Separator(gap))
  {}

  /** Trimming cuts exactly the separator of the gap at the end. */
  lemma {:induction false} TrimmedGaps(s: Text)
    requires s != [] && IsVisible(s[0])
    ensures TrimEnd(Gapped(s)) == Between(s)
    ensures Between(s) != []
    decreases |s|
  {
    var rest := s[1..];
    if rest == [] {
      assert Gapped([]) == [] && Between([]) == [];
      TrimEndVisible(s[0]);
    } else if IsVisible(rest[0]) {
      TrimmedGaps(rest);
      TrimEndBehind([s[0]], Gapped(rest));
    } else if GapLength(rest) == |rest| {
      GapLast(s[0], rest);
    } else {
      TrimmedGaps(rest[GapLength(rest)..]);
      GapBehind(s[0], rest);
    }
  }

  lemma TrimEndVisible(v: Unit)
    requires IsVisible(v)
    ensures [v] + [] == [v] && TrimEnd([v]) == [v]
  {}

  lemma GapLast(v: Unit, rest: Text)
    requires IsVisible(v) && rest != [] && GapLength(rest) == |rest|
    ensures TrimEnd([v] + Gapped(rest)) == [v] == [v] + Between(rest)
  {
    var sep := Separator(rest[..|rest|]);
    SeparatorBlank(rest[..|rest|]);
    assert rest[|rest|..] == [] && Gapped([]) == [] && Gapped(rest) == [sep] + [];
    assert ([v] + [sep])[..1] == [v] && [sep] + [] == [sep];
    TrimEndVisible(v);
  }

  lemma GapBehind(v: Unit, rest: Text)
    requires IsVisible(v) && rest != [] && !IsVisible(rest[0]) && GapLength(rest) < |rest|
    requires
      var next := rest[GapLength(rest)..];
      TrimEnd(Gapped(next)) == Between(next) && Between(next) != []
    ensures TrimEnd([v] + Gapped(rest)) == [v] + Between(rest)
  {
    var n := GapLength(rest);
    var sep, next := Separator(rest[..n]), rest[n..];
    TrimEndBehind([v] + [sep], Gapped(next));
    Associate([v], [sep], Gapped(next));
    Associate([v], [sep], Between(next));
  }

  lemma TidyIsClean(s: Text)
    ensures Tidy(s) == Clean(s)
  {
    var b := BreaksToSpaces(s);
    var n := GapLength(s);
    BreaksMarks(s, false);
    TwoPassesGap(b);
    BreaksGapped(s);
    LeadingGap(s);
    if s[n..] != [] { TrimmedGaps(s[n..]); }
  }

  lemma LeadingGap(s: Text)
    ensures TrimStart(Gapped(s)) == Gapped(s[GapLength(s)..])
  {
    var n := GapLength(s);
    if n > 0 {
      SeparatorBlank(s[..n]);
      var rest := Gapped(s[n..]);
      assert Gapped(s) == [Separator(s[..n])] + rest;
      assert ([Separator(s[..n])] + rest)[1..] == rest;
    } else {
      assert s[0..] == s;
    }
  }

  /** Exactly the first 500 units of the cleaned text. */
  lemma SanitizedIsClean(s: Text)
    ensures SanitizeLogValue(s) == if |Clean(s)| <= 500 then Clean(s) else Clean(s)[..500]
    ensures forall u :: u in SanitizeLogValue(s) ==> 32 <= u && !(127 <= u <= 159) && u != 8232 && u != 8233
  {
    TidyIsClean(s);
    TidyNormal(s);
  }
}
