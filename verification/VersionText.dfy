/**
 * Rewriting versions in source text. The regular expressions are explicit leftmost scanners.
 */
module VersionText {
  import opened Prelude

  // ----- Replacement templates of String.prototype.replace -----

  function Digit(c: char): (d: int)
    requires IsDigit(c)
    ensures 0 <= d <= 9
  {
    c as int - '0' as int
  }

  /** GetSubstitution of ECMAScript, for patterns without named groups. */
  function Expand(template: string, matched: string, before: string, after: string, groups: seq<string>): string {
    if template == "" then ""
    else if template[0] == '$' && |template| > 1 then
      var c := template[1];
      if c == '$' then "$" + Expand(template[2..], matched, before, after, groups)
      else if c == '&' then matched + Expand(template[2..], matched, before, after, groups)
      else if c == '`' then before + Expand(template[2..], matched, before, after, groups)
      else if c == '\'' then after + Expand(template[2..], matched, before, after, groups)
      else if |template| > 2 && IsDigit(c) && IsDigit(template[2]) && 1 <= Digit(c) * 10 + Digit(template[2]) <= |groups| then
        groups[Digit(c) * 10 + Digit(template[2]) - 1] + Expand(template[3..], matched, before, after, groups)
      else if IsDigit(c) && 1 <= Digit(c) <= |groups| then
        groups[Digit(c) - 1] + Expand(template[2..], matched, before, after, groups)
      else "$" + Expand(template[1..], matched, before, after, groups)
    else [template[0]] + Expand(template[1..], matched, before, after, groups)
  }

  lemma {:induction false} ExpandLiteral(text: string, rest: string, matched: string, before: string, after: string, groups: seq<string>)
    requires '$' !in text
    ensures Expand(text + rest, matched, before, after, groups) == text + Expand(rest, matched, before, after, groups)
  {
    if text == "" {
      assert text + rest == rest;
    } else {
      assert (text + rest)[1..] == text[1..] + rest;
      ExpandLiteral(text[1..], rest, matched, before, after, groups);
    }
  }

  // ----- Version assignments -----

  /** The two alternatives of the pattern, each up to and including the opening quote of its value. */
  datatype Pattern = Pattern(one: string, two: string) {

    ghost predicate Opening(o: string) {
      o == one || o == two
    }

    /** Each opening ends in its only quote, they start differently, and neither ends the other. */
    ghost predicate Valid() {
      && ClosedByQuote(one) && ClosedByQuote(two)
      && one[0] != two[0]
      && !EndsWith(one, two) && !EndsWith(two, one)
    }

    /** The alternative that starts the text, if one does. */
    function At(s: string): (opening: string)
      ensures opening != "" ==> Opening(opening) && opening <= s
    {
      if one <= s then one else if two <= s then two else ""
    }

    /** The length of the value of the assignment that starts the text; 0 when none does. */
    function ValueLength(s: string): (n: nat)
      ensures n > 0 ==> At(s) != "" && n == Quoted(s[|At(s)|..]) && |At(s)| + n + 2 <= |s|
    {
      if At(s) == "" then 0 else Quoted(s[|At(s)|..])
    }

    function Value(s: string): string
      requires ValueLength(s) > 0
    {
      s[|At(s)|..][..ValueLength(s)]
    }

    function After(s: string): (rest: string)
      requires ValueLength(s) > 0
      ensures |rest| < |s|
    {
      s[|At(s)| + ValueLength(s) + 2..]
    }

    lemma Split(s: string)
      requires ValueLength(s) > 0
      ensures s == At(s) + (Value(s) + CLOSING + After(s))
    {
      var tail := s[|At(s)|..];
      assert s == At(s) + tail;
      QuotedSplit(tail);
      assert tail[ValueLength(s) + 2..] == After(s);
    }
  }

  ghost predicate EndsWith(s: string, suffix: string) {
    exists i :: 0 < i < |s| && s[i..] == suffix
  }

  ghost predicate ClosedByQuote(o: string) {
    |o| >= 5 && o[|o| - 1] == '"' && '"' !in o[..|o| - 1] && '$' !in o
  }

  const CLOSING := "\";"

  /** The length of a non-empty quote-free run that `";` closes; 0 when the text does not start with one. */
  function Quoted(s: string): (n: nat)
    ensures n > 0 ==> n + 1 < |s| && s[n] == '"' && s[n + 1] == ';' && '"' !in s[..n]
  {
    var n := Find(s, '"');
    if 0 < n && n + 1 < |s| && s[n + 1] == ';' then n else 0
  }

  lemma QuotedSplit(s: string)
    requires Quoted(s) > 0
    ensures s == s[..Quoted(s)] + CLOSING + s[Quoted(s) + 2..]
  {}

  lemma QuotedReads(version: string, rest: string)
    requires '"' !in version
    ensures Quoted(version + CLOSING + rest) == |version|
    ensures (version + CLOSING + rest)[|version| + 2..] == rest
  {
    var s := version + CLOSING + rest;
    assert s[..|version|] == version;
    FindUnique(s, '"', |version|);
  }

  // ----- What the scan sees -----

  datatype Piece = Plain(c: char) | Assignment(opening: string, version: string)

  /** The text as assignments, and single characters between them. */
  function Scan(p: Pattern, s: string): seq<Piece>
    decreases |s|
  {
    if s == "" then []
    else if p.ValueLength(s) > 0 then [Assignment(p.At(s), p.Value(s))] + Scan(p, p.After(s))
    else [Plain(s[0])] + Scan(p, s[1..])
  }

  function Render(pieces: seq<Piece>): string {
    if pieces == [] then "" else RenderPiece(pieces[0]) + Render(pieces[1..])
  }

  function RenderPiece(p: Piece): string {
    match p
    case Plain(c) => [c]
    case Assignment(opening, version) => opening + (version + CLOSING)
  }

  /** Scanning loses nothing. */
  lemma {:induction false} ScanRenders(p: Pattern, s: string)
    ensures Render(Scan(p, s)) == s
    decreases |s|
  {
    if s != "" {
      if p.ValueLength(s) > 0 {
        ScanRenders(p, p.After(s));
        p.Split(s);
      } else {
        ScanRenders(p, s[1..]);
      }
    }
  }

  function WithVersion(pieces: seq<Piece>, version: string): (r: seq<Piece>)
    ensures |r| == |pieces|
    ensures forall i :: 0 <= i < |r| ==>
      r[i] == if pieces[i].Plain? then pieces[i] else Assignment(pieces[i].opening, version)
  {
    if pieces == [] then []
    else [if pieces[0].Plain? then pieces[0] else Assignment(pieces[0].opening, version)] + WithVersion(pieces[1..], version)
  }

  /** The text with every assigned version replaced. */
  function Rewritten(p: Pattern, s: string, version: string): string
    decreases |s|
  {
    if s == "" then ""
    else if p.ValueLength(s) > 0 then p.At(s) + (version + CLOSING + Rewritten(p, p.After(s), version))
    else [s[0]] + Rewritten(p, s[1..], version)
  }

  lemma PlainStep(p: Pattern, s: string, version: string)
    requires s != "" && p.ValueLength(s) == 0
    ensures Rewritten(p, s, version) == [s[0]] + Rewritten(p, s[1..], version)
  {}

  lemma {:induction false} RewrittenPieces(p: Pattern, s: string, version: string)
    ensures Rewritten(p, s, version) == Render(WithVersion(Scan(p, s), version))
    decreases |s|
  {
    if s != "" {
      var pieces := Scan(p, s);
      assert WithVersion(pieces, version)[1..] == WithVersion(pieces[1..], version);
      if p.ValueLength(s) > 0 {
        RewrittenPieces(p, p.After(s), version);
        Associate(p.At(s), version + CLOSING, Rewritten(p, p.After(s), version));
      } else {
        RewrittenPieces(p, s[1..], version);
      }
    }
  }

  // ----- Rewriting neither creates nor destroys an assignment -----

  /** Versions that read back as themselves: not empty, without quotes, not starting with a semicolon. */
  predicate Settable(version: string) {
    version != "" && '"' !in version && version[0] != ';'
  }

  lemma HeadKept(p: Pattern, s: string, version: string)
    ensures s == "" <==> Rewritten(p, s, version) == ""
    ensures s != "" ==> Rewritten(p, s, version)[0] == s[0]
  {
  }

  lemma OpeningQuote(o: string, s: string)
    requires ClosedByQuote(o) && o <= s
    ensures Find(s, '"') == |o| - 1
  {
    assert s[..|o| - 1] == o[..|o| - 1] && s[|o| - 1] == o[|o| - 1];
    FindUnique(s, '"', |o| - 1);
  }

  /** Both texts have their first quote at the same place, with the same text before it, or are equal. */
  ghost predicate SameUpToQuote(s: string, r: string) {
    var q := Find(s, '"');
    Find(r, '"') == q && if q == |s| then r == s else q < |r| && r[..q + 1] == s[..q + 1]
  }

  lemma SameCons(c: char, s: string, r: string)
    requires SameUpToQuote(s, r)
    ensures SameUpToQuote([c] + s, [c] + r)
  {
    var q := Find(s, '"');
    assert ([c] + s)[1..] == s && ([c] + r)[1..] == r;
    if q < |s| {
      assert ([c] + r)[..q + 2] == [c] + r[..q + 1];
      assert ([c] + s)[..q + 2] == [c] + s[..q + 1];
    }
  }

  lemma SameOpening(o: string, a: string, b: string)
    requires ClosedByQuote(o)
    ensures SameUpToQuote(o + a, o + b)
  {
    OpeningQuote(o, o + a);
    OpeningQuote(o, o + b);
    assert (o + a)[..|o|] == o == (o + b)[..|o|];
  }

  /** Up to and including its first quote, rewritten text is the old text. */
  lemma {:induction false} FirstQuoteKept(p: Pattern, s: string, version: string)
    requires p.Valid()
    ensures SameUpToQuote(s, Rewritten(p, s, version))
    decreases |s|
  {
    if s != "" {
      if p.ValueLength(s) > 0 {
        var o, rest := p.At(s), p.After(s);
        SameOpening(o, p.Value(s) + CLOSING + rest, version + CLOSING + Rewritten(p, rest, version));
        p.Split(s);
      } else {
        FirstQuoteKept(p, s[1..], version);
        SameCons(s[0], s[1..], Rewritten(p, s[1..], version));
        assert s == [s[0]] + s[1..];
      }
    }
  }

  lemma VersionFollows(opening: string, version: string, rest: string)
    requires version != ""
    ensures (opening + (version + CLOSING + rest))[|opening|] == version[0]
  {}

  /** Rewriting never puts a semicolon right after the first quote. */
  lemma {:induction false} NoNewSemicolon(p: Pattern, s: string, version: string)
    requires p.Valid() && Settable(version)
    ensures SemicolonAsBefore(s, Rewritten(p, s, version))
    decreases |s|
  {
    if s != "" {
      if p.ValueLength(s) > 0 {
        SemicolonAssignment(p, s, version);
      } else {
        NoNewSemicolon(p, s[1..], version);
        SemicolonPlain(p, s, version);
      }
    }
  }

  lemma SemicolonAssignment(p: Pattern, s: string, version: string)
    requires p.Valid() && Settable(version) && p.ValueLength(s) > 0
    ensures SemicolonAsBefore(s, Rewritten(p, s, version))
  {
    OpeningQuote(p.At(s), s);
    AssignmentStep(p, s, version);
    VersionFollows(p.At(s), version, Rewritten(p, p.After(s), version));
  }

  lemma SemicolonPlain(p: Pattern, s: string, version: string)
    requires s != "" && p.ValueLength(s) == 0
    requires SemicolonAsBefore(s[1..], Rewritten(p, s[1..], version))
    ensures SemicolonAsBefore(s, Rewritten(p, s, version))
  {
    PlainStep(p, s, version);
    HeadKept(p, s[1..], version);
    assert s == [s[0]] + s[1..];
    if s[0] == '"' {
      SemicolonAfterQuote(s[1..], Rewritten(p, s[1..], version));
    } else {
      SemicolonCons(s[0], s[1..], Rewritten(p, s[1..], version));
    }
  }

  /** A semicolon right after the first quote of the old text's extent was there before. */
  ghost predicate SemicolonAsBefore(s: string, r: string) {
    var q := Find(s, '"');
    q + 1 < |r| && r[q + 1] == ';' ==> q + 1 < |s| && s[q + 1] == ';'
  }

  lemma SemicolonAfterQuote(s: string, r: string)
    requires s == "" <==> r == ""
    requires s != "" ==> r[0] == s[0]
    ensures SemicolonAsBefore(['"'] + s, ['"'] + r)
  {}

  lemma SemicolonCons(c: char, s: string, r: string)
    requires c != '"' && SemicolonAsBefore(s, r)
    ensures SemicolonAsBefore([c] + s, [c] + r)
  {
    assert ([c] + s)[1..] == s;
  }

  lemma SuffixOpening(opening: string, i: nat, rest: string, other: string)
    requires i < |opening| && other <= opening[i..] + rest && |other| == |opening| - i
    ensures other == opening[i..]
  {
    assert (opening[i..] + rest)[..|other|] == opening[i..];
  }

  /** No assignment can start inside the opening of another. */
  lemma NoInnerOpening(p: Pattern, opening: string, i: nat, rest: string)
    requires p.Valid() && p.Opening(opening)
    requires 0 < i < |opening|
    ensures p.At(opening[i..] + rest) == ""
  {
    var s := opening[i..] + rest;
    assert s[..|opening| - 1 - i] == opening[..|opening| - 1][i..];
    FindUnique(s, '"', |opening| - 1 - i);
    forall other | p.Opening(other) ensures !(other <= s) {
      if other <= s {
        OpeningQuote(other, s);
        SuffixOpening(opening, i, rest, other);
      }
    }
  }

  lemma ConsSuffix(o: string, i: nat, rest: string)
    requires i < |o|
    ensures [o[i]] + (o[i + 1..] + rest) == o[i..] + rest
  {}

  lemma {:induction false} OpeningKept(p: Pattern, opening: string, i: nat, rest: string, version: string)
    requires p.Valid() && p.Opening(opening)
    requires 0 < i <= |opening|
    ensures Rewritten(p, opening[i..] + rest, version) == opening[i..] + Rewritten(p, rest, version)
    decreases |opening| - i
  {
    var s := opening[i..] + rest;
    if i == |opening| {
      assert s == rest;
    } else {
      NoInnerOpening(p, opening, i, rest);
      assert s[1..] == opening[i + 1..] + rest && s[0] == opening[i];
      OpeningKept(p, opening, i + 1, rest, version);
      ConsSuffix(opening, i, Rewritten(p, rest, version));
    }
  }

  /** An opening that starts no assignment is followed by the rewritten rest. */
  lemma FailedOpening(p: Pattern, opening: string, rest: string, version: string)
    requires p.Valid() && p.Opening(opening)
    requires p.ValueLength(opening + rest) == 0
    ensures Rewritten(p, opening + rest, version) == opening + Rewritten(p, rest, version)
  {
    FailedHead(p, opening, rest, version);
    OpeningKept(p, opening, 1, rest, version);
    ConsWhole(opening, Rewritten(p, rest, version));
  }

  lemma FailedHead(p: Pattern, opening: string, rest: string, version: string)
    requires opening != "" && p.ValueLength(opening + rest) == 0
    ensures Rewritten(p, opening + rest, version) == [opening[0]] + Rewritten(p, opening[1..] + rest, version)
  {
    HeadTail(opening, rest);
    PlainStep(p, opening + rest, version);
  }

  lemma ConsWhole(opening: string, rest: string)
    requires opening != ""
    ensures [opening[0]] + (opening[1..] + rest) == opening + rest
  {}

  lemma HeadTail(opening: string, rest: string)
    requires opening != ""
    ensures (opening + rest)[0] == opening[0] && (opening + rest)[1..] == opening[1..] + rest && opening[0..] == opening
  {}

  lemma AtKept(p: Pattern, s: string, version: string)
    requires p.Valid()
    ensures p.At(Rewritten(p, s, version)) == p.At(s)
  {
    var r := Rewritten(p, s, version);
    FirstQuoteKept(p, s, version);
    forall o | p.Opening(o) ensures o <= s <==> o <= r {
      OpeningOfSame(o, s, r);
    }
  }

  lemma OpeningOfSame(o: string, s: string, r: string)
    requires ClosedByQuote(o) && SameUpToQuote(s, r)
    ensures o <= s <==> o <= r
  {
    OpeningCarries(o, s, r);
    assert SameUpToQuote(r, s);
    OpeningCarries(o, r, s);
  }

  lemma OpeningCarries(o: string, s: string, r: string)
    requires ClosedByQuote(o) && SameUpToQuote(s, r)
    ensures o <= s ==> o <= r
  {
    if o <= s {
      OpeningQuote(o, s);
      assert s[..|o|] == o;
    }
  }

  lemma AtOpening(p: Pattern, opening: string, rest: string)
    requires p.Valid() && p.Opening(opening)
    ensures p.At(opening + rest) == opening
    ensures (opening + rest)[|opening|..] == rest
    ensures p.ValueLength(opening + rest) == Quoted(rest)
  {
    var s := opening + rest;
    assert opening <= s && s[0] == opening[0];
    assert s[|opening|..] == rest;
  }

  /** Text that starts no assignment starts none after rewriting. */
  lemma NoMatchKept(p: Pattern, s: string, version: string)
    requires p.Valid() && Settable(version)
    requires p.ValueLength(s) == 0
    ensures p.ValueLength(Rewritten(p, s, version)) == 0
  {
    AtKept(p, s, version);
    var opening := p.At(s);
    if opening != "" {
      var rest := s[|opening|..];
      assert s == opening + rest;
      FailedOpening(p, opening, rest, version);
      AtOpening(p, opening, Rewritten(p, rest, version));
      FirstQuoteKept(p, rest, version);
      NoNewSemicolon(p, rest, version);
    }
  }

  /** Reading a rewritten text gives the old pieces with the new version. */
  lemma {:induction false} ScanRewritten(p: Pattern, s: string, version: string)
    requires p.Valid() && Settable(version)
    ensures Scan(p, Rewritten(p, s, version)) == WithVersion(Scan(p, s), version)
    decreases |s|
  {
    if s != "" {
      var r := Rewritten(p, s, version);
      if p.ValueLength(s) > 0 {
        ScanRewritten(p, p.After(s), version);
        AssignmentReads(p, p.At(s), version, Rewritten(p, p.After(s), version));
        assert r == p.At(s) + (version + CLOSING + Rewritten(p, p.After(s), version));
      } else {
        ScanRewritten(p, s[1..], version);
        NoMatchKept(p, s, version);
        assert r[1..] == Rewritten(p, s[1..], version);
      }
      assert WithVersion(Scan(p, s), version)[1..] == WithVersion(Scan(p, s)[1..], version);
    }
  }

  lemma AssignmentReads(p: Pattern, opening: string, version: string, rest: string)
    requires p.Valid() && p.Opening(opening)
    requires version != "" && '"' !in version
    ensures Scan(p, opening + (version + CLOSING + rest)) == [Assignment(opening, version)] + Scan(p, rest)
  {
    var r := opening + (version + CLOSING + rest);
    AtOpening(p, opening, version + CLOSING + rest);
    QuotedReads(version, rest);
    assert r != "";
    assert (version + CLOSING + rest)[..|version|] == version;
    assert p.Value(r) == version && p.After(r) == rest;
  }

  lemma {:induction false} WithVersionTwice(pieces: seq<Piece>, v1: string, v2: string)
    ensures WithVersion(WithVersion(pieces, v1), v2) == WithVersion(pieces, v2)
  {}

  lemma RewrittenTwice(p: Pattern, s: string, v1: string, v2: string)
    requires p.Valid() && Settable(v1)
    ensures Rewritten(p, Rewritten(p, s, v1), v2) == Rewritten(p, s, v2)
  {
    ScanRewritten(p, s, v1);
    WithVersionTwice(Scan(p, s), v1, v2);
    RewrittenPieces(p, s, v2);
    RewrittenPieces(p, Rewritten(p, s, v1), v2);
  }

  // ----- Versions that break it -----

  ghost predicate Overwrites(p: Pattern, s: string, v1: string, v2: string) {
    Rewritten(p, Rewritten(p, s, v1), v2) == Rewritten(p, s, v2)
  }

  lemma OpeningReads(p: Pattern, rest: string, version: string)
    requires p.Valid()
    ensures Quoted(rest) == 0 ==> Rewritten(p, p.one + rest, version) == p.one + Rewritten(p, rest, version)
    ensures Quoted(rest) > 0 ==>
      Rewritten(p, p.one + rest, version) == p.one + (version + CLOSING + Rewritten(p, rest[Quoted(rest) + 2..], version))
  {
    AtOpening(p, p.one, rest);
    if Quoted(rest) == 0 {
      FailedOpening(p, p.one, rest, version);
    } else {
      AssignmentStep(p, p.one + rest, version);
      assert p.After(p.one + rest) == rest[Quoted(rest) + 2..];
    }
  }

  lemma AssignmentStep(p: Pattern, s: string, version: string)
    requires p.ValueLength(s) > 0
    ensures Rewritten(p, s, version) == p.At(s) + (version + CLOSING + Rewritten(p, p.After(s), version))
  {
    assert s != "";
  }

  /** An assignment of `a` alone. */
  lemma Single(p: Pattern, version: string)
    requires p.Valid()
    ensures Rewritten(p, p.one + ("a" + CLOSING + ""), version) == p.one + (version + CLOSING)
  {
    QuotedReads("a", "");
    OpeningReads(p, "a" + CLOSING + "", version);
    assert Rewritten(p, "", version) == "";
    EndsEmpty(version + CLOSING);
  }

  lemma EndsEmpty(s: string)
    ensures s + "" == s
  {}

  /** An empty version, or one with a quote, does not read back. */
  lemma QuoteBreaks(p: Pattern, v1: string) returns (s: string, v2: string)
    requires p.Valid() && (v1 == "" || '"' in v1)
    ensures '$' !in v2 && !Overwrites(p, s, v1, v2)
  {
    s := p.one + ("a" + CLOSING + "");
    v2 := if v1 != "" && v1[0] == 'x' then "y" else "x";
    var rest := v1 + CLOSING;
    Single(p, v1);
    Single(p, v2);
    OpeningReads(p, rest, v2);
    if Quoted(rest) == 0 {
      UnreadDiffers(p, v1, v2);
    } else {
      ReadDiffers(p, v1, v2);
    }
  }

  lemma UnreadDiffers(p: Pattern, v1: string, v2: string)
    requires v2 != "" && (v1 + CLOSING)[0] != v2[0]
    ensures p.one + Rewritten(p, v1 + CLOSING, v2) != p.one + (v2 + CLOSING)
  {
    HeadKept(p, v1 + CLOSING, v2);
    OtherHead(p.one, Rewritten(p, v1 + CLOSING, v2), v2 + CLOSING);
  }

  lemma ReadDiffers(p: Pattern, v1: string, v2: string)
    requires (v1 == "" || '"' in v1) && Quoted(v1 + CLOSING) > 0
    ensures
      var rest := (v1 + CLOSING)[Quoted(v1 + CLOSING) + 2..];
      p.one + (v2 + CLOSING + Rewritten(p, rest, v2)) != p.one + (v2 + CLOSING)
  {
    QuotedShort(v1);
    var rest := (v1 + CLOSING)[Quoted(v1 + CLOSING) + 2..];
    HeadKept(p, rest, v2);
    OtherLength(p.one, v2 + CLOSING, Rewritten(p, rest, v2));
  }

  lemma OtherHead(opening: string, a: string, b: string)
    requires a != "" && b != "" && a[0] != b[0]
    ensures opening + a != opening + b
  {
    assert (opening + a)[|opening|] == a[0] && (opening + b)[|opening|] == b[0];
  }

  lemma OtherLength(opening: string, a: string, more: string)
    requires more != ""
    ensures opening + (a + more) != opening + a
  {
    assert |opening + (a + more)| > |opening + a|;
  }

  /** A run that a quote in the version closes leaves text behind it. */
  lemma QuotedShort(version: string)
    requires version == "" || '"' in version
    ensures Quoted(version + CLOSING) > 0 ==> Quoted(version + CLOSING) + 2 < |version + CLOSING|
  {
    var rest := version + CLOSING;
    if version != "" {
      var i :| 0 <= i < |version| && version[i] == '"';
      assert rest[i] == '"';
      assert forall k :: 0 <= k < Quoted(rest) ==> rest[..Quoted(rest)][k] == rest[k];
    }
  }

  lemma Unfinished(p: Pattern, rest: string)
    requires p.Valid() && rest != ""
    ensures Quoted("a" + (p.one + rest)) > 0 <==> rest[0] == ';'
  {
    var s := "a" + (p.one + rest);
    var q := |p.one|;
    assert s[..q] == "a" + p.one[..q - 1] && s[q] == p.one[q - 1] && s[q + 1] == rest[0];
    FindUnique(s, '"', q);
  }

  /** A version that starts with a semicolon closes an earlier, unfinished assignment. */
  lemma SemicolonBreaks(p: Pattern, v1: string) returns (s: string, v2: string)
    requires p.Valid() && p.one[0] != 'a' && p.two[0] != 'a'
    requires '"' !in v1 && v1 != "" && v1[0] == ';'
    ensures '$' !in v2 && !Overwrites(p, s, v1, v2)
  {
    var value := "a" + CLOSING + "";
    s := p.one + ("a" + (p.one + value));
    v2 := "b";
    Unfinished(p, value);
    Unfinished(p, v1 + CLOSING);
    forall v ensures Rewritten(p, s, v) == p.one + ("a" + (p.one + (v + CLOSING))) {
      OpeningReads(p, "a" + (p.one + value), v);
      LetterStep(p, p.one + value, v);
      Single(p, v);
    }
    OpeningReads(p, "a" + (p.one + (v1 + CLOSING)), v2);
    var once := p.one + ("a" + (p.one + (v1 + CLOSING)));
    assert Rewritten(p, once, v2)[|p.one|] == 'b';
    assert Rewritten(p, s, v2)[|p.one|] == 'a';
  }

  lemma LetterStep(p: Pattern, rest: string, version: string)
    requires p.Valid() && p.one[0] != 'a' && p.two[0] != 'a'
    ensures Rewritten(p, "a" + rest, version) == "a" + Rewritten(p, rest, version)
  {
    assert ("a" + rest)[0] == 'a' && ("a" + rest)[1..] == rest;
  }

  // ----- The replacement of the code -----

  /** The `g` replacement, building each piece from the template `$1 = "version";`; `$1` is the key. */
  function BumpFrom(p: Pattern, before: string, s: string, version: string): string
    requires |p.one| >= 4 && |p.two| >= 4
    decreases |s|
  {
    if s == "" then ""
    else if p.ValueLength(s) > 0 then
      var opening, rest := p.At(s), p.After(s);
      var matched := opening + p.Value(s) + CLOSING;
      Expand("$1 = \"" + version + CLOSING, matched, before, rest, [opening[..|opening| - 4]])
      + BumpFrom(p, before + matched, rest, version)
    else [s[0]] + BumpFrom(p, before + [s[0]], s[1..], version)
  }

  lemma ExpandAssignment(version: string, matched: string, before: string, after: string, key: string)
    requires '$' !in version
    ensures Expand("$1 = \"" + version + CLOSING, matched, before, after, [key]) == key + " = \"" + version + CLOSING
  {
    var tail := " = \"" + version + CLOSING;
    var template := "$1 = \"" + version + CLOSING;
    assert template[0] == '$' && template[1] == '1' && template[2..] == tail && template[2] == ' ';
    ExpandLiteral(tail, "", matched, before, after, [key]);
    assert tail + "" == tail;
    assert key + tail == key + " = \"" + version + CLOSING;
  }

  ghost predicate EndsInEquals(o: string) {
    |o| >= 4 && o == o[..|o| - 4] + " = \""
  }

  lemma EqualsSign(o: string, version: string, rest: string)
    requires EndsInEquals(o)
    ensures o[..|o| - 4] + " = \"" + version + CLOSING + rest == o + (version + CLOSING + rest)
  {
    Associate(o, version + CLOSING, rest);
    Associate(o, version, CLOSING);
  }

  /** Rewriting by template is replacing the versions, when the version holds no `$`. */
  lemma {:induction false} BumpRewrites(p: Pattern, before: string, s: string, version: string)
    requires '$' !in version && EndsInEquals(p.one) && EndsInEquals(p.two)
    ensures BumpFrom(p, before, s, version) == Rewritten(p, s, version)
    decreases |s|
  {
    if s != "" {
      if p.ValueLength(s) > 0 {
        var opening, rest := p.At(s), p.After(s);
        var matched := opening + p.Value(s) + CLOSING;
        BumpRewrites(p, before + matched, rest, version);
        ExpandAssignment(version, matched, before, rest, opening[..|opening| - 4]);
        EqualsSign(opening, version, Rewritten(p, rest, version));
      } else {
        BumpRewrites(p, before + [s[0]], s[1..], version);
      }
    }
  }

  const CONST_OPENING := "const VERSION = \""
  const ENV_OPENING := "VERYFRONT_VERSION = \""
  const VERSIONS := Pattern(CONST_OPENING, ENV_OPENING)

  lemma VersionsValid()
    ensures VERSIONS.Valid() && EndsInEquals(VERSIONS.one) && EndsInEquals(VERSIONS.two)
    ensures VERSIONS.one[0] != 'a' && VERSIONS.two[0] != 'a'
  {
    assert VERSIONS.one == CONST_OPENING && VERSIONS.two == ENV_OPENING;
    OpeningsClosed();
    OpeningsApart();
  }

  lemma OpeningsClosed()
    ensures ClosedByQuote(CONST_OPENING) && EndsInEquals(CONST_OPENING)
    ensures ClosedByQuote(ENV_OPENING) && EndsInEquals(ENV_OPENING)
  {}

  lemma OpeningsApart()
    ensures !EndsWith(CONST_OPENING, ENV_OPENING) && !EndsWith(ENV_OPENING, CONST_OPENING)
  {
    assert |CONST_OPENING| == 17 && |ENV_OPENING| == 21;
    assert ENV_OPENING[4..][0] != CONST_OPENING[0];
  }

  function BumpVersionAssignments(source: string, version: string): string {
    BumpFrom(VERSIONS, "", source, version)
  }

  /** Every assignment holds the new version; every character outside the versions is where it was. */
  lemma BumpSetsVersions(s: string, version: string)
    requires Settable(version) && '$' !in version
    ensures Scan(VERSIONS, BumpVersionAssignments(s, version)) == WithVersion(Scan(VERSIONS, s), version)
  {
    VersionsValid();
    BumpRewrites(VERSIONS, "", s, version);
    ScanRewritten(VERSIONS, s, version);
  }

  ghost predicate LastWriteWins(s: string, v1: string, v2: string) {
    BumpVersionAssignments(BumpVersionAssignments(s, v1), v2) == BumpVersionAssignments(s, v2)
  }

  lemma BumpOverwrites(s: string, v1: string, v2: string)
    requires '$' !in v1 && '$' !in v2
    ensures LastWriteWins(s, v1, v2) <==> Overwrites(VERSIONS, s, v1, v2)
  {
    VersionsValid();
    BumpRewrites(VERSIONS, "", s, v1);
    BumpRewrites(VERSIONS, "", s, v2);
    BumpRewrites(VERSIONS, "", BumpVersionAssignments(s, v1), v2);
  }

  /** Versions without `$` overwrite cleanly, whatever the text and the next version, exactly when settable. */
  lemma LastWriteWinsIff(v1: string)
    requires '$' !in v1
    ensures (forall s, v2 :: '$' !in v2 ==> LastWriteWins(s, v1, v2)) <==> Settable(v1)
  {
    VersionsValid();
    if Settable(v1) {
      forall s, v2 | '$' !in v2 ensures LastWriteWins(s, v1, v2) {
        RewrittenTwice(VERSIONS, s, v1, v2);
        BumpOverwrites(s, v1, v2);
      }
    } else {
      var s, v2;
      if v1 == "" || '"' in v1 {
        s, v2 := QuoteBreaks(VERSIONS, v1);
      } else {
        s, v2 := SemicolonBreaks(VERSIONS, v1);
      }
      BumpOverwrites(s, v1, v2);
    }
  }

  // ----- The bump on the text itself -----

  /** What an assignment starts with. */
  predicate IsOpening(o: string) {
    o == "const VERSION = \"" || o == "VERYFRONT_VERSION = \""
  }

  /** The text starts with an assignment of the value `w`. */
  predicate Assigns(s: string, o: string, w: string, rest: string) {
    IsOpening(o) && w != "" && '"' !in w && s == o + (w + "\";" + rest)
  }

  lemma OpeningIff(o: string)
    ensures IsOpening(o) <==> VERSIONS.Opening(o)
  {
    assert VERSIONS.one == CONST_OPENING && VERSIONS.two == ENV_OPENING;
  }

  /** An assignment gets the new version, and rewriting goes on behind it. */
  lemma BumpAssignment(s: string, o: string, w: string, rest: string, version: string)
    requires '$' !in version && Assigns(s, o, w, rest)
    ensures BumpVersionAssignments(s, version) == o + (version + "\";" + BumpVersionAssignments(rest, version))
  {
    VersionsValid();
    OpeningIff(o);
    BumpRewrites(VERSIONS, "", s, version);
    BumpRewrites(VERSIONS, "", rest, version);
    RewritesAssignment(VERSIONS, o, w, rest, version);
  }

  lemma RewritesAssignment(p: Pattern, o: string, w: string, rest: string, version: string)
    requires p.Valid() && p.Opening(o) && w != "" && '"' !in w
    ensures Rewritten(p, o + (w + CLOSING + rest), version) == o + (version + CLOSING + Rewritten(p, rest, version))
  {
    var s := o + (w + CLOSING + rest);
    AtOpening(p, o, w + CLOSING + rest);
    QuotedReads(w, rest);
    AssignmentStep(p, s, version);
    assert p.After(s) == rest;
  }

  /** A character that starts no assignment stays. */
  lemma BumpCharacter(s: string, version: string)
    requires '$' !in version && s != "" && forall o, w, rest :: !Assigns(s, o, w, rest)
    ensures BumpVersionAssignments(s, version) == [s[0]] + BumpVersionAssignments(s[1..], version)
  {
    VersionsValid();
    BumpRewrites(VERSIONS, "", s, version);
    BumpRewrites(VERSIONS, "", s[1..], version);
    NothingAssigned(s);
    PlainStep(VERSIONS, s, version);
  }

  lemma NothingAssigned(s: string)
    requires forall o, w, rest :: !Assigns(s, o, w, rest)
    ensures VERSIONS.ValueLength(s) == 0
  {
    if VERSIONS.ValueLength(s) > 0 {
      VERSIONS.Split(s);
      OpeningIff(VERSIONS.At(s));
      ValueHoldsNoQuote(VERSIONS, s);
      assert Assigns(s, VERSIONS.At(s), VERSIONS.Value(s), VERSIONS.After(s));
    }
  }

  lemma ValueHoldsNoQuote(p: Pattern, s: string)
    requires p.ValueLength(s) > 0
    ensures p.Value(s) != "" && '"' !in p.Value(s)
  {}

  lemma BumpNothing(version: string)
    ensures BumpVersionAssignments("", version) == ""
  {}

  // ----- What a dollar sign stands for -----

  /** With one or two groups: `$$`, `$&`, the text before and after, and a group. */
  lemma DollarStandsFor(c: char, rest: string, matched: string, before: string, after: string, groups: seq<string>)
    requires 1 <= |groups| <= 2 && (rest == "" || !IsDigit(rest[0]))
    ensures
      var behind := Expand(rest, matched, before, after, groups);
      var r := Expand(['$', c] + rest, matched, before, after, groups);
      && (c == '$' ==> r == "$" + behind)
      && (c == '&' ==> r == matched + behind)
      && (c == '`' ==> r == before + behind)
      && (c == '\'' ==> r == after + behind)
      && (c == '1' ==> r == groups[0] + behind)
      && (c == '2' && |groups| == 2 ==> r == groups[1] + behind)
  {
    assert (['$', c] + rest)[2..] == rest;
  }
}
