/**
 * The release task: the version it resolves, written into deno.json and into source text.
 */
module Release {
  import opened Prelude
  import opened VersionText
  import opened SemVer
  import opened DenoVersion
  import opened DenoJson
  import J = JsonText

  ghost predicate Resolved(current: string, kind: string, version: string) {
    GetNewVersion(current, kind) == Ok(version)
  }

  /** Digits and dots only. */
  predicate Dotted(s: string) {
    forall i :: 0 <= i < |s| ==> IsDigit(s[i]) || s[i] == '.'
  }

  lemma NumberDotted(s: string)
    requires Number(s).Some? && Dotted(Number(s).value.1)
    ensures Dotted(s)
  {
    var n := DigitRun(s);
    assert s == s[..n] + [s[n]] + s[n + 1..];
  }

  lemma StableDotted(s: string)
    requires Stable(s)
    ensures Dotted(s) && s != "" && IsDigit(s[0])
  {
    var s1 := Number(s).value.1;
    var s2 := Number(s1).value.1;
    PatchDotted(s2);
    NumberDotted(s1);
    NumberDotted(s);
    assert DigitRun(s) > 0;
  }

  lemma PatchDotted(s: string)
    requires Prerelease(s[DigitRun(s)..]) == Some([])
    ensures Dotted(s)
  {
    var n := DigitRun(s);
    var rest := s[n..];
    assert s == s[..n] + rest;
  }

  /** Every version the release resolves can be written into both files. */
  lemma ResolvedSettable(current: string, kind: string, version: string)
    requires Resolved(current, kind, version)
    ensures Stable(version) && Settable(version) && '$' !in version
  {
    ResolvedStable(current, kind, version);
    StableDotted(version);
  }

  lemma ResolvedStable(current: string, kind: string, version: string)
    requires Resolved(current, kind, version)
    ensures Stable(version)
  {
    if !Stable(kind) {
      var major, minor, patch := ResolvedCore(current, kind, version);
      CoreParses(major, minor, patch);
    }
  }

  lemma ResolvedCore(current: string, kind: string, version: string) returns (major: nat, minor: nat, patch: nat)
    requires Resolved(current, kind, version) && !Stable(kind)
    ensures version == Core(major, minor, patch)
  {
    var v := Parse(current).value;
    if kind == "major" {
      major, minor, patch := v.major + 1, 0, 0;
    } else if kind == "minor" {
      major, minor, patch := v.major, v.minor + 1, 0;
    } else {
      major, minor, patch := v.major, v.minor, if '-' in current then v.patch else v.patch + 1;
    }
  }

  /**
   * Releasing twice leaves the source text as the later release alone would: for all versions a release can
   * resolve the last write wins.
   */
  lemma LastReleaseWins(source: string, current1: string, kind1: string, v1: string, current2: string, kind2: string, v2: string)
    requires Resolved(current1, kind1, v1) && Resolved(current2, kind2, v2)
    ensures BumpVersionAssignments(BumpVersionAssignments(source, v1), v2) == BumpVersionAssignments(source, v2)
  {
    ResolvedSettable(current1, kind1, v1);
    ResolvedSettable(current2, kind2, v2);
    LastWriteWinsIff(v1);
    assert LastWriteWins(source, v1, v2);
  }

  // ----- From one release to the next -----

  /** `denoJson.version` of the parsed text is this version. */
  ghost predicate Reads(g: J.Grammar, deno: string, version: string) {
    J.ReadVersion(g, deno) == Some(J.Units(version))
  }


  lemma DottedLiteral(s: string)
    requires Dotted(s)
    ensures J.Literal(s)
  {}

  /**
   * A release writes its version into deno.json. The next one reads it exactly when the field that was matched is
   * a whole literal and is the one `JSON.parse` reads, or that one held the version already.
   */
  lemma NextReleaseReadsIff(g: J.Grammar, deno: string, current: string, kind: string, version: string)
    requires Reads(g, deno, current) && Locate(VERSION_FIELD, deno).Some? && Resolved(current, kind, version)
    ensures BumpDenoJsonVersion(deno, version).Ok?
    ensures Reads(g, BumpDenoJsonVersion(deno, version).value, version) <==>
      WholeMatch(deno) && (ReadsMatch(deno) || version == current)
  {
    ResolvedSettable(current, kind, version);
    StableDotted(version);
    DottedLiteral(version);
    WrittenIsReadIff(g, deno, version);
    if Reads(g, deno, version) { J.UnitsInjective(version, current); }
  }

  lemma BumpChanges(current: string, kind: string, version: string)
    requires Resolved(current, kind, version) && IsKind(kind)
    ensures Parse(current).Some? && Parse(version).Some? && Less(Parse(current).value, Parse(version).value)
    ensures version != current
  {
    WordsAreNotVersions(kind);
    BumpIsLeast(current, kind);
    LessIsStrictOrder(Parse(current).value, Parse(version).value, Parse(version).value);
  }

  /** A release by kind is read by the next one exactly when the field that is matched is the one that is read. */
  lemma NextReleaseReadsBumpIff(g: J.Grammar, deno: string, current: string, kind: string, version: string)
    requires Reads(g, deno, current) && Locate(VERSION_FIELD, deno).Some?
    requires Resolved(current, kind, version) && IsKind(kind)
    ensures BumpDenoJsonVersion(deno, version).Ok?
    ensures Reads(g, BumpDenoJsonVersion(deno, version).value, version) <==> ReadsMatch(deno)
  {
    NextReleaseReadsIff(g, deno, current, kind, version);
    BumpChanges(current, kind, version);
    if ReadsMatch(deno) {
      VersionHoldsNoQuote(current);
      ReadMatchIsWhole(g, deno, current);
    }
  }

  /** While the matched field is the one that is read, successive releases by kind rise. */
  lemma ReleasesRise(g: J.Grammar, deno: string, current: string, kind1: string, v1: string, next: string, kind2: string, v2: string)
    requires Reads(g, deno, current) && Locate(VERSION_FIELD, deno).Some? && ReadsMatch(deno)
    requires Resolved(current, kind1, v1) && IsKind(kind1)
    requires
      var once := BumpDenoJsonVersion(deno, v1);
      once.Ok? ==> Reads(g, once.value, next)
    requires Resolved(next, kind2, v2) && IsKind(kind2)
    ensures next == v1 && Parse(v1).Some? && Parse(v2).Some? && Less(Parse(v1).value, Parse(v2).value)
  {
    NextReleaseReadsBumpIff(g, deno, current, kind1, v1);
    J.UnitsInjective(next, v1);
    BumpChanges(next, kind2, v2);
  }

  /** Otherwise the next release reads what this one read, if the text still parses, and resolves the same version again. */
  lemma StuckRelease(g: J.Grammar, deno: string, current: string, kind: string, version: string)
    requires Reads(g, deno, current) && Locate(VERSION_FIELD, deno).Some? && !ReadsMatch(deno)
    requires Resolved(current, kind, version)
    ensures BumpDenoJsonVersion(deno, version).Ok?
    ensures
      var once := BumpDenoJsonVersion(deno, version).value;
      && (J.IsJson(g, once) <==> WholeMatch(deno))
      && (J.IsJson(g, once) ==> Reads(g, once, current))
  {
    ResolvedSettable(current, kind, version);
    StableDotted(version);
    DottedLiteral(version);
    BumpReads(g, deno, version);
  }

  /** A version field in a nested object comes first: `{"a":{"version":"x"},"version":"y"}` stays at `y` for ever. */
  lemma NestedVersionSticks(g: J.Grammar, x: string, current: string, kind: string, version: string)
    requires J.Literal(x) && J.Literal(current) && Resolved(current, kind, version)
    requires forall a :: g(J.Kinds(NestedTokens(a, current)))
    ensures Reads(g, Nested(x, current), current)
    ensures BumpDenoJsonVersion(Nested(x, current), version) == Ok(Nested(version, current))
    ensures Reads(g, Nested(version, current), current)
  {
    ResolvedSettable(current, kind, version);
    StableDotted(version);
    DottedLiteral(version);
    NestedReads(g, x, current);
    NestedReads(g, version, current);
    NestedBumped(x, current, version);
  }

  // ----- Versions hold no quote -----

  lemma {:induction false} JoinedHoldsNoQuote(ids: seq<string>)
    requires Identifiers(ids)
    ensures '"' !in JoinDots(ids)
  {
    if ids != [] {
      assert Identifier(ids[0]);
      JoinedHoldsNoQuote(ids[1..]);
    }
  }

  lemma VersionHoldsNoQuote(s: string)
    requires Parse(s).Some?
    ensures '"' !in s
  {
    var x, y, z := VersionParts(s);
    JoinedHoldsNoQuote(Parse(s).value.prerelease);
    DigitsHoldNoQuote(x);
    DigitsHoldNoQuote(y);
    DigitsHoldNoQuote(z);
    NoQuoteJoined(x, y, z, Suffix(Parse(s).value.prerelease));
  }

  lemma NoQuoteJoined(x: string, y: string, z: string, suffix: string)
    requires '"' !in x && '"' !in y && '"' !in z && '"' !in suffix
    ensures '"' !in x + "." + y + "." + (z + suffix)
  {}

  lemma DigitsHoldNoQuote(s: string)
    requires Digits(s)
    ensures '"' !in s
  {}
}
