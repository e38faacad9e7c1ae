/**
 * The next release version, and precedence as in section 11 of Semantic Versioning 2.0.0.
 */
module SemVer {
  import opened Prelude

  predicate Digits(s: string) {
    s != "" && forall i :: 0 <= i < |s| ==> IsDigit(s[i])
  }

  function FormatNat(n: nat): (s: string)
    ensures Digits(s)
  {
    var last := [(n % 10 + '0' as int) as char];
    if n < 10 then last else FormatNat(n / 10) + last
  }

  lemma {:induction false} FormatParses(n: nat)
    ensures ParseNat(FormatNat(n)) == n
  {
    var s := FormatNat(n);
    if n < 10 {
      assert s[..|s| - 1] == "";
    } else {
      FormatParses(n / 10);
      assert s[..|s| - 1] == FormatNat(n / 10);
    }
  }

  // ----- Reading a version -----

  /** An identifier of a prerelease: numeric, or compared as text. */
  datatype Version = Version(major: nat, minor: nat, patch: nat, prerelease: seq<string>)

  /** A digit run followed by a dot; the rest comes after the dot. */
  function Number(s: string): Option<(nat, string)> {
    var n := DigitRun(s);
    if n == 0 || n == |s| || s[n] != '.' then None else Some((ParseNat(s[..n]), s[n + 1..]))
  }

  predicate IdentifierChar(c: char) {
    IsDigit(c) || 'A' <= c <= 'Z' || 'a' <= c <= 'z' || c == '-'
  }

  predicate Identifier(s: string) {
    s != "" && forall i :: 0 <= i < |s| ==> IdentifierChar(s[i])
  }

  /** The pieces between dots. */
  function SplitDots(s: string): seq<string> {
    var i := Find(s, '.');
    if i == |s| then [s] else [s[..i]] + SplitDots(s[i + 1..])
  }

  /** What may follow the patch number: nothing, or a hyphen and dot-separated identifiers. */
  function Prerelease(s: string): Option<seq<string>> {
    if s == "" then Some([])
    else if s[0] != '-' then None
    else
      var ids := SplitDots(s[1..]);
      if forall i :: 0 <= i < |ids| ==> Identifier(ids[i]) then Some(ids) else None
  }

  /** The pattern `^(\d+)\.(\d+)\.(\d+)(?:-ids)?$`. */
  function Parse(s: string): Option<Version> {
    match Number(s)
    case None => None
    case Some((major, s1)) =>
      match Number(s1)
      case None => None
      case Some((minor, s2)) =>
        var n := DigitRun(s2);
        var pre := Prerelease(s2[n..]);
        if n == 0 || pre.None? then None
        else Some(Version(major, minor, ParseNat(s2[..n]), pre.value))
  }

  /** The pattern `^\d+\.\d+\.\d+$`. */
  predicate Stable(s: string) {
    Parse(s).Some? && Parse(s).value.prerelease == []
  }

  function Core(major: nat, minor: nat, patch: nat): string {
    FormatNat(major) + "." + FormatNat(minor) + "." + FormatNat(patch)
  }

  /** `getNewVersion`. */
  function GetNewVersion(current: string, kind: string): Result<string, string> {
    if Stable(kind) then Ok(kind)
    else
      match Parse(current)
      case None => Err("Invalid current version format: " + current)
      case Some(v) =>
        if kind == "major" then Ok(Core(v.major + 1, 0, 0))
        else if kind == "minor" then Ok(Core(v.major, v.minor + 1, 0))
        else if kind == "patch" then Ok(if '-' in current then Core(v.major, v.minor, v.patch) else Core(v.major, v.minor, v.patch + 1))
        else Err("Invalid version argument: " + kind)
  }

  // ----- Precedence -----

  /** ASCII order of identifiers that are not both numeric. */
  predicate TextLess(a: string, b: string) {
    b != "" && (a == "" || a[0] < b[0] || (a[0] == b[0] && TextLess(a[1..], b[1..])))
  }

  /** Numbers compare as numbers and come before text; text compares character by character. */
  predicate IdentifierLess(a: string, b: string) {
    if Digits(a) && Digits(b) then ParseNat(a) < ParseNat(b)
    else if Digits(a) then true
    else if Digits(b) then false
    else TextLess(a, b)
  }

  /** From the first differing identifier; a shorter list with an equal start comes first. */
  predicate IdentifiersLess(a: seq<string>, b: seq<string>) {
    b != [] && (a == [] || IdentifierLess(a[0], b[0]) || (!IdentifierLess(b[0], a[0]) && IdentifiersLess(a[1..], b[1..])))
  }

  /** A prerelease comes before its release; otherwise identifiers decide. */
  predicate PrereleaseLess(a: seq<string>, b: seq<string>) {
    a != [] && (b == [] || IdentifiersLess(a, b))
  }

  predicate Less(a: Version, b: Version) {
    if a.major != b.major then a.major < b.major
    else if a.minor != b.minor then a.minor < b.minor
    else if a.patch != b.patch then a.patch < b.patch
    else PrereleaseLess(a.prerelease, b.prerelease)
  }

  lemma {:induction false} TextLessTransitive(a: string, b: string, c: string)
    requires TextLess(a, b) && TextLess(b, c)
    ensures TextLess(a, c)
  {
    if a != "" && a[0] == b[0] == c[0] { TextLessTransitive(a[1..], b[1..], c[1..]); }
  }

  lemma {:induction false} TextTrichotomy(a: string, b: string)
    ensures !(TextLess(a, b) && TextLess(b, a))
    ensures !TextLess(a, b) && !TextLess(b, a) ==> a == b
  {
    if a != "" && b != "" {
      TextTrichotomy(a[1..], b[1..]);
      if a[0] == b[0] && a[1..] == b[1..] { assert a == [a[0]] + a[1..] && b == [b[0]] + b[1..]; }
    }
  }

  /** Identifiers that neither precede the other: equal as text, or equal as numbers. */
  predicate SameRank(a: string, b: string) {
    !IdentifierLess(a, b) && !IdentifierLess(b, a)
  }

  lemma IdentifierOrder(a: string, b: string, c: string)
    ensures !(IdentifierLess(a, b) && IdentifierLess(b, a))
    ensures IdentifierLess(a, b) && IdentifierLess(b, c) ==> IdentifierLess(a, c)
    ensures SameRank(a, b) ==> (IdentifierLess(a, c) <==> IdentifierLess(b, c)) && (IdentifierLess(c, a) <==> IdentifierLess(c, b))
  {
    TextTrichotomy(a, b);
    if TextLess(a, b) && TextLess(b, c) { TextLessTransitive(a, b, c); }
  }

  lemma {:induction false} IdentifiersOrder(a: seq<string>, b: seq<string>, c: seq<string>)
    ensures !(IdentifiersLess(a, b) && IdentifiersLess(b, a))
    ensures IdentifiersLess(a, b) && IdentifiersLess(b, c) ==> IdentifiersLess(a, c)
  {
    if a != [] && b != [] {
      IdentifierOrder(a[0], b[0], if c == [] then "" else c[0]);
      if c == [] {
        IdentifiersOrder(a[1..], b[1..], []);
      } else {
        IdentifierOrder(b[0], c[0], a[0]);
        IdentifierOrder(a[0], c[0], b[0]);
        IdentifiersOrder(a[1..], b[1..], c[1..]);
      }
    }
  }

  /** Precedence is a strict order. */
  lemma LessIsStrictOrder(a: Version, b: Version, c: Version)
    ensures !Less(a, a)
    ensures !(Less(a, b) && Less(b, a))
    ensures Less(a, b) && Less(b, c) ==> Less(a, c)
  {
    IdentifiersOrder(a.prerelease, a.prerelease, a.prerelease);
    IdentifiersOrder(a.prerelease, b.prerelease, c.prerelease);
  }

  // ----- What a bump yields -----

  lemma {:induction false} DigitRunOf(digits: string, rest: string)
    requires forall i :: 0 <= i < |digits| ==> IsDigit(digits[i])
    requires rest == "" || !IsDigit(rest[0])
    ensures DigitRun(digits + rest) == |digits|
  {
    if digits == "" {
      assert digits + rest == rest;
    } else {
      assert (digits + rest)[1..] == digits[1..] + rest;
      DigitRunOf(digits[1..], rest);
    }
  }

  lemma NumberReads(n: nat, rest: string)
    ensures Number(FormatNat(n) + ("." + rest)) == Some((n, rest))
  {
    var digits, s := FormatNat(n), FormatNat(n) + ("." + rest);
    DigitRunOf(digits, "." + rest);
    FormatParses(n);
    assert s[..|digits|] == digits && s[|digits| + 1..] == rest;
  }

  lemma PatchReads(s: string, n: nat)
    requires s == FormatNat(n)
    ensures DigitRun(s) == |s| > 0 && ParseNat(s[..|s|]) == n && Prerelease(s[|s|..]) == Some([])
  {
    assert s + "" == s && s[..|s|] == s && s[|s|..] == "";
    DigitRunOf(s, "");
    FormatParses(n);
  }

  lemma ParseSteps(s: string, major: nat, s1: string, minor: nat, s2: string, patch: nat)
    requires Number(s) == Some((major, s1)) && Number(s1) == Some((minor, s2))
    requires DigitRun(s2) == |s2| > 0 && ParseNat(s2[..|s2|]) == patch && Prerelease(s2[|s2|..]) == Some([])
    ensures Parse(s) == Some(Version(major, minor, patch, []))
  {}

  /** A written version reads back as itself. */
  lemma CoreParses(major: nat, minor: nat, patch: nat)
    ensures Parse(Core(major, minor, patch)) == Some(Version(major, minor, patch, []))
  {
    var s2 := FormatNat(patch);
    var s1 := FormatNat(minor) + ("." + s2);
    Regroup(FormatNat(major), FormatNat(minor), s2);
    NumberReads(major, s1);
    NumberReads(minor, s2);
    PatchReads(s2, patch);
    ParseSteps(FormatNat(major) + ("." + s1), major, s1, minor, s2, patch);
  }

  lemma Regroup(a: string, b: string, c: string)
    ensures a + "." + b + "." + c == a + ("." + (b + ("." + c)))
  {}

  lemma NumberHasNoHyphen(s: string)
    requires Number(s).Some?
    ensures '-' in s <==> '-' in Number(s).value.1
  {
    var n := DigitRun(s);
    assert s == s[..n] + [s[n]] + s[n + 1..];
    assert '-' !in s[..n];
  }

  /** The code's hyphen test recognises exactly the prereleases. */
  lemma HyphenIffPrerelease(s: string)
    requires Parse(s).Some?
    ensures '-' in s <==> Parse(s).value.prerelease != []
  {
    var s1 := Number(s).value.1;
    var s2 := Number(s1).value.1;
    NumberHasNoHyphen(s);
    NumberHasNoHyphen(s1);
    PatchHyphen(s2);
  }

  lemma PatchHyphen(s: string)
    ensures
      var pre := Prerelease(s[DigitRun(s)..]);
      pre.Some? ==> ('-' in s <==> pre.value != [])
  {
    var n := DigitRun(s);
    assert s == s[..n] + s[n..];
    assert '-' !in s[..n];
  }

  ghost predicate StableAbove(v: Version, w: Version) {
    w.prerelease == [] && Less(v, w)
  }

  /** What kind of step from `v` to `u` is asked for: any step up, a larger major, or a larger major-minor pair. */
  ghost predicate Raises(kind: string, v: Version, u: Version) {
    && (kind == "major" ==> u.major > v.major)
    && (kind == "minor" ==> u.major > v.major || (u.major == v.major && u.minor > v.minor))
  }

  /** `w` is the least stable version above `v` that raises what is asked for. */
  ghost predicate Least(kind: string, v: Version, w: Version) {
    && StableAbove(v, w) && Raises(kind, v, w)
    && forall u :: StableAbove(v, u) && Raises(kind, v, u) ==> u == w || Less(w, u)
  }

  /**
   * A bump yields a stable version strictly above the current one: the least of all for `patch`, the
   * least with a larger major or a larger major-minor pair for the others.
   */
  lemma BumpIsLeast(current: string, kind: string)
    requires Parse(current).Some?
    requires kind == "major" || kind == "minor" || kind == "patch"
    ensures
      var v := Parse(current).value;
      && GetNewVersion(current, kind).Ok?
      && Parse(GetNewVersion(current, kind).value).Some?
      && Least(kind, v, Parse(GetNewVersion(current, kind).value).value)
  {
    var v := Parse(current).value;
    HyphenIffPrerelease(current);
    WordsAreNotVersions(kind);
    CoreParses(v.major + 1, 0, 0);
    CoreParses(v.major, v.minor + 1, 0);
    CoreParses(v.major, v.minor, v.patch);
    CoreParses(v.major, v.minor, v.patch + 1);
    NextVersion(kind, v);
  }

  lemma WordsAreNotVersions(kind: string)
    requires kind == "major" || kind == "minor" || kind == "patch"
    ensures !Stable(kind)
  {
    assert !IsDigit(kind[0]);
    assert DigitRun(kind) == 0;
  }

  lemma NextVersion(kind: string, v: Version)
    requires kind == "major" || kind == "minor" || kind == "patch"
    ensures kind == "major" ==> Least(kind, v, Version(v.major + 1, 0, 0, []))
    ensures kind == "minor" ==> Least(kind, v, Version(v.major, v.minor + 1, 0, []))
    ensures kind == "patch" && v.prerelease == [] ==> Least(kind, v, Version(v.major, v.minor, v.patch + 1, []))
    ensures kind == "patch" && v.prerelease != [] ==> Least(kind, v, Version(v.major, v.minor, v.patch, []))
  {}

  // ----- Exactly which texts are versions -----

  function JoinDots(ids: seq<string>): string {
    if ids == [] then "" else if |ids| == 1 then ids[0] else ids[0] + "." + JoinDots(ids[1..])
  }

  function Suffix(ids: seq<string>): string {
    if ids == [] then "" else "-" + JoinDots(ids)
  }

  predicate Identifiers(ids: seq<string>) {
    forall i :: 0 <= i < |ids| ==> Identifier(ids[i])
  }

  lemma {:induction false} SplitJoined(ids: seq<string>)
    requires ids != [] && Identifiers(ids)
    ensures SplitDots(JoinDots(ids)) == ids
  {
    IdentifierHoldsNoDot(ids[0]);
    if |ids| == 1 {
      SplitWhole(ids[0]);
      assert ids == [ids[0]];
    } else {
      SplitJoined(ids[1..]);
      SplitCons(ids[0], ids[1..]);
      assert ids == [ids[0]] + ids[1..];
    }
  }

  lemma SplitCons(id: string, rest: seq<string>)
    requires '.' !in id && rest != [] && SplitDots(JoinDots(rest)) == rest
    ensures SplitDots(JoinDots([id] + rest)) == [id] + rest
  {
    assert ([id] + rest)[1..] == rest;
    SplitFirst(id, JoinDots(rest));
  }

  lemma IdentifierHoldsNoDot(id: string)
    requires Identifier(id)
    ensures '.' !in id
  {}

  lemma SplitWhole(id: string)
    requires '.' !in id
    ensures SplitDots(id) == [id]
  {
    FindUnique(id, '.', |id|);
  }

  lemma SplitFirst(id: string, rest: string)
    requires '.' !in id
    ensures SplitDots(id + "." + rest) == [id] + SplitDots(rest)
  {
    var s := id + "." + rest;
    assert s[..|id|] == id && s[|id| + 1..] == rest;
    FindUnique(s, '.', |id|);
  }

  lemma {:induction false} JoinSplit(s: string)
    ensures SplitDots(s) != [] && JoinDots(SplitDots(s)) == s
    decreases |s|
  {
    var i := Find(s, '.');
    if i < |s| {
      JoinSplit(s[i + 1..]);
      assert SplitDots(s)[1..] == SplitDots(s[i + 1..]);
      assert s == s[..i] + "." + s[i + 1..];
    }
  }

  lemma NumberOf(digits: string, rest: string)
    requires Digits(digits)
    ensures Number(digits + ("." + rest)) == Some((ParseNat(digits), rest))
  {
    var s := digits + ("." + rest);
    DigitRunOf(digits, "." + rest);
    assert s[..|digits|] == digits && s[|digits| + 1..] == rest;
  }

  lemma PrereleaseReads(ids: seq<string>)
    requires Identifiers(ids)
    ensures Prerelease(Suffix(ids)) == Some(ids)
  {
    if ids != [] {
      SplitJoined(ids);
      assert ("-" + JoinDots(ids))[1..] == JoinDots(ids);
    }
  }

  lemma PatchOf(digits: string, ids: seq<string>)
    requires Digits(digits) && Identifiers(ids)
    ensures
      var s := digits + Suffix(ids);
      DigitRun(s) == |digits| && s[..|digits|] == digits && Prerelease(s[|digits|..]) == Some(ids)
  {
    var s := digits + Suffix(ids);
    DigitRunOf(digits, Suffix(ids));
    assert s[..|digits|] == digits && s[|digits|..] == Suffix(ids);
    PrereleaseReads(ids);
  }

  /** Three numbers, with leading zeros or not, and identifiers: the version they stand for. */
  lemma VersionReads(x: string, y: string, z: string, ids: seq<string>)
    requires Digits(x) && Digits(y) && Digits(z) && Identifiers(ids)
    ensures Parse(x + "." + y + "." + (z + Suffix(ids))) == Some(Version(ParseNat(x), ParseNat(y), ParseNat(z), ids))
  {
    var s2 := z + Suffix(ids);
    Regroup(x, y, s2);
    NumberOf(x, y + ("." + s2));
    NumberOf(y, s2);
    PatchOf(z, ids);
    ReadsParts(x + ("." + (y + ("." + s2))), y + ("." + s2), s2, x, y, z, ids);
  }

  lemma ReadsParts(s: string, s1: string, s2: string, x: string, y: string, z: string, ids: seq<string>)
    requires Digits(x) && Digits(y) && Digits(z)
    requires Number(s) == Some((ParseNat(x), s1)) && Number(s1) == Some((ParseNat(y), s2))
    requires DigitRun(s2) == |z| && s2[..|z|] == z && Prerelease(s2[|z|..]) == Some(ids)
    ensures Parse(s) == Some(Version(ParseNat(x), ParseNat(y), ParseNat(z), ids))
  {}

  lemma NumberParts(s: string) returns (digits: string)
    requires Number(s).Some?
    ensures Digits(digits) && s == digits + ("." + Number(s).value.1) && Number(s).value.0 == ParseNat(digits)
  {
    var n := DigitRun(s);
    digits := s[..n];
    assert s == s[..n] + ([s[n]] + s[n + 1..]);
  }

  lemma PrereleaseParts(s: string)
    requires Prerelease(s).Some?
    ensures Identifiers(Prerelease(s).value) && s == Suffix(Prerelease(s).value)
  {
    if s != "" {
      JoinSplit(s[1..]);
      assert s == "-" + s[1..];
    }
  }

  /** Nothing else is a version. */
  lemma VersionParts(s: string) returns (x: string, y: string, z: string)
    requires Parse(s).Some?
    ensures Digits(x) && Digits(y) && Digits(z) && Identifiers(Parse(s).value.prerelease)
    ensures s == x + "." + y + "." + (z + Suffix(Parse(s).value.prerelease))
    ensures Parse(s).value == Version(ParseNat(x), ParseNat(y), ParseNat(z), Parse(s).value.prerelease)
  {
    var s1 := Number(s).value.1;
    var s2 := Number(s1).value.1;
    x := NumberParts(s);
    y := NumberParts(s1);
    z := PatchParts(s2);
    Regroup(x, y, s2);
  }

  lemma PatchParts(s: string) returns (digits: string)
    requires DigitRun(s) > 0 && Prerelease(s[DigitRun(s)..]).Some?
    ensures digits == s[..DigitRun(s)] && Digits(digits)
    ensures
      var ids := Prerelease(s[DigitRun(s)..]).value;
      Identifiers(ids) && s == digits + Suffix(ids)
  {
    var n := DigitRun(s);
    digits := s[..n];
    PrereleaseParts(s[n..]);
    assert s == digits + s[n..];
  }

  // ----- The bump on the text -----

  /** Numbers are written without leading zeros. */
  lemma {:induction false} NoLeadingZero(n: nat)
    ensures FormatNat(n)[0] == '0' ==> n == 0 && FormatNat(n) == "0"
  {
    if n >= 10 { NoLeadingZero(n / 10); }
  }

  lemma CoreReads(a: nat, b: nat, c: nat, ids: seq<string>)
    requires Identifiers(ids)
    ensures Parse(Core(a, b, c) + Suffix(ids)) == Some(Version(a, b, c, ids))
  {
    FormatParses(a);
    FormatParses(b);
    FormatParses(c);
    VersionReads(FormatNat(a), FormatNat(b), FormatNat(c), ids);
    Associate(FormatNat(a) + "." + FormatNat(b) + ".", FormatNat(c), Suffix(ids));
  }

  predicate IsKind(kind: string) {
    kind == "major" || kind == "minor" || kind == "patch"
  }

  /** From a prerelease, `patch` releases it; `minor` and `major` step as from a stable version. */
  lemma PrereleaseBump(current: string, kind: string, a: nat, b: nat, c: nat, ids: seq<string>)
    requires ids != [] && Identifiers(ids) && current == Core(a, b, c) + ("-" + JoinDots(ids)) && IsKind(kind)
    ensures kind == "patch" ==> GetNewVersion(current, kind) == Ok(Core(a, b, c))
    ensures kind == "minor" ==> GetNewVersion(current, kind) == Ok(Core(a, b + 1, 0))
    ensures kind == "major" ==> GetNewVersion(current, kind) == Ok(Core(a + 1, 0, 0))
  {
    PrereleaseReadsBack(a, b, c, ids);
    KindBump(current, kind, Version(a, b, c, ids));
  }

  lemma PrereleaseReadsBack(a: nat, b: nat, c: nat, ids: seq<string>)
    requires ids != [] && Identifiers(ids)
    ensures Parse(Core(a, b, c) + ("-" + JoinDots(ids))) == Some(Version(a, b, c, ids))
  {
    CoreReads(a, b, c, ids);
  }

  /** From a stable version each kind steps up its number. */
  lemma StableBump(kind: string, a: nat, b: nat, c: nat)
    requires IsKind(kind)
    ensures kind == "patch" ==> GetNewVersion(Core(a, b, c), kind) == Ok(Core(a, b, c + 1))
    ensures kind == "minor" ==> GetNewVersion(Core(a, b, c), kind) == Ok(Core(a, b + 1, 0))
    ensures kind == "major" ==> GetNewVersion(Core(a, b, c), kind) == Ok(Core(a + 1, 0, 0))
  {
    CoreParses(a, b, c);
    KindBump(Core(a, b, c), kind, Version(a, b, c, []));
  }

  lemma KindBump(s: string, kind: string, v: Version)
    requires Parse(s) == Some(v) && IsKind(kind)
    ensures kind == "patch" && v.prerelease == [] ==> GetNewVersion(s, kind) == Ok(Core(v.major, v.minor, v.patch + 1))
    ensures kind == "patch" && v.prerelease != [] ==> GetNewVersion(s, kind) == Ok(Core(v.major, v.minor, v.patch))
    ensures kind == "minor" ==> GetNewVersion(s, kind) == Ok(Core(v.major, v.minor + 1, 0))
    ensures kind == "major" ==> GetNewVersion(s, kind) == Ok(Core(v.major + 1, 0, 0))
  {
    HyphenIffPrerelease(s);
    WordsAreNotVersions(kind);
  }

  /** An explicit version of three numbers is taken as it is written, whatever the current one. */
  lemma ExplicitVersion(current: string, x: string, y: string, z: string)
    requires Digits(x) && Digits(y) && Digits(z)
    ensures GetNewVersion(current, x + "." + y + "." + z) == Ok(x + "." + y + "." + z)
  {
    VersionReads(x, y, z, []);
    assert z + "" == z;
  }

  /** Anything else throws, unless it is a kind and the current version is one. */
  lemma NothingElseAccepted(current: string, kind: string)
    requires GetNewVersion(current, kind).Ok?
    ensures (Parse(current).Some? && (kind == "major" || kind == "minor" || kind == "patch")) || ThreeNumbers(kind)
  {
    if Stable(kind) {
      var x, y, z := VersionParts(kind);
      assert z + "" == z;
      assert IsThree(kind, x, y, z);
    }
  }

  predicate IsThree(s: string, x: string, y: string, z: string) {
    Digits(x) && Digits(y) && Digits(z) && s == x + "." + y + "." + z
  }

  ghost predicate ThreeNumbers(s: string) {
    exists x, y, z :: IsThree(s, x, y, z)
  }

  // ----- Precedence, rule by rule -----

  /** Section 11: numbers by value, below any other identifier; those by character; a longer list above its start. */
  lemma PrecedenceRules(v: Version, ids: seq<string>, a: string, b: string, more: seq<string>)
    requires Identifiers(ids) && Identifier(a) && Identifier(b) && more != []
    ensures ids != [] ==> Less(v.(prerelease := ids), v.(prerelease := []))
    ensures Digits(a) && Digits(b) ==>
      (Less(v.(prerelease := ids + [a]), v.(prerelease := ids + [b])) <==> ParseNat(a) < ParseNat(b))
    ensures Digits(a) && !Digits(b) ==> Less(v.(prerelease := ids + [a]), v.(prerelease := ids + [b]))
    ensures ids != [] ==> Less(v.(prerelease := ids), v.(prerelease := ids + more))
  {
    CommonStart(ids, [a], [b]);
    CommonStart(ids, [], more);
    assert ids + [] == ids;
  }

  lemma {:induction false} CommonStart(ids: seq<string>, a: seq<string>, b: seq<string>)
    ensures IdentifiersLess(ids + a, ids + b) <==> IdentifiersLess(a, b)
  {
    if ids == [] {
      assert ids + a == a && ids + b == b;
    } else {
      assert (ids + a)[1..] == ids[1..] + a && (ids + b)[1..] == ids[1..] + b;
      IdentifierOrder(ids[0], ids[0], ids[0]);
      CommonStart(ids[1..], a, b);
    }
  }
}
