/**
 * The `"version"` field of deno.json: replaced in the source text, at its first occurrence.
 */
module DenoVersion {
  import opened Prelude
  import opened VersionText

  function Spaces(s: string): (n: nat)
    ensures n <= |s|
    ensures forall i :: 0 <= i < n ==> IsSpace(s[i])
    ensures n < |s| ==> !IsSpace(s[n])
  {
    if s != "" && IsSpace(s[0]) then 1 + Spaces(s[1..]) else 0
  }

  /** The position after blanks and the character `c`; 0 if they are not there. */
  function Skip(s: string, from: nat, c: char): (n: nat)
    requires from <= |s|
    ensures n > 0 ==> from < n <= |s| && s[n - 1] == c
  {
    var i := from + Spaces(s[from..]);
    if i < |s| && s[i] == c then i + 1 else 0
  }

  /** The length of the quoted name, blanks, a colon, blanks and a quote at the start of the text; 0 if it is not there. */
  function HeadLength(name: string, s: string): (h: nat)
    ensures h > 0 ==> |name| + 2 <= h <= |s| && s[h - 1] == '"'
  {
    if !(name <= s) || Skip(s, |name|, ':') == 0 then 0 else Skip(s, Skip(s, |name|, ':'), '"')
  }

  /** Where a match starts, where its value starts, and where the closing quote is. */
  datatype Match = Match(start: nat, open: nat, close: nat)

  /** A match at the start of the text. */
  function MatchHere(name: string, s: string): (m: Option<Match>)
    ensures m.Some? ==> m.value.start == 0 && |name| + 2 <= m.value.open <= m.value.close < |s|
  {
    var h := HeadLength(name, s);
    if h == 0 || Find(s[h..], '"') == |s| - h then None else Some(Match(0, h, h + Find(s[h..], '"')))
  }

  function Shift(m: Match): Match {
    Match(m.start + 1, m.open + 1, m.close + 1)
  }

  /** The leftmost match. */
  function Locate(name: string, s: string): (m: Option<Match>)
    ensures m.Some? ==> m.value.start + |name| + 2 <= m.value.open <= m.value.close < |s|
  {
    if MatchHere(name, s).Some? then MatchHere(name, s)
    else if s == "" then None
    else
      match Locate(name, s[1..])
      case None => None
      case Some(m) => Some(Shift(m))
  }

  /** Replaces the first match by `$1version$2`: its first group ends at the opening quote, its second is the closing quote. */
  function BumpField(name: string, source: string, version: string): Result<string, string> {
    match Locate(name, source)
    case None => Err("Could not find a \"version\" field in deno.json")
    case Some(m) => Ok(ReplaceMatch(source, m, version))
  }

  function ReplaceMatch(source: string, m: Match, version: string): string
    requires m.start <= m.open <= m.close < |source|
  {
    var before, after := source[..m.start], source[m.close + 1..];
    before
    + Expand("$1" + version + "$2", source[m.start..m.close + 1], before, after, [source[m.start..m.open], "\""])
    + after
  }

  /** The version in the first match, which need not be the one `JSON.parse` reads. */
  function FieldVersion(name: string, s: string): Option<string> {
    match Locate(name, s)
    case None => None
    case Some(m) => Some(s[m.open..m.close])
  }

  // A version that starts with a digit does not merge with `$1`: there is no group 10 or above.
  lemma ExpandField(version: string, matched: string, before: string, after: string, head: string)
    requires '$' !in version
    ensures Expand("$1" + version + "$2", matched, before, after, [head, "\""]) == head + version + "\""
  {
    var groups := [head, "\""];
    var template := "$1" + version + "$2";
    assert template[0] == '$' && template[1] == '1' && template[2..] == version + "$2";
    assert version == "" ==> template[2] == '$';
    ExpandLiteral(version, "$2", matched, before, after, groups);
    assert "$2"[2..] == "";
    assert Expand("$2", matched, before, after, groups) == "\"" + "";
    Associate(head, version, "\"");
  }

  /** The text around the field's version, with another version in between. */
  function SetVersion(name: string, s: string, version: string): string
    requires Locate(name, s).Some?
  {
    SetAt(s, Locate(name, s).value, version)
  }

  function SetAt(s: string, m: Match, version: string): string
    requires m.open <= m.close < |s|
  {
    s[..m.open] + version + s[m.close..]
  }

  /** The value of a match stands between two quotes and holds none. */
  ghost predicate QuotedAt(s: string, m: Match) {
    && 0 < m.open <= m.close < |s|
    && s[m.open - 1] == '"' && s[m.close] == '"'
    && Find(s[m.open..], '"') == m.close - m.open
  }

  lemma QuotedShift(s: string, m: Match)
    requires s != "" && QuotedAt(s[1..], m)
    ensures QuotedAt(s, Shift(m))
  {
    assert s[1..][m.open..] == s[m.open + 1..];
  }

  lemma {:induction false} LocatedQuotes(name: string, s: string)
    requires Locate(name, s).Some?
    ensures QuotedAt(s, Locate(name, s).value)
  {
    if MatchHere(name, s).None? {
      LocatedQuotes(name, s[1..]);
      QuotedShift(s, Locate(name, s[1..]).value);
    }
  }

  lemma ExpandedMatch(s: string, m: Match, version: string)
    requires '$' !in version
    requires m.start <= m.open <= m.close < |s| && s[m.close] == '"'
    ensures ReplaceMatch(s, m, version) == SetAt(s, m, version)
  {
    ExpandField(version, s[m.start..m.close + 1], s[..m.start], s[m.close + 1..], s[m.start..m.open]);
    assert s[..m.open] == s[..m.start] + s[m.start..m.open];
    assert s[m.close..] == "\"" + s[m.close + 1..];
    Regroup(s[..m.start], s[m.start..m.open], version, "\"", s[m.close + 1..]);
  }

  lemma BumpSetsField(name: string, s: string, version: string)
    requires '$' !in version
    ensures Locate(name, s).None? ==> BumpField(name, s, version).Err?
    ensures Locate(name, s).Some? ==> BumpField(name, s, version) == Ok(SetVersion(name, s, version))
  {
    if Locate(name, s).Some? {
      LocatedQuotes(name, s);
      ExpandedMatch(s, Locate(name, s).value, version);
    }
  }

  lemma Regroup(a: string, b: string, v: string, q: string, c: string)
    ensures a + (b + v + q) + c == (a + b) + v + (q + c)
  {}

  // ----- The field is found again where it was -----

  lemma {:induction false} SpacesAgree(s: string, r: string)
    requires Spaces(s) < |s| && Spaces(s) < |r| && r[..Spaces(s) + 1] == s[..Spaces(s) + 1]
    ensures Spaces(r) == Spaces(s)
  {
    if IsSpace(s[0]) {
      assert r[0] == r[..Spaces(s) + 1][0] == s[0];
      assert r[1..][..Spaces(s)] == r[..Spaces(s) + 1][1..] == s[..Spaces(s) + 1][1..] == s[1..][..Spaces(s)];
      SpacesAgree(s[1..], r[1..]);
    } else {
      assert r[0] == r[..1][0] == s[0];
    }
  }

  lemma SkipAgrees(s: string, r: string, from: nat, c: char)
    requires from <= |s| && from <= |r|
    requires 0 < Skip(s, from, c) <= |r| && r[..Skip(s, from, c)] == s[..Skip(s, from, c)]
    ensures Skip(r, from, c) == Skip(s, from, c)
  {
    var n := Skip(s, from, c);
    assert s[from..][..n - from] == s[..n][from..] == r[..n][from..] == r[from..][..n - from];
    SpacesAgree(s[from..], r[from..]);
    assert r[n - 1] == r[..n][n - 1] == s[..n][n - 1];
  }

  /** A head depends on its own characters only. */
  lemma HeadAgrees(name: string, s: string, r: string)
    requires HeadLength(name, s) > 0 && HeadLength(name, s) <= |r| && r[..HeadLength(name, s)] == s[..HeadLength(name, s)]
    ensures HeadLength(name, r) == HeadLength(name, s)
  {
    var h, i := HeadLength(name, s), Skip(s, |name|, ':');
    assert r[..|name|] == r[..h][..|name|] == s[..h][..|name|] == s[..|name|];
    assert r[..i] == r[..h][..i] == s[..h][..i] == s[..i];
    SkipAgrees(s, r, |name|, ':');
    SkipAgrees(s, r, i, '"');
  }

  lemma SkipQuotes(s: string, from: nat, c: char, k: nat)
    requires from <= |s| && from <= k < Skip(s, from, c) - 1
    ensures s[k] != '"'
  {
    assert s[k] == s[from..][k - from];
  }

  /** Between the name and the value's opening quote a head holds no quote. */
  lemma HeadQuotes(name: string, s: string, k: nat)
    requires |name| <= k && k + 1 < HeadLength(name, s)
    ensures s[k] != '"'
  {
    var i := Skip(s, |name|, ':');
    if k < i - 1 {
      SkipQuotes(s, |name|, ':', k);
    } else if k >= i {
      SkipQuotes(s, i, '"', k);
    }
  }

  /** `r` is `s` with another value in the field, and from its closing quote on any `rest`. */
  ghost predicate Replaced(s: string, m: Match, r: string, version: string, rest: string) {
    && m.open <= m.close < |s| && m.open <= |r|
    && r[..m.open] == s[..m.open]
    && r[m.open..] == version + rest
    && rest != "" && rest[0] == '"'
  }

  /** The same match around a value of another length. */
  function Resized(m: Match, length: nat): Match {
    Match(m.start, m.open, m.open + length)
  }

  lemma ResizedShift(m: Match, length: nat)
    ensures Resized(Shift(m), length) == Shift(Resized(m, length))
  {}

  /** The field is found again, with its new extent. */
  lemma {:induction false} LocateAgain(name: string, s: string, m: Match, r: string, version: string, rest: string)
    requires Locate(name, s) == Some(m) && Replaced(s, m, r, version, rest) && '"' !in version
    ensures Locate(name, r) == Some(Resized(m, |version|))
  {
    if MatchHere(name, s).Some? {
      LocatedQuotes(name, s);
      LocateAgainHere(name, s, m, r, version, rest);
      LocateHere(name, r, m, |version|);
    } else {
      var n := LocateTail(name, s);
      ReplacedTail(s, n, r, version, rest);
      LocateAgain(name, s[1..], n, r[1..], version, rest);
      LocatedQuotes(name, s);
      NoEarlierReplaced(name, s, m, r, version, rest);
      LocateLater(name, r, n, |version|);
    }
  }

  lemma NoEarlierReplaced(name: string, s: string, m: Match, r: string, version: string, rest: string)
    requires MatchHere(name, s).None? && |name| + 3 <= m.open && QuotedAt(s, m) && Replaced(s, m, r, version, rest)
    ensures MatchHere(name, r).None?
  {
    NoEarlierMatch(name, s, r, m.open);
  }

  lemma LocateLater(name: string, r: string, n: Match, length: nat)
    requires r != "" && MatchHere(name, r).None? && Locate(name, r[1..]) == Some(Resized(n, length))
    ensures Locate(name, r) == Some(Resized(Shift(n), length))
  {
    LocateStep(name, r, Resized(n, length));
    ResizedShift(n, length);
  }

  /** A match that is not at the start of the text is the match of the rest. */
  lemma LocateTail(name: string, s: string) returns (n: Match)
    requires Locate(name, s).Some? && MatchHere(name, s).None?
    ensures s != "" && Locate(name, s[1..]) == Some(n) && Locate(name, s).value == Shift(n)
    ensures |name| + 2 <= n.open <= n.close < |s| - 1
  {
    n := Locate(name, s[1..]).value;
  }

  lemma LocateAgainHere(name: string, s: string, m: Match, r: string, version: string, rest: string)
    requires MatchHere(name, s) == Some(m)
    requires Replaced(s, m, r, version, rest) && '"' !in version
    ensures HeadLength(name, r) == m.open > 0
    ensures Find(r[m.open..], '"') == |version| < |r| - m.open
  {
    ValueEnds(version, rest);
    assert |r| - m.open == |version + rest|;
    assert HeadLength(name, s) == m.open;
    HeadAgrees(name, s, r);
  }

  lemma ReplacedTail(s: string, n: Match, r: string, version: string, rest: string)
    requires Replaced(s, Shift(n), r, version, rest)
    ensures r != "" && Replaced(s[1..], n, r[1..], version, rest)
  {
    var m := Shift(n);
    assert r[1..][..n.open] == r[..m.open][1..] == s[..m.open][1..] == s[1..][..n.open];
    assert r[1..][n.open..] == r[m.open..];
  }

  lemma ValueEnds(version: string, rest: string)
    requires '"' !in version && rest != "" && rest[0] == '"'
    ensures Find(version + rest, '"') == |version| < |version + rest|
  {
    assert (version + rest)[..|version|] == version;
    FindUnique(version + rest, '"', |version|);
  }

  lemma LocateHere(name: string, s: string, m: Match, length: nat)
    requires m.start == 0 && HeadLength(name, s) == m.open > 0 && Find(s[m.open..], '"') == length < |s| - m.open
    ensures Locate(name, s) == Some(Resized(m, length))
  {}

  lemma LocateStep(name: string, s: string, m: Match)
    requires s != "" && MatchHere(name, s).None? && Locate(name, s[1..]) == Some(m)
    ensures Locate(name, s) == Some(Shift(m))
  {}

  lemma SplicedParts(s: string, open: nat, version: string, rest: string)
    requires open <= |s|
    ensures
      var r := s[..open] + version + rest;
      && r[..open] == s[..open]
      && r[open..] == version + rest
      && r[open..open + |version|] == version
      && r[open + |version|..] == rest
  {}

  /** A text that agrees with `s` up to a match further on does not match at its start either. */
  lemma NoEarlierMatch(name: string, s: string, r: string, open: nat)
    requires MatchHere(name, s).None? && |name| + 3 <= open < |s| && open <= |r| && r[..open] == s[..open]
    requires s[open - 1] == '"' && Find(s[open..], '"') < |s| - open
    ensures MatchHere(name, r).None?
  {
    var h := HeadLength(name, r);
    if h > 0 {
      if h <= open {
        assert s[..h] == s[..open][..h] == r[..open][..h] == r[..h];
        HeadAgrees(name, r, s);
        LaterQuote(s, h, open);
      } else {
        assert r[open - 1] == r[..open][open - 1] == s[..open][open - 1];
        HeadQuotes(name, r, open - 1);
      }
    }
  }

  lemma LaterQuote(s: string, h: nat, open: nat)
    requires h <= open < |s| && Find(s[open..], '"') < |s| - open
    ensures Find(s[h..], '"') < |s| - h
  {
    var k := open + Find(s[open..], '"');
    assert s[k] == s[open..][k - open] && s[h..][k - h] == s[k];
  }

  /** The first match holds the written version. */
  ghost predicate ReadsBack(name: string, s: string, version: string) {
    BumpField(name, s, version).Ok? && FieldVersion(name, BumpField(name, s, version).value) == Some(version)
  }

  /** Writing another version over the first one is writing it once. */
  ghost predicate FieldOverwrites(name: string, s: string, v1: string, v2: string) {
    BumpField(name, s, v1).Ok? && BumpField(name, BumpField(name, s, v1).value, v2) == BumpField(name, s, v2)
  }

  /** What a second bump sees: a value that ends at the first quote, and the text from that quote on. */
  lemma SecondBump(name: string, s: string, value: string, rest: string, v2: string)
    requires Locate(name, s).Some? && '"' !in value && rest != "" && rest[0] == '"' && '$' !in v2
    ensures
      var open := Locate(name, s).value.open;
      var r := s[..open] + value + rest;
      && FieldVersion(name, r) == Some(value)
      && BumpField(name, r, v2) == Ok(s[..open] + v2 + rest)
  {
    var m := Locate(name, s).value;
    var r := s[..m.open] + value + rest;
    SplicedParts(s, m.open, value, rest);
    LocateAgain(name, s, m, r, value, rest);
    BumpSetsField(name, r, v2);
  }

  lemma QuoteSplit(version: string) returns (value: string, rest: string)
    requires '"' in version
    ensures version == value + rest && '"' !in value && rest != "" && rest[0] == '"'
  {
    var i := Find(version, '"');
    value, rest := version[..i], version[i..];
  }

  lemma WithQuote(name: string, s: string, v1: string, v2: string)
    requires '$' !in v1 && '$' !in v2 && '"' in v1 && Locate(name, s).Some?
    ensures !ReadsBack(name, s, v1) && !FieldOverwrites(name, s, v1, v2)
  {
    var m := Locate(name, s).value;
    var value, rest := QuoteSplit(v1);
    BumpSetsField(name, s, v1);
    BumpSetsField(name, s, v2);
    SecondBump(name, s, value, rest + s[m.close..], v2);
    assert s[..m.open] + v1 + s[m.close..] == s[..m.open] + value + (rest + s[m.close..]);
    assert |s[..m.open] + v2 + (rest + s[m.close..])| > |s[..m.open] + v2 + s[m.close..]|;
  }

  lemma WithoutQuote(name: string, s: string, v1: string, v2: string)
    requires '$' !in v1 && '$' !in v2 && '"' !in v1 && Locate(name, s).Some?
    ensures ReadsBack(name, s, v1) && FieldOverwrites(name, s, v1, v2)
  {
    LocatedQuotes(name, s);
    BumpSetsField(name, s, v1);
    BumpSetsField(name, s, v2);
    SecondBump(name, s, v1, s[Locate(name, s).value.close..], v2);
  }

  const VERSION_FIELD := "\"version\""

  function BumpDenoJsonVersion(source: string, version: string): Result<string, string> {
    BumpField(VERSION_FIELD, source, version)
  }

  /** On every text with the field, the first match holds the written version exactly when that holds no quote. */
  lemma WrittenReadsBackIff(s: string, version: string)
    requires '$' !in version && Locate(VERSION_FIELD, s).Some?
    ensures BumpDenoJsonVersion(s, version).Ok?
    ensures FieldVersion(VERSION_FIELD, BumpDenoJsonVersion(s, version).value) == Some(version) <==> '"' !in version
  {
    BumpSetsField(VERSION_FIELD, s, version);
    if '"' in version { WithQuote(VERSION_FIELD, s, version, ""); } else { WithoutQuote(VERSION_FIELD, s, version, ""); }
  }

  /** On every text with the field, and for every next version, the last write wins exactly when the first holds no quote. */
  lemma FieldLastWriteWinsIff(s: string, v1: string, v2: string)
    requires '$' !in v1 && '$' !in v2 && Locate(VERSION_FIELD, s).Some?
    ensures BumpDenoJsonVersion(s, v1).Ok?
    ensures BumpDenoJsonVersion(BumpDenoJsonVersion(s, v1).value, v2) == BumpDenoJsonVersion(s, v2) <==> '"' !in v1
  {
    BumpSetsField(VERSION_FIELD, s, v1);
    if '"' in v1 { WithQuote(VERSION_FIELD, s, v1, v2); } else { WithoutQuote(VERSION_FIELD, s, v1, v2); }
  }
}
