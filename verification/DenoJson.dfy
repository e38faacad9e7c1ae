/**
 * What the bump of deno.json does to the version that `JSON.parse` reads from it.
 */
module DenoJson {
  import opened Prelude
  import opened JsonText
  import opened DenoVersion

  // ----- Where a match stands -----

  lemma {:induction false} MatchedHead(name: string, s: string, m: Match)
    requires Locate(name, s) == Some(m)
    ensures m.start <= |s| && HeadLength(name, s[m.start..]) == m.open - m.start > 0
  {
    if MatchHere(name, s).Some? {
      assert s[0..] == s;
    } else {
      var n := LocateTail(name, s);
      MatchedHead(name, s[1..], n);
      assert s[1..][n.start..] == s[m.start..];
    }
  }

  /** The blanks and the colon between name and value. */
  lemma HeadGap(name: string, s: string) returns (colon: nat)
    requires HeadLength(name, s) > 0
    ensures
      var h := HeadLength(name, s);
      && name <= s && |name| <= colon < h - 1 && s[colon] == ':'
      && (forall k :: colon < k < h - 1 ==> IsSpace(s[k]))
      && '"' !in s[|name|..h - 1]
  {
    var i, h := Skip(s, |name|, ':'), HeadLength(name, s);
    colon := i - 1;
    forall k | i <= k < h - 1 ensures IsSpace(s[k]) {
      assert s[k] == s[i..][k - i];
    }
    forall k | |name| <= k < h - 1 ensures s[k] != '"' { HeadQuotes(name, s, k); }
  }

  lemma NameStops(rest: string)
    ensures Lex(VERSION + rest).None?
  {
    assert (VERSION + rest)[0] == 'v';
  }

  lemma NamePlain()
    ensures '"' !in VERSION && '\\' !in VERSION && |VERSION| == 7
  {}

  /** The text can be cut behind a quoted name: between tokens, or behind a literal that ends in one. */
  lemma NameCut(before: string, rest: string)
    requires Lex(before + ("\"" + (VERSION + "\"" + rest))).Some?
    ensures Lex(before + ("\"" + (VERSION + "\""))).Some? && Lex(rest).Some?
  {
    var named := "\"" + (VERSION + "\"" + rest);
    var s := before + named;
    assert s[..|before|] == before && s[|before|..] == named;
    var open := PositionKinds(s, |before|);
    if Between(s, |before|) {
      NameBetween(before, rest);
    } else {
      var raw := WithinSplits(before, named, open);
      NameWithin(s[..open], raw, rest);
      Reassociate(s[..open], raw);
    }
  }

  lemma WithinSplits(before: string, named: string, open: nat) returns (raw: string)
    requires Within(before + named, open, |before|)
    ensures
      var s := before + named;
      && Lex(s[..open]).Some? && before == s[..open] + ("\"" + raw)
      && var inner := raw + named;
      && Close(inner).Some? && |raw| <= Close(inner).value
      && Lex(inner[Close(inner).value + 1..]).Some?
  {
    raw := before[open + 1..];
    SplitsAt(before, named, open);
    LiteralOpens(before + named, open);
    LiteralReaches(before + named, open, |before|);
  }

  lemma SplitsAt(before: string, named: string, open: nat)
    requires open < |before|
    ensures (before + named)[..open] == before[..open] && (before + named)[open] == before[open]
    ensures (before + named)[open + 1..] == before[open + 1..] + named
    ensures before == before[..open] + ([before[open]] + before[open + 1..])
  {}

  lemma LiteralReaches(s: string, open: nat, i: nat)
    requires Within(s, open, i)
    ensures Lex(s[..open]).Some? && Close(s[open + 1..]).Some? && i - open - 1 <= Close(s[open + 1..]).value
  {}

  lemma Reassociate(front: string, raw: string)
    ensures (front + ("\"" + raw)) + ("\"" + (VERSION + "\"")) == front + ("\"" + (raw + ("\"" + (VERSION + "\""))))
  {}

  lemma NameBetween(before: string, rest: string)
    requires Lex(before).Some? && Lex("\"" + (VERSION + "\"" + rest)).Some?
    ensures Lex(before + ("\"" + (VERSION + "\""))).Some? && Lex(rest).Some?
  {
    NamePlain();
    CloseAt(VERSION, rest);
    LexText(VERSION, rest);
    CloseAt(VERSION, "");
    LexText(VERSION, "");
    assert VERSION + "\"" + "" == VERSION + "\"";
    LexConcat(before, "\"" + (VERSION + "\""));
  }

  lemma LiteralOpens(s: string, open: nat)
    requires open < |s| && s[open] == '"' && Between(s, open)
    ensures Close(s[open + 1..]).Some? && Lex(s[open + 1..][Close(s[open + 1..]).value + 1..]).Some?
  {
    assert s[open..][1..] == s[open + 1..];
  }

  /** A quoted name within a literal is its end: the first quote is escaped, the second closes it. */
  lemma NameWithin(before: string, raw: string, rest: string)
    requires Lex(before).Some?
    requires
      var inner := raw + ("\"" + (VERSION + "\"" + rest));
      && Close(inner).Some? && |raw| <= Close(inner).value
      && Lex(inner[Close(inner).value + 1..]).Some?
    ensures Lex(before + ("\"" + (raw + ("\"" + (VERSION + "\""))))).Some? && Lex(rest).Some?
  {
    NameCloses(raw, rest);
    LiteralEnds(before, raw + ("\"" + VERSION), rest);
    Associate(raw, "\"" + VERSION, "\"");
    Associate("\"", VERSION, "\"");
  }

  lemma NameCloses(raw: string, rest: string)
    requires
      var inner := raw + ("\"" + (VERSION + "\"" + rest));
      && Close(inner).Some? && |raw| <= Close(inner).value
      && Lex(inner[Close(inner).value + 1..]).Some?
    ensures
      var inner, literal := raw + ("\"" + (VERSION + "\"" + rest)), raw + ("\"" + VERSION);
      inner == literal + "\"" + rest && Close(inner) == Some(|literal|) && Lex(rest).Some?
  {
    var inner, literal := raw + ("\"" + (VERSION + "\"" + rest)), raw + ("\"" + VERSION);
    assert inner[|raw| + 1..] == VERSION + "\"" + rest;
    Associate(VERSION, "\"", rest);
    NameStops("\"" + rest);
    CloseBehind(inner, |raw|);
    NamePlain();
    CloseAt(VERSION, rest);
    assert inner == literal + "\"" + rest;
    assert inner[|literal| + 1..] == rest;
  }

  lemma LiteralEnds(before: string, literal: string, rest: string)
    requires Lex(before).Some? && Close(literal + "\"" + rest) == Some(|literal|)
    ensures Lex(before + ("\"" + (literal + "\""))).Some?
  {
    var inner := literal + "\"" + rest;
    assert inner[..|literal|] == literal;
    CloseOf(inner);
    LexText(literal, "");
    assert literal + "\"" + "" == literal + "\"";
    LexConcat(before, "\"" + (literal + "\""));
  }

  // ----- The value is one token, behind a colon -----

  lemma {:induction false} BeforeFinds(ts: seq<Token>, c: nat, i: nat)
    requires c < i <= |ts| && !Blank(ts[c]) && forall k :: c < k < i ==> Blank(ts[k])
    ensures Before(ts, i) == c
  {
    if i > c + 1 { BeforeFinds(ts, c, i - 1); }
  }

  lemma SpaceOutside(c: char)
    requires IsSpace(c) && Outside(c)
    ensures JsonSpace(c)
  {}

  lemma {:induction false} LexesOutside(gap: string, k: nat)
    requires '"' !in gap && Lex(gap).Some? && k < |gap|
    ensures Outside(gap[k])
  {
    if k > 0 { LexesOutside(gap[1..], k - 1); }
  }

  /** The tokens before the text's end, the last of which that is not blank is a colon. */
  ghost predicate EndsInColon(ts: seq<Token>) {
    var c := Before(ts, |ts|);
    c >= 0 && ts[c] == Mark(':')
  }

  lemma GapEndsInColon(front: seq<Token>, gap: string, colon: nat)
    requires '"' !in gap && Lex(gap) == Some(Marks(gap))
    requires colon < |gap| && gap[colon] == ':' && forall k :: colon < k < |gap| ==> IsSpace(gap[k])
    ensures EndsInColon(front + Marks(gap))
  {
    forall k | colon < k < |gap| ensures Blank(Mark(gap[k])) {
      LexesOutside(gap, k);
      SpaceOutside(gap[k]);
    }
    BlanksBehind(front, gap, colon);
    ColonLast(front + Marks(gap), |front| + colon);
  }

  lemma ColonLast(ts: seq<Token>, c: nat)
    requires c < |ts| && ts[c] == Mark(':') && forall k :: c < k < |ts| ==> Blank(ts[k])
    ensures EndsInColon(ts)
  {
    BeforeFinds(ts, c, |ts|);
  }

  lemma BlanksBehind(front: seq<Token>, gap: string, colon: nat)
    requires colon < |gap| && forall k :: colon < k < |gap| ==> Blank(Mark(gap[k]))
    ensures
      var ts := front + Marks(gap);
      ts[|front| + colon] == Mark(gap[colon]) && forall k :: |front| + colon < k < |ts| ==> Blank(ts[k])
  {
    var ts := front + Marks(gap);
    forall k | |front| + colon < k < |ts| ensures Blank(ts[k]) { assert ts[k] == Mark(gap[k - |front|]); }
  }

  /** The text before the opening quote of the value, and the text from it on. */
  ghost predicate CutBefore(before: string, rest: string) {
    Lex(before).Some? && Lex("\"" + rest).Some? && EndsInColon(Lex(before).value)
  }

  lemma ValueCut(before: string, gap: string, colon: nat, rest: string)
    requires Lex(before + ("\"" + (VERSION + "\"" + (gap + ("\"" + rest))))).Some?
    requires '"' !in gap && colon < |gap| && gap[colon] == ':' && forall k :: colon < k < |gap| ==> IsSpace(gap[k])
    ensures CutBefore(before + ("\"" + (VERSION + "\"")) + gap, rest)
  {
    var named := before + ("\"" + (VERSION + "\""));
    NameCut(before, gap + ("\"" + rest));
    LexMarks(gap, "\"" + rest);
    LexConcat(named, gap);
    GapEndsInColon(Lex(named).value, gap, colon);
  }

  /** A matched head is the quoted name, a gap that holds blanks and a colon, and a quote. */
  lemma HeadPieces(t: string) returns (gap: string, colon: nat)
    requires HeadLength(VERSION_FIELD, t) > 0
    ensures
      var h := HeadLength(VERSION_FIELD, t);
      9 < h <= |t| && VERSION_FIELD <= t && gap == t[9..h - 1] && t[h - 1] == '"'
    ensures '"' !in gap && colon < |gap| && gap[colon] == ':' && forall k :: colon < k < |gap| ==> IsSpace(gap[k])
  {
    FieldIsQuoted();
    var h := HeadLength(VERSION_FIELD, t);
    var at := HeadGap(VERSION_FIELD, t);
    GapOf(t, 9, h - 1, at);
    gap, colon := t[9..h - 1], at - 9;
  }

  lemma GapOf(t: string, from: nat, to: nat, at: nat)
    requires from <= at < to <= |t| && t[at] == ':' && '"' !in t[from..to]
    requires forall k :: at < k < to ==> IsSpace(t[k])
    ensures
      var gap := t[from..to];
      gap[at - from] == ':' && forall k :: at - from < k < |gap| ==> IsSpace(gap[k])
  {}

  lemma MatchCut(s: string, m: Match)
    requires Lex(s).Some? && Locate(VERSION_FIELD, s) == Some(m)
    ensures 0 < m.open <= |s| && CutBefore(s[..m.open - 1], s[m.open..])
  {
    NamedMatchCut(VERSION_FIELD, s, m);
  }

  lemma NamedMatchCut(name: string, s: string, m: Match)
    requires name == VERSION_FIELD && Lex(s).Some? && Locate(name, s) == Some(m)
    ensures 0 < m.open <= |s| && CutBefore(s[..m.open - 1], s[m.open..])
  {
    MatchedHead(name, s, m);
    CutAt(s, m.start, m.open);
  }

  lemma CutAt(s: string, start: nat, open: nat)
    requires start <= |s| && Lex(s).Some? && HeadLength(VERSION_FIELD, s[start..]) == open - start > 0
    ensures open <= |s| && CutBefore(s[..open - 1], s[open..])
  {
    var gap, colon := HeadPieces(s[start..]);
    assert s[start..][open - start - 1] == s[open - 1];
    FieldIsQuoted();
    Pieces(s, start, open, gap);
    ValueCut(s[..start], gap, colon, s[open..]);
  }

  lemma FieldIsQuoted()
    ensures VERSION_FIELD == "\"" + (VERSION + "\"") && |VERSION_FIELD| == 9
  {}

  lemma Pieces(s: string, start: nat, open: nat, gap: string)
    requires start + 9 < open <= |s| && s[open - 1] == '"'
    requires |VERSION_FIELD| == 9 && VERSION_FIELD == "\"" + (VERSION + "\"")
    requires VERSION_FIELD <= s[start..] && gap == s[start..][9..open - start - 1]
    ensures s == s[..start] + ("\"" + (VERSION + "\"" + (gap + ("\"" + s[open..]))))
    ensures s[..open - 1] == s[..start] + ("\"" + (VERSION + "\"")) + gap
  {
    var t := s[start..];
    assert t[..9] == VERSION_FIELD;
    assert t == VERSION_FIELD + (gap + ("\"" + s[open..]));
    assert s == s[..start] + t;
    assert s[..open - 1] == s[..start] + t[..open - start - 1];
    assert t[..open - start - 1] == VERSION_FIELD + gap;
  }

  // ----- Another value in the token -----

  /** Token `k` is a literal behind a colon; `other` holds another literal there. */
  ghost predicate OtherLiteral(ts: seq<Token>, other: seq<Token>, k: nat) {
    && k < |ts| == |other| && ts[k].Text? && other == ts[k := other[k]] && other[k].Text?
    && Before(ts, k) >= 0 && ts[Before(ts, k)] == Mark(':')
  }

  lemma {:induction false} BeforeSame(ts: seq<Token>, other: seq<Token>, i: int)
    requires i <= |ts| == |other| && forall j :: 0 <= j < |ts| ==> Blank(ts[j]) == Blank(other[j])
    ensures Before(ts, i) == Before(other, i)
  {
    if i > 0 { BeforeSame(ts, other, i - 1); }
  }

  lemma {:induction false} DepthSame(ts: seq<Token>, other: seq<Token>, i: nat)
    requires i <= |ts| == |other| && forall j :: 0 <= j < |ts| ==> ts[j] == other[j] || (ts[j].Text? && other[j].Text?)
    ensures Depth(ts, i) == Depth(other, i)
  {
    if i > 0 { DepthSame(ts, other, i - 1); }
  }

  lemma VersionValueSame(ts: seq<Token>, other: seq<Token>, k: nat, v: nat)
    requires OtherLiteral(ts, other, k) && v < |ts|
    ensures IsVersionValue(ts, v) == IsVersionValue(other, v)
  {
    BeforeSame(ts, other, v);
    var c := Before(ts, v);
    if c >= 0 {
      BeforeSame(ts, other, c);
      var key := Before(ts, c);
      if key >= 0 {
        BeforeSame(ts, other, key);
        DepthSame(ts, other, key);
      }
    }
  }

  lemma {:induction false} LastVersionSame(ts: seq<Token>, other: seq<Token>, k: nat, n: nat)
    requires OtherLiteral(ts, other, k) && n <= |ts|
    ensures LastVersion(ts, n) == LastVersion(other, n)
  {
    if n > 0 {
      VersionValueSame(ts, other, k, n - 1);
      LastVersionSame(ts, other, k, n - 1);
    }
  }

  // ----- The bump -----

  /** The value of the match is a whole literal: its closing quote is not an escaped one. */
  predicate WholeAt(s: string, m: Match)
    requires m.open <= m.close <= |s|
  {
    Close(s[m.open..]) == Some(m.close - m.open)
  }

  /** The value of the match is the one that is read. */
  predicate ReadAt(s: string, m: Match)
    requires 0 < m.open <= |s| && Lex(s).Some?
  {
    var front := Lex(s[..m.open - 1]);
    front.Some? && VersionToken(s) == Some(|front.value|)
  }

  predicate WholeMatch(s: string)
    requires Locate(VERSION_FIELD, s).Some?
  {
    WholeAt(s, Locate(VERSION_FIELD, s).value)
  }

  predicate ReadsMatch(s: string)
    requires Locate(VERSION_FIELD, s).Some? && Lex(s).Some?
  {
    ReadAt(s, Locate(VERSION_FIELD, s).value)
  }

  /** A match, and how the text is cut before its value. */
  ghost predicate Stands(s: string, m: Match) {
    QuotedAt(s, m) && CutBefore(s[..m.open - 1], s[m.open..])
  }

  lemma MatchStands(s: string)
    requires Locate(VERSION_FIELD, s).Some? && Lex(s).Some?
    ensures Stands(s, Locate(VERSION_FIELD, s).value)
  {
    LocatedQuotes(VERSION_FIELD, s);
    MatchCut(s, Locate(VERSION_FIELD, s).value);
  }

  lemma BumpSets(s: string, version: string)
    requires Locate(VERSION_FIELD, s).Some? && '$' !in version
    ensures BumpDenoJsonVersion(s, version) == Ok(SetAt(s, Locate(VERSION_FIELD, s).value, version))
  {
    BumpSetsField(VERSION_FIELD, s, version);
  }

  lemma QuotedLexes(before: string, raw: string, rest: string)
    requires Lex(before).Some? && Lex(rest).Some? && Close(raw + "\"" + rest) == Some(|raw|)
    ensures Lex(before + ("\"" + (raw + "\"" + rest))) == Some(Lex(before).value + ([Text(raw)] + Lex(rest).value))
  {
    LexText(raw, rest);
    LexConcat(before, "\"" + (raw + "\"" + rest));
  }

  /** A literal that ends behind position `k`, where a quote stands, goes on behind it. */
  lemma InsideBehind(x: string, k: nat, n: nat)
    requires Close(x) == Some(n) && k < n && x[k] == '"' && Lex(x[n + 1..]).Some?
    ensures LexInside(x[k + 1..])
  {
    CloseBehind(x, k);
    DropTwice(x, k + 1, n - k);
    InsideIs(x[k + 1..], n - k - 1);
  }

  lemma InsideIs(y: string, n: nat)
    requires Close(y) == Some(n) && Lex(y[n + 1..]).Some?
    ensures LexInside(y)
  {}

  lemma DropTwice(x: string, a: nat, b: nat)
    requires a + b <= |x|
    ensures x[a..][b..] == x[a + b..]
  {}

  lemma EndsInside(value: string, rest: string)
    requires '"' !in value && LexInside(value + "\"" + rest) && Close(value + "\"" + rest) != Some(|value|)
    ensures LexInside(rest)
  {
    FirstQuote(value, rest);
    InsideBehind(value + "\"" + rest, |value|, Close(value + "\"" + rest).value);
    assert (value + "\"" + rest)[|value| + 1..] == rest;
  }

  lemma OpensLiteral(rest: string)
    requires Lex("\"" + rest).Some?
    ensures Close(rest).Some? && Lex(rest[Close(rest).value + 1..]).Some?
  {
    assert ("\"" + rest)[1..] == rest;
  }

  /** A match of which the closing quote is escaped breaks the text. */
  lemma BrokenLiteral(before: string, version: string, value: string, rest: string)
    requires CutBefore(before, value + "\"" + rest) && '"' !in value && Literal(version)
    requires Close(value + "\"" + rest) != Some(|value|)
    ensures Lex(before + ("\"" + (version + "\"" + rest))).None?
  {
    OpensLiteral(value + "\"" + rest);
    EndsInside(value, rest);
    InsideIsNotOutside(rest);
    CloseAt(version, rest);
    LexText(version, rest);
    LexConcat(before, "\"" + (version + "\"" + rest));
  }

  lemma FirstQuote(value: string, rest: string)
    requires '"' !in value && Close(value + "\"" + rest).Some?
    ensures |value| <= Close(value + "\"" + rest).value
  {
    var x := value + "\"" + rest;
    assert forall k :: 0 <= k < |value| ==> x[k] == value[k];
  }

  lemma OtherReads(g: Grammar, s: string, r: string, ts: seq<Token>, k: nat, version: string)
    requires IsJson(g, s) && Lex(s) == Some(ts) && k < |ts| && Literal(version)
    requires Lex(r) == Some(ts[k := Text(version)]) && OtherLiteral(ts, ts[k := Text(version)], k)
    ensures IsJson(g, r) && VersionToken(r) == VersionToken(s)
    ensures ReadVersion(g, r) == if VersionToken(s) == Some(k) then Some(Units(version)) else ReadVersion(g, s)
  {
    var other := ts[k := Text(version)];
    LiteralStands(version);
    assert Kinds(ts) == Kinds(other);
    forall t | t in other && t.Text? ensures Unescape(t.raw).Some? {
      var i :| 0 <= i < |other| && other[i] == t;
      if i != k { assert ts[i] in ts; }
    }
    LastVersionSame(ts, other, k, |ts|);
  }

  lemma PrefixBefore(front: seq<Token>, back: seq<Token>, i: int)
    requires i <= |front|
    ensures Before(front + back, i) == Before(front, i)
  {
    if i > 0 { PrefixBefore(front, back, i - 1); }
  }

  lemma TokenReplaced(g: Grammar, s: string, r: string, front: seq<Token>, value: string, back: seq<Token>, version: string)
    requires IsJson(g, s) && Literal(version) && EndsInColon(front)
    requires Lex(s) == Some(front + ([Text(value)] + back)) && Lex(r) == Some(front + ([Text(version)] + back))
    ensures IsJson(g, r)
    ensures ReadVersion(g, r) == if VersionToken(s) == Some(|front|) then Some(Units(version)) else ReadVersion(g, s)
  {
    BehindColon(front, value, back, version);
    OtherReads(g, s, r, front + ([Text(value)] + back), |front|, version);
  }

  lemma BehindColon(front: seq<Token>, value: string, back: seq<Token>, version: string)
    requires EndsInColon(front)
    ensures
      var ts, other := front + ([Text(value)] + back), front + ([Text(version)] + back);
      other == ts[|front| := Text(version)] && OtherLiteral(ts, other, |front|)
  {
    PrefixBefore(front, [Text(value)] + back, |front|);
  }

  /** The text with a whole literal replaced. */
  lemma WholeReplaced(g: Grammar, before: string, value: string, rest: string, version: string)
    requires CutBefore(before, value + "\"" + rest) && Close(value + "\"" + rest) == Some(|value|)
    requires IsJson(g, before + ("\"" + (value + "\"" + rest))) && Literal(version)
    ensures
      var s, r := before + ("\"" + (value + "\"" + rest)), before + ("\"" + (version + "\"" + rest));
      && IsJson(g, r)
      && ReadVersion(g, r) == if VersionToken(s) == Some(|Lex(before).value|) then Some(Units(version)) else ReadVersion(g, s)
  {
    LexText(value, rest);
    CloseAt(version, rest);
    QuotedLexes(before, value, rest);
    QuotedLexes(before, version, rest);
    TokenReplaced(
      g, before + ("\"" + (value + "\"" + rest)), before + ("\"" + (version + "\"" + rest)),
      Lex(before).value, value, Lex(rest).value, version);
  }

  lemma MatchPieces(s: string, m: Match, version: string)
    requires QuotedAt(s, m)
    ensures
      var before, value, rest := s[..m.open - 1], s[m.open..m.close], s[m.close + 1..];
      && '"' !in value && s[m.open..] == value + "\"" + rest
      && s == before + ("\"" + (value + "\"" + rest))
      && SetAt(s, m, version) == before + ("\"" + (version + "\"" + rest))
  {
    var before, value, rest := s[..m.open - 1], s[m.open..m.close], s[m.close + 1..];
    assert value == s[m.open..][..m.close - m.open];
    QuotedPieces(s, m.open, m.close);
    Associate(before, "\"", version + s[m.close..]);
    Associate(before + "\"", version, s[m.close..]);
    Associate(version, "\"", rest);
  }

  lemma QuotedPieces(s: string, open: nat, close: nat)
    requires 0 < open <= close < |s| && s[open - 1] == '"' && s[close] == '"'
    ensures
      var before, value, rest := s[..open - 1], s[open..close], s[close + 1..];
      && s[..open] == before + "\"" && s[close..] == "\"" + rest
      && s[open..] == value + "\"" + rest
      && s == before + ("\"" + (value + "\"" + rest))
  {}

  /**
   * A bump keeps the text JSON exactly when it matches a whole literal. Then the version read afterwards is the
   * written one if the match is what is read, and else the one read before.
   */
  lemma BumpReads(g: Grammar, s: string, version: string)
    requires IsJson(g, s) && Locate(VERSION_FIELD, s).Some? && Literal(version) && '$' !in version
    ensures BumpDenoJsonVersion(s, version).Ok?
    ensures
      var r := BumpDenoJsonVersion(s, version).value;
      && (IsJson(g, r) <==> WholeMatch(s))
      && (WholeMatch(s) ==> ReadVersion(g, r) == if ReadsMatch(s) then Some(Units(version)) else ReadVersion(g, s))
  {
    BumpSets(s, version);
    MatchStands(s);
    SetReads(g, s, Locate(VERSION_FIELD, s).value, version);
  }

  lemma SetReads(g: Grammar, s: string, m: Match, version: string)
    requires IsJson(g, s) && Stands(s, m) && Literal(version)
    ensures IsJson(g, SetAt(s, m, version)) <==> WholeAt(s, m)
    ensures WholeAt(s, m) ==>
      ReadVersion(g, SetAt(s, m, version)) == if ReadAt(s, m) then Some(Units(version)) else ReadVersion(g, s)
  {
    MatchPieces(s, m, version);
    PiecesRead(g, s[..m.open - 1], s[m.open..m.close], s[m.close + 1..], version);
  }

  lemma PiecesRead(g: Grammar, before: string, value: string, rest: string, version: string)
    requires CutBefore(before, value + "\"" + rest) && '"' !in value && Literal(version)
    requires IsJson(g, before + ("\"" + (value + "\"" + rest)))
    ensures
      var s, r := before + ("\"" + (value + "\"" + rest)), before + ("\"" + (version + "\"" + rest));
      var whole := Close(value + "\"" + rest) == Some(|value|);
      var read := VersionToken(s) == Some(|Lex(before).value|);
      && (IsJson(g, r) <==> whole)
      && (whole ==> ReadVersion(g, r) == if read then Some(Units(version)) else ReadVersion(g, s))
  {
    if Close(value + "\"" + rest) == Some(|value|) {
      WholeReplaced(g, before, value, rest, version);
    } else {
      BrokenLiteral(before, version, value, rest);
    }
  }

  /** The written version is read back exactly when the bump matches the literal that is read, or one like it is read anyway. */
  lemma WrittenIsReadIff(g: Grammar, s: string, version: string)
    requires IsJson(g, s) && Locate(VERSION_FIELD, s).Some? && Literal(version) && '$' !in version
    ensures BumpDenoJsonVersion(s, version).Ok?
    ensures ReadVersion(g, BumpDenoJsonVersion(s, version).value) == Some(Units(version)) <==>
      WholeMatch(s) && (ReadsMatch(s) || ReadVersion(g, s) == Some(Units(version)))
  {
    BumpReads(g, s, version);
  }

  // ----- A match that is read is a whole literal, unless the version holds a quote -----

  const QUOTE_UNIT := '"' as int

  lemma {:induction false} QuoteStaysQuote(raw: string)
    requires '"' in raw && Unescape(raw).Some?
    ensures QUOTE_UNIT in Unescape(raw).value
    decreases |raw|
  {
    if raw[0] == '\\' {
      if |raw| >= 6 && raw[1] == 'u' && Hex4(raw[2..6]).Some? {
        assert raw == raw[..6] + raw[6..];
        HexHoldsNoQuote(raw[2..6]);
        assert raw[..6] == [raw[0], raw[1]] + raw[2..6];
        QuoteStaysQuote(raw[6..]);
      } else if raw[1] != '"' {
        assert raw == [raw[0], raw[1]] + raw[2..];
        QuoteStaysQuote(raw[2..]);
      }
    } else if raw[0] != '"' {
      assert raw == [raw[0]] + raw[1..];
      QuoteStaysQuote(raw[1..]);
    }
  }

  lemma HexHoldsNoQuote(s: string)
    requires |s| == 4 && Hex4(s).Some?
    ensures '"' !in s
  {
    assert s == [s[0], s[1], s[2], s[3]];
    assert HexDigit('"').None?;
  }

  lemma {:induction false} UnitsHoldNoQuote(s: string)
    requires '"' !in s
    ensures QUOTE_UNIT !in Units(s)
  {
    if s != "" {
      UnitLength(s[0]);
      UnitsHoldNoQuote(s[1..]);
    }
  }

  lemma TokenAtMatch(before: string, x: string)
    requires Lex(before).Some? && Lex("\"" + x).Some?
    ensures Close(x).Some? && Lex(before + ("\"" + x)).Some?
    ensures
      var ts := Lex(before + ("\"" + x)).value;
      |Lex(before).value| < |ts| && ts[|Lex(before).value|] == Text(x[..Close(x).value])
  {
    OpensLiteral(x);
    assert ("\"" + x)[1..] == x;
    LexConcat(before, "\"" + x);
  }

  /** The token that a match stands in. */
  lemma MatchToken(s: string, m: Match)
    requires Stands(s, m)
    ensures Lex(s).Some? && Close(s[m.open..]).Some?
    ensures |Lex(s[..m.open - 1]).value| < |Lex(s).value|
    ensures Lex(s).value[|Lex(s[..m.open - 1]).value|] == Text(s[m.open..][..Close(s[m.open..]).value])
  {
    assert s == s[..m.open - 1] + ("\"" + s[m.open..]);
    TokenAtMatch(s[..m.open - 1], s[m.open..]);
  }

  lemma RawHoldsNoQuote(raw: string, version: string)
    requires Unescape(raw) == Some(Units(version)) && '"' !in version
    ensures '"' !in raw
  {
    UnitsHoldNoQuote(version);
    if '"' in raw { QuoteStaysQuote(raw); }
  }

  lemma WholeWithoutQuote(s: string, m: Match)
    requires QuotedAt(s, m) && Close(s[m.open..]).Some? && '"' !in s[m.open..][..Close(s[m.open..]).value]
    ensures WholeAt(s, m)
  {
    FindUnique(s[m.open..], '"', Close(s[m.open..]).value);
  }

  lemma ReadMatchIsWhole(g: Grammar, s: string, version: string)
    requires IsJson(g, s) && Locate(VERSION_FIELD, s).Some? && ReadsMatch(s)
    requires ReadVersion(g, s) == Some(Units(version)) && '"' !in version
    ensures WholeMatch(s)
  {
    MatchStands(s);
    ReadIsWhole(g, s, Locate(VERSION_FIELD, s).value, version);
  }

  lemma ReadIsWhole(g: Grammar, s: string, m: Match, version: string)
    requires IsJson(g, s) && Stands(s, m) && ReadAt(s, m)
    requires ReadVersion(g, s) == Some(Units(version)) && '"' !in version
    ensures WholeAt(s, m)
  {
    MatchToken(s, m);
    var raw := s[m.open..][..Close(s[m.open..]).value];
    TokenIsRead(g, s, |Lex(s[..m.open - 1]).value|, raw);
    RawHoldsNoQuote(raw, version);
    WholeWithoutQuote(s, m);
  }

  lemma TokenIsRead(g: Grammar, s: string, k: nat, raw: string)
    requires IsJson(g, s) && VersionToken(s) == Some(k) && Lex(s).value[k] == Text(raw)
    ensures ReadVersion(g, s) == Unescape(raw)
  {}

  // ----- A field that is matched but not read -----

  function Quoted(raw: string, rest: string): string {
    "\"" + (raw + "\"" + rest)
  }

  /** `,"version":"y"}` behind a nested object. */
  function Tail(y: string): string {
    "}" + ("," + Quoted(VERSION, ":" + Quoted(y, "}")))
  }

  /** `"version":"x"},"version":"y"}`. */
  function FromMatch(x: string, y: string): string {
    Quoted(VERSION, ":" + Quoted(x, Tail(y)))
  }

  /** `{"a":{"version":"x"},"version":"y"}`. */
  function Nested(x: string, y: string): string {
    "{" + Quoted("a", ":" + ("{" + FromMatch(x, y)))
  }

  function TailTokens(y: string): seq<Token> {
    [Mark('}')] + ([Mark(',')] + ([Text(VERSION)] + ([Mark(':')] + ([Text(y)] + [Mark('}')]))))
  }

  function NestedTokens(x: string, y: string): seq<Token> {
    [Mark('{')] + ([Text("a")] + ([Mark(':')] + ([Mark('{')] + MatchTokens(x, y))))
  }

  function MatchTokens(x: string, y: string): seq<Token> {
    [Text(VERSION)] + ([Mark(':')] + ([Text(x)] + TailTokens(y)))
  }

  lemma LexQuoted(raw: string, rest: string, ts: seq<Token>)
    requires Literal(raw) && Lex(rest) == Some(ts)
    ensures Lex(Quoted(raw, rest)) == Some([Text(raw)] + ts)
  {
    CloseAt(raw, rest);
    LexText(raw, rest);
  }

  lemma LexMark(c: char, rest: string, ts: seq<Token>)
    requires Outside(c) && c != '"' && Lex(rest) == Some(ts)
    ensures Lex([c] + rest) == Some([Mark(c)] + ts)
  {
    assert ([c] + rest)[1..] == rest;
  }

  lemma VersionLiteral()
    ensures Literal(VERSION) && Literal("a")
  {}

  lemma TailLexes(y: string)
    requires Literal(y)
    ensures Lex(Tail(y)) == Some(TailTokens(y))
  {
    VersionLiteral();
    assert "}" + "" == "}" && [Mark('}')] + [] == [Mark('}')];
    LexMark('}', "", []);
    LexQuoted(y, "}", [Mark('}')]);
    var value := [Text(y)] + [Mark('}')];
    var member := [Text(VERSION)] + ([Mark(':')] + value);
    LexMark(':', Quoted(y, "}"), value);
    LexQuoted(VERSION, ":" + Quoted(y, "}"), [Mark(':')] + value);
    LexMark(',', Quoted(VERSION, ":" + Quoted(y, "}")), member);
    LexMark('}', "," + Quoted(VERSION, ":" + Quoted(y, "}")), [Mark(',')] + member);
  }

  lemma FromMatchLexes(x: string, y: string)
    requires Literal(x) && Literal(y)
    ensures Lex(FromMatch(x, y)) == Some(MatchTokens(x, y))
  {
    VersionLiteral();
    TailLexes(y);
    LexQuoted(x, Tail(y), TailTokens(y));
    LexMark(':', Quoted(x, Tail(y)), [Text(x)] + TailTokens(y));
    LexQuoted(VERSION, ":" + Quoted(x, Tail(y)), [Mark(':')] + ([Text(x)] + TailTokens(y)));
  }

  lemma NestedLexes(x: string, y: string)
    requires Literal(x) && Literal(y)
    ensures Lex(Nested(x, y)) == Some(NestedTokens(x, y))
  {
    var ts := MatchTokens(x, y);
    VersionLiteral();
    FromMatchLexes(x, y);
    LexMark('{', FromMatch(x, y), ts);
    LexMark(':', "{" + FromMatch(x, y), [Mark('{')] + ts);
    LexQuoted("a", ":" + ("{" + FromMatch(x, y)), [Mark(':')] + ([Mark('{')] + ts));
    LexMark('{', Quoted("a", ":" + ("{" + FromMatch(x, y))), [Text("a")] + ([Mark(':')] + ([Mark('{')] + ts)));
  }

  lemma NestedList(x: string, y: string)
    ensures NestedTokens(x, y) ==
      [Mark('{'), Text("a"), Mark(':'), Mark('{'), Text(VERSION), Mark(':'), Text(x), Mark('}'), Mark(','),
       Text(VERSION), Mark(':'), Text(y), Mark('}')]
  {}

  lemma NestedDepth(ts: seq<Token>, x: string, y: string)
    requires ts == NestedTokens(x, y)
    ensures |ts| == 13 && Depth(ts, 9) == 1
  {
    NestedList(x, y);
    assert Depth(ts, 0) == 0 && Depth(ts, 1) == 1 && Depth(ts, 2) == 1 && Depth(ts, 3) == 1;
    assert Depth(ts, 4) == 2 && Depth(ts, 5) == 2 && Depth(ts, 6) == 2 && Depth(ts, 7) == 2;
    assert Depth(ts, 8) == 1;
  }

  lemma NestedVersionToken(x: string, y: string)
    ensures |NestedTokens(x, y)| == 13 && LastVersion(NestedTokens(x, y), 13) == Some(11)
  {
    var ts := NestedTokens(x, y);
    NestedDepth(ts, x, y);
    NestedList(x, y);
    VersionLiteral();
    LiteralStands(VERSION);
    BeforeFinds(ts, 11, 12);
    BeforeFinds(ts, 10, 11);
    BeforeFinds(ts, 9, 10);
    BeforeFinds(ts, 8, 9);
    assert IsVersionValue(ts, 11);
    assert !IsVersionValue(ts, 12);
  }

  lemma NestedEscapes(x: string, y: string)
    requires Literal(x) && Literal(y)
    ensures Escapes(NestedTokens(x, y))
  {
    NestedList(x, y);
    VersionLiteral();
    LiteralStands(x);
    LiteralStands(y);
    LiteralStands(VERSION);
    LiteralStands("a");
  }

  /** The last of the two is read. */
  lemma NestedReads(g: Grammar, x: string, y: string)
    requires Literal(x) && Literal(y) && g(Kinds(NestedTokens(x, y)))
    ensures IsJson(g, Nested(x, y)) && ReadVersion(g, Nested(x, y)) == Some(Units(y))
  {
    NestedLexes(x, y);
    NestedVersionToken(x, y);
    NestedEscapes(x, y);
    NestedList(x, y);
    LiteralStands(y);
  }

  lemma NestedMatches(x: string, y: string)
    requires '"' !in x
    ensures MatchHere(VERSION_FIELD, FromMatch(x, y)) == Some(Match(0, 11, 11 + |x|))
  {
    var rest := x + "\"" + Tail(y);
    var s := FromMatch(x, y);
    FieldIsQuoted();
    assert s == VERSION_FIELD + (":" + ("\"" + rest));
    HeadReads(rest);
    assert rest[..|x|] == x;
    FindUnique(rest, '"', |x|);
  }

  lemma HeadReads(rest: string)
    ensures
      var s := VERSION_FIELD + (":" + ("\"" + rest));
      HeadLength(VERSION_FIELD, s) == 11 && s[11..] == rest
  {
    var s := VERSION_FIELD + (":" + ("\"" + rest));
    FieldIsQuoted();
    assert s[..9] == VERSION_FIELD && s[9..] == ":" + ("\"" + rest) && s[10..] == "\"" + rest;
    SkipAt(s, 9, ':');
    SkipAt(s, 10, '"');
  }

  lemma SkipAt(s: string, from: nat, c: char)
    requires from < |s| && s[from] == c && !IsSpace(c)
    ensures Skip(s, from, c) == from + 1
  {
    assert s[from..][0] == c;
  }

  lemma NoMatchHere(s: string)
    requires |s| < 2 || s[0] != '"' || s[1] != 'v'
    ensures MatchHere(VERSION_FIELD, s).None?
  {
    FieldIsQuoted();
    FieldStarts();
  }

  lemma FieldStarts()
    ensures VERSION_FIELD[0] == '"' && VERSION_FIELD[1] == 'v'
  {}

  lemma LocateBehind(c: char, s: string, m: Match)
    requires Locate(VERSION_FIELD, s) == Some(m) && (c != '"' || s == "" || s[0] != 'v')
    ensures Locate(VERSION_FIELD, [c] + s) == Some(Shift(m))
  {
    assert ([c] + s)[1..] == s;
    NoMatchHere([c] + s);
    LocateStep(VERSION_FIELD, [c] + s, m);
  }

  lemma NestedLocated(x: string, y: string)
    requires '"' !in x
    ensures Locate(VERSION_FIELD, Nested(x, y)) == Some(Match(6, 17, 17 + |x|))
  {
    var s1 := "{" + FromMatch(x, y);
    var s2 := ":" + s1;
    var s3 := "\"" + s2;
    var s4 := "a" + s3;
    var s5 := "\"" + s4;
    NestedMatches(x, y);
    LocateBehind('{', FromMatch(x, y), Match(0, 11, 11 + |x|));
    LocateBehind(':', s1, Match(1, 12, 12 + |x|));
    LocateBehind('"', s2, Match(2, 13, 13 + |x|));
    LocateBehind('a', s3, Match(3, 14, 14 + |x|));
    LocateBehind('"', s4, Match(4, 15, 15 + |x|));
    LocateBehind('{', s5, Match(5, 16, 16 + |x|));
    NestedIs(x, y);
  }

  lemma NestedIs(x: string, y: string)
    ensures Nested(x, y) == "{" + ("\"" + ("a" + ("\"" + (":" + ("{" + FromMatch(x, y))))))
  {}

  /** The bump rewrites the nested one. */
  lemma NestedBumped(x: string, y: string, version: string)
    requires Literal(x) && '$' !in version
    ensures BumpDenoJsonVersion(Nested(x, y), version) == Ok(Nested(version, y))
  {
    NestedLocated(x, y);
    BumpSetsField(VERSION_FIELD, Nested(x, y), version);
    NestedSet(x, y, version);
  }

  lemma NestedSet(x: string, y: string, version: string)
    ensures SetAt(Nested(x, y), Match(6, 17, 17 + |x|), version) == Nested(version, y)
  {
    var head := "{" + ("\"" + ("a" + "\"" + (":" + ("{" + ("\"" + (VERSION + "\"" + (":" + "\"")))))));
    NamePlain();
    assert |head| == 17;
    NestedSplits(x, y, head);
    NestedSplits(version, y, head);
    assert Nested(x, y)[..17] == head && Nested(x, y)[17 + |x|..] == "\"" + Tail(y);
    assert head + version + ("\"" + Tail(y)) == head + (version + ("\"" + Tail(y)));
  }

  lemma NestedSplits(x: string, y: string, head: string)
    requires head == "{" + ("\"" + ("a" + "\"" + (":" + ("{" + ("\"" + (VERSION + "\"" + (":" + "\"")))))))
    ensures Nested(x, y) == head + (x + ("\"" + Tail(y)))
  {}

  // ----- A version within another object is not read -----

  /** `,"a":{"version":"x"}}` behind the top-level version. */
  function InnerTail(x: string): string {
    "," + Quoted("a", ":" + ("{" + Quoted(VERSION, ":" + Quoted(x, "}" + "}"))))
  }

  /** `{"version":"y","a":{"version":"x"}}`. */
  function Inner(x: string, y: string): string {
    "{" + Quoted(VERSION, ":" + Quoted(y, InnerTail(x)))
  }

  function InnerTailTokens(x: string): seq<Token> {
    [Mark(',')] + ([Text("a")] + ([Mark(':')] + ([Mark('{')]
      + ([Text(VERSION)] + ([Mark(':')] + ([Text(x)] + ([Mark('}')] + [Mark('}')])))))))
  }

  function InnerTokens(x: string, y: string): seq<Token> {
    [Mark('{')] + ([Text(VERSION)] + ([Mark(':')] + ([Text(y)] + InnerTailTokens(x))))
  }

  lemma InnerTailLexes(x: string)
    requires Literal(x)
    ensures Lex(InnerTail(x)) == Some(InnerTailTokens(x))
  {
    VersionLiteral();
    assert "}" + "" == "}" && [Mark('}')] + [] == [Mark('}')];
    LexMark('}', "", []);
    LexMark('}', "}", [Mark('}')]);
    var ends := [Mark('}')] + [Mark('}')];
    LexQuoted(x, "}" + "}", ends);
    LexMark(':', Quoted(x, "}" + "}"), [Text(x)] + ends);
    var member := [Text(VERSION)] + ([Mark(':')] + ([Text(x)] + ends));
    LexQuoted(VERSION, ":" + Quoted(x, "}" + "}"), [Mark(':')] + ([Text(x)] + ends));
    var s := Quoted(VERSION, ":" + Quoted(x, "}" + "}"));
    LexMark('{', s, member);
    LexMark(':', "{" + s, [Mark('{')] + member);
    LexQuoted("a", ":" + ("{" + s), [Mark(':')] + ([Mark('{')] + member));
    LexMark(',', Quoted("a", ":" + ("{" + s)), [Text("a")] + ([Mark(':')] + ([Mark('{')] + member)));
  }

  lemma InnerLexes(x: string, y: string)
    requires Literal(x) && Literal(y)
    ensures Lex(Inner(x, y)) == Some(InnerTokens(x, y))
  {
    VersionLiteral();
    InnerTailLexes(x);
    LexQuoted(y, InnerTail(x), InnerTailTokens(x));
    LexMark(':', Quoted(y, InnerTail(x)), [Text(y)] + InnerTailTokens(x));
    LexQuoted(VERSION, ":" + Quoted(y, InnerTail(x)), [Mark(':')] + ([Text(y)] + InnerTailTokens(x)));
    LexMark('{', Quoted(VERSION, ":" + Quoted(y, InnerTail(x))), [Text(VERSION)] + ([Mark(':')] + ([Text(y)] + InnerTailTokens(x))));
  }

  lemma InnerList(x: string, y: string)
    ensures InnerTokens(x, y) ==
      [Mark('{'), Text(VERSION), Mark(':'), Text(y), Mark(','), Text("a"), Mark(':'), Mark('{'), Text(VERSION),
       Mark(':'), Text(x), Mark('}'), Mark('}')]
  {}

  lemma InnerDepth(ts: seq<Token>, x: string, y: string)
    requires ts == InnerTokens(x, y)
    ensures |ts| == 13 && Depth(ts, 1) == 1 && Depth(ts, 8) == 2
  {
    InnerList(x, y);
    assert Depth(ts, 0) == 0 && Depth(ts, 1) == 1 && Depth(ts, 2) == 1 && Depth(ts, 3) == 1;
    assert Depth(ts, 4) == 1 && Depth(ts, 5) == 1 && Depth(ts, 6) == 1 && Depth(ts, 7) == 1;
  }

  lemma InnerValues(ts: seq<Token>, x: string, y: string)
    requires ts == InnerTokens(x, y)
    ensures |ts| == 13 && IsVersionValue(ts, 3) && forall v :: 3 < v < 13 ==> !IsVersionValue(ts, v)
  {
    InnerList(x, y);
    InnerDepth(ts, x, y);
    LiteralStands(VERSION);
    VersionLiteral();
    BeforeFinds(ts, 2, 3);
    BeforeFinds(ts, 1, 2);
    BeforeFinds(ts, 0, 1);
    forall v: nat | 3 < v < 13 ensures !IsVersionValue(ts, v) {
      BeforeFinds(ts, v - 1, v);
      if ts[v - 1] == Mark(':') { InnerColons(ts, x, y, v); }
    }
  }

  /** Behind a colon stands the value of `a`, or one two levels deep. */
  lemma InnerColons(ts: seq<Token>, x: string, y: string, v: nat)
    requires ts == InnerTokens(x, y) && |ts| == 13 && 3 < v < 13 && ts[v - 1] == Mark(':')
    ensures !IsVersionValue(ts, v)
  {
    InnerList(x, y);
    InnerDepth(ts, x, y);
    assert v == 7 || v == 10;
    BeforeFinds(ts, v - 1, v);
    BeforeFinds(ts, v - 2, v - 1);
    LiteralStands("a");
    VersionLiteral();
    if v == 7 { KeysDiffer(); }
  }

  lemma KeysDiffer()
    ensures Units("a") != Units(VERSION)
  {
    if Units("a") == Units(VERSION) { UnitsInjective("a", VERSION); }
  }

  lemma {:induction false} LastOne(ts: seq<Token>, n: nat, k: nat)
    requires k < n <= |ts| && IsVersionValue(ts, k) && forall v :: k < v < n ==> !IsVersionValue(ts, v)
    ensures LastVersion(ts, n) == Some(k)
  {
    if n > k + 1 { LastOne(ts, n - 1, k); }
  }

  /** The version of an inner object is not the one that is read, even if it comes last. */
  lemma InnerIsNotRead(g: Grammar, x: string, y: string)
    requires Literal(x) && Literal(y) && IsJson(g, Inner(x, y))
    ensures ReadVersion(g, Inner(x, y)) == Some(Units(y))
  {
    var ts := InnerTokens(x, y);
    InnerLexes(x, y);
    InnerValues(ts, x, y);
    InnerList(x, y);
    LastOne(ts, 13, 3);
    LiteralStands(y);
  }
}
