/**
 * The top-level version that `JSON.parse` reads from the text of deno.json.
 *
 * The text is cut into string literals and other characters. Which sequences of them are JSON is a
 * parameter: a grammar sees where literals stand, not what they hold.
 */
module JsonText {
  import opened Prelude

  // ----- String literals -----

  /** The position of the first quote that is not escaped. */
  function Close(s: string): (n: Option<nat>)
    ensures n.Some? ==> n.value < |s| && s[n.value] == '"'
    decreases |s|
  {
    if s == "" then None
    else if s[0] == '"' then Some(0)
    else if s[0] == '\\' then
      if |s| < 2 then None
      else
        var n := Close(s[2..]);
        if n.None? then None else Some(n.value + 2)
    else
      var n := Close(s[1..]);
      if n.None? then None else Some(n.value + 1)
  }

  lemma {:induction false} CloseConcat(s: string, rest: string)
    requires Close(s).Some?
    ensures Close(s + rest) == Close(s)
    decreases |s|
  {
    var t := s + rest;
    if s[0] == '\\' {
      assert t[2..] == s[2..] + rest;
      CloseConcat(s[2..], rest);
    } else if s[0] != '"' {
      assert t[1..] == s[1..] + rest;
      CloseConcat(s[1..], rest);
    }
  }

  /** Text without quotes and backslashes runs up to the quote behind it. */
  lemma {:induction false} CloseAt(raw: string, rest: string)
    requires '"' !in raw && '\\' !in raw
    ensures Close(raw + "\"" + rest) == Some(|raw|)
  {
    var t := raw + "\"" + rest;
    if raw != "" {
      assert t[1..] == raw[1..] + "\"" + rest;
      assert t[0] == raw[0];
      CloseAt(raw[1..], rest);
    }
  }

  /** A quote inside a literal is escaped, and the literal goes on behind it. */
  lemma {:induction false} CloseBehind(s: string, i: nat)
    requires Close(s).Some? && i < Close(s).value && s[i] == '"'
    ensures Close(s[i + 1..]) == Some(Close(s).value - i - 1)
    decreases |s|
  {
    if s[0] == '\\' {
      if i == 1 {
        assert s[i + 1..] == s[2..];
      } else {
        CloseBehind(s[2..], i - 2);
        assert s[2..][i - 1..] == s[i + 1..];
      }
    } else {
      CloseBehind(s[1..], i - 1);
      assert s[1..][i..] == s[i + 1..];
    }
  }

  /** UTF-16 code units of a character. */
  function Unit(c: char): seq<int> {
    var n := c as int;
    if n < 0x1_0000 then [n] else [0xD800 + (n - 0x1_0000) / 0x400, 0xDC00 + (n - 0x1_0000) % 0x400]
  }

  function Units(s: string): seq<int> {
    if s == "" then [] else Unit(s[0]) + Units(s[1..])
  }

  function HexDigit(c: char): Option<int> {
    if '0' <= c <= '9' then Some(c as int - '0' as int)
    else if 'A' <= c <= 'F' then Some(c as int - 'A' as int + 10)
    else if 'a' <= c <= 'f' then Some(c as int - 'a' as int + 10)
    else None
  }

  function Hex4(s: string): Option<int>
    requires |s| == 4
  {
    var a, b, c, d := HexDigit(s[0]), HexDigit(s[1]), HexDigit(s[2]), HexDigit(s[3]);
    if a.None? || b.None? || c.None? || d.None? then None
    else Some(a.value * 0x1000 + b.value * 0x100 + c.value * 0x10 + d.value)
  }

  function Escape(c: char): Option<int> {
    if c == '"' || c == '\\' || c == '/' then Some(c as int)
    else if c == 'b' then Some(8)
    else if c == 'f' then Some(12)
    else if c == 'n' then Some(10)
    else if c == 'r' then Some(13)
    else if c == 't' then Some(9)
    else None
  }

  function Prepend(units: seq<int>, rest: Option<seq<int>>): Option<seq<int>> {
    if rest.None? then None else Some(units + rest.value)
  }

  /** What a literal stands for; `None` for a bad escape or a control character. */
  function Unescape(raw: string): Option<seq<int>>
    decreases |raw|
  {
    if raw == "" then Some([])
    else if raw[0] == '\\' then
      if |raw| >= 6 && raw[1] == 'u' && Hex4(raw[2..6]).Some? then Prepend([Hex4(raw[2..6]).value], Unescape(raw[6..]))
      else if |raw| >= 2 && Escape(raw[1]).Some? then Prepend([Escape(raw[1]).value], Unescape(raw[2..]))
      else None
    else if raw[0] < ' ' then None
    else Prepend(Unit(raw[0]), Unescape(raw[1..]))
  }

  /** Text that stands for itself in a literal. */
  predicate Literal(s: string) {
    forall i :: 0 <= i < |s| ==> s[i] >= ' ' && s[i] != '"' && s[i] != '\\'
  }

  lemma {:induction false} LiteralStands(s: string)
    requires Literal(s)
    ensures Unescape(s) == Some(Units(s))
  {
    if s != "" { LiteralStands(s[1..]); }
  }

  lemma UnitCuts(c: char, a: seq<int>, d: char, b: seq<int>)
    requires Unit(c) + a == Unit(d) + b
    ensures c == d && a == b
  {
    var s, t := Unit(c) + a, Unit(d) + b;
    assert s[0] == Unit(c)[0] && t[0] == Unit(d)[0];
    UnitLength(c);
    UnitLength(d);
    assert |Unit(c)| == |Unit(d)|;
    assert s[|Unit(c)|..] == a && t[|Unit(d)|..] == b;
    assert s[..|Unit(c)|] == Unit(c) && t[..|Unit(d)|] == Unit(d);
    SameUnit(c, d);
  }

  lemma UnitLength(c: char)
    ensures |Unit(c)| == if 0xD800 <= Unit(c)[0] < 0xE000 then 2 else 1
  {
    assert (c as int - 0x1_0000) / 0x400 < 0x400;
  }

  lemma SameUnit(c: char, d: char)
    requires Unit(c) == Unit(d)
    ensures c == d
  {
    var m, n := c as int - 0x1_0000, d as int - 0x1_0000;
    UnitLength(c);
    UnitLength(d);
    if |Unit(c)| == 1 {
      assert Unit(c)[0] == Unit(d)[0];
    } else {
      assert Unit(c)[0] == Unit(d)[0] && Unit(c)[1] == Unit(d)[1];
      assert m / 0x400 == n / 0x400 && m % 0x400 == n % 0x400;
      assert m == n;
    }
  }

  lemma {:induction false} UnitsInjective(a: string, b: string)
    requires Units(a) == Units(b)
    ensures a == b
  {
    if a != "" && b != "" {
      UnitCuts(a[0], Units(a[1..]), b[0], Units(b[1..]));
      UnitsInjective(a[1..], b[1..]);
      assert a == [a[0]] + a[1..] && b == [b[0]] + b[1..];
    }
  }

  // ----- Cutting the text -----

  datatype Token = Text(raw: string) | Mark(c: char)

  predicate JsonSpace(c: char) {
    c == ' ' || c == '\t' || c == '\n' || c == '\r'
  }

  /** What may stand outside of literals: blanks, punctuation, numbers, and the letters of `true`, `false`, `null`. */
  predicate Outside(c: char) {
    JsonSpace(c) || IsDigit(c) || Punctuation(c) || c == '+' || c == '-' || c == '.' || c == 'e' || c == 'E'
    || c == 't' || c == 'r' || c == 'u' || c == 'f' || c == 'a' || c == 'l' || c == 's' || c == 'n'
  }

  predicate Punctuation(c: char) {
    c == '{' || c == '}' || c == '[' || c == ']' || c == ':' || c == ','
  }

  /** The literals and the characters between them; `None` for what no JSON text holds. */
  function Lex(s: string): Option<seq<Token>>
    decreases |s|
  {
    if s == "" then Some([])
    else if s[0] == '"' then
      var n := Close(s[1..]);
      if n.None? then None else Cons(Text(s[1..][..n.value]), Lex(s[1..][n.value + 1..]))
    else if Outside(s[0]) then Cons(Mark(s[0]), Lex(s[1..]))
    else None
  }

  function Cons(t: Token, rest: Option<seq<Token>>): (r: Option<seq<Token>>)
    ensures r.Some? <==> rest.Some?
    ensures r.Some? ==> r.value == [t] + rest.value
  {
    if rest.None? then None else Some([t] + rest.value)
  }

  function Join(a: Option<seq<Token>>, b: Option<seq<Token>>): (r: Option<seq<Token>>) {
    if a.None? || b.None? then None else Some(a.value + b.value)
  }

  lemma LexText(raw: string, rest: string)
    requires Close(raw + "\"" + rest) == Some(|raw|)
    ensures Lex("\"" + (raw + "\"" + rest)) == Cons(Text(raw), Lex(rest))
  {
    var s := "\"" + (raw + "\"" + rest);
    assert s[1..] == raw + "\"" + rest;
    assert s[1..][..|raw|] == raw && s[1..][|raw| + 1..] == rest;
  }

  /** Behind text that ends outside of a literal, cutting starts anew. */
  lemma {:induction false} LexConcat(a: string, b: string)
    requires Lex(a).Some?
    ensures Lex(a + b) == Join(Lex(a), Lex(b))
    decreases |a|
  {
    if a == "" {
      assert a + b == b;
      if Lex(b).Some? { assert [] + Lex(b).value == Lex(b).value; }
    } else if a[0] == '"' {
      var n := Close(a[1..]).value;
      LexConcat(a[1..][n + 1..], b);
      LexTextConcat(a[1..][..n], a[1..][n + 1..], b);
      OpensWith(a, n);
    } else {
      assert (a + b)[1..] == a[1..] + b;
      LexConcat(a[1..], b);
      ConsJoin(Mark(a[0]), Lex(a[1..]), Lex(b));
    }
  }

  lemma OpensWith(a: string, n: nat)
    requires a != "" && a[0] == '"' && n < |a| - 1 && a[1..][n] == '"'
    ensures a == "\"" + (a[1..][..n] + "\"" + a[1..][n + 1..]) && a[1..] == a[1..][..n] + "\"" + a[1..][n + 1..]
  {}

  lemma LexTextConcat(raw: string, rest: string, b: string)
    requires Lex(rest).Some? && Lex(rest + b) == Join(Lex(rest), Lex(b))
    ensures
      var a := "\"" + (raw + "\"" + rest);
      Close(raw + "\"" + rest) == Some(|raw|) ==> Lex(a + b) == Join(Lex(a), Lex(b))
  {
    var inner := raw + "\"" + rest;
    if Close(inner) == Some(|raw|) {
      CloseConcat(inner, b);
      LexText(raw, rest);
      assert inner + b == raw + "\"" + (rest + b);
      LexText(raw, rest + b);
      Associate("\"", inner, b);
      ConsJoin(Text(raw), Lex(rest), Lex(b));
    }
  }

  lemma ConsJoin(t: Token, a: Option<seq<Token>>, b: Option<seq<Token>>)
    ensures Join(Cons(t, a), b) == Cons(t, Join(a, b))
  {
    if a.Some? && b.Some? { Associate([t], a.value, b.value); }
  }

  function Marks(s: string): (r: seq<Token>)
    ensures |r| == |s| && forall i :: 0 <= i < |s| ==> r[i] == Mark(s[i])
  {
    seq(|s|, i requires 0 <= i < |s| => Mark(s[i]))
  }

  /** Characters without quotes are cut one by one. */
  lemma {:induction false} LexMarks(gap: string, rest: string)
    requires '"' !in gap && Lex(gap + rest).Some?
    ensures Lex(gap) == Some(Marks(gap)) && Lex(rest).Some?
    ensures Lex(gap + rest) == Some(Marks(gap) + Lex(rest).value)
  {
    if gap == "" {
      assert gap + rest == rest;
      assert Marks(gap) + Lex(rest).value == Lex(rest).value;
    } else {
      assert (gap + rest)[1..] == gap[1..] + rest;
      LexMarks(gap[1..], rest);
      assert Marks(gap) == [Mark(gap[0])] + Marks(gap[1..]);
      LexConcat(gap, rest);
    }
  }

  // ----- Where a quote stands -----

  /** The text is cut at `i`: outside of literals. */
  predicate Between(s: string, i: nat) {
    i <= |s| && Lex(s[..i]).Some? && Lex(s[i..]).Some? && Lex(s) == Join(Lex(s[..i]), Lex(s[i..]))
  }

  /** Position `i` is in the literal that opens at `open`, or at its closing quote. */
  predicate Within(s: string, open: nat, i: nat) {
    && open < i < |s| && s[open] == '"' && Between(s, open)
    && Close(s[open + 1..]).Some? && i <= open + 1 + Close(s[open + 1..]).value
  }

  lemma BetweenMove(a: string, s: string, i: nat)
    requires Lex(a).Some? && Between(s, i)
    ensures Between(a + s, |a| + i)
  {
    var t := a + s;
    assert t[..|a| + i] == a + s[..i] && t[|a| + i..] == s[i..];
    LexConcat(a, s);
    LexConcat(a, s[..i]);
    Associate(Lex(a).value, Lex(s[..i]).value, Lex(s[i..]).value);
  }

  lemma WithinMove(a: string, s: string, open: nat, i: nat)
    requires Lex(a).Some? && Within(s, open, i)
    ensures Within(a + s, |a| + open, |a| + i)
  {
    BetweenMove(a, s, open);
    assert (a + s)[|a| + open + 1..] == s[open + 1..];
  }

  lemma BetweenStart(s: string)
    requires Lex(s).Some?
    ensures Between(s, 0)
  {
    assert s[..0] == "" && s[0..] == s;
    assert [] + Lex(s).value == Lex(s).value;
  }

  /** The length of the first token. */
  function FirstLength(s: string): (n: nat)
    requires Lex(s).Some? && s != ""
    ensures 0 < n <= |s|
  {
    if s[0] == '"' then Close(s[1..]).value + 2 else 1
  }

  lemma FirstText(s: string)
    requires Lex(s).Some? && s != "" && s[0] == '"'
    ensures Lex(s[..FirstLength(s)]).Some? && Lex(s[FirstLength(s)..]).Some?
  {
    var n := Close(s[1..]).value;
    var raw := s[1..][..n];
    assert s[1..][n + 1..] == s[n + 2..];
    CloseOf(s[1..]);
    assert s[..n + 2] == "\"" + (raw + "\"" + "");
    LexText(raw, "");
    assert Lex("") == Some([]);
  }

  lemma FirstToken(s: string)
    requires Lex(s).Some? && s != ""
    ensures Lex(s[..FirstLength(s)]).Some? && Lex(s[FirstLength(s)..]).Some?
  {
    if s[0] == '"' {
      FirstText(s);
    } else {
      assert s[..1] == [s[0]] && s[..1][1..] == "";
    }
  }

  /** The position is between tokens, or within the literal that opens at `open`. */
  predicate Placed(s: string, open: nat, i: nat) {
    Between(s, i) || Within(s, open, i)
  }

  lemma PlacedMove(a: string, s: string, open: nat, i: nat)
    requires Lex(a).Some? && Placed(s, open, i)
    ensures Placed(a + s, |a| + open, |a| + i)
  {
    if Between(s, i) { BetweenMove(a, s, i); } else { WithinMove(a, s, open, i); }
  }

  lemma WithinFirst(s: string, i: nat)
    requires Lex(s).Some? && 0 < i < |s| && i < FirstLength(s)
    ensures Within(s, 0, i)
  {
    BetweenStart(s);
    assert s[0 + 1..] == s[1..];
  }

  /** Every position of a text that can be cut is of one kind or the other. */
  lemma {:induction false} PositionKinds(s: string, i: nat) returns (open: nat)
    requires Lex(s).Some? && i < |s|
    ensures Placed(s, open, i)
    decreases |s|, 1
  {
    if i == 0 {
      open := 0;
      BetweenStart(s);
    } else if i < FirstLength(s) {
      open := 0;
      WithinFirst(s, i);
    } else {
      var n := FirstLength(s);
      FirstToken(s);
      open := PositionBehind(s[..n], s[n..], i - n);
      Around(s, n);
    }
  }

  lemma {:induction false} PositionBehind(a: string, b: string, i: nat) returns (open: nat)
    requires a != "" && Lex(a).Some? && Lex(b).Some? && i < |b|
    ensures Placed(a + b, open, |a| + i)
    decreases |a| + |b|, 0
  {
    open := PositionKinds(b, i);
    PlacedMove(a, b, open, i);
    open := |a| + open;
  }

  lemma Around(s: string, n: nat)
    requires n <= |s|
    ensures s[..n] + s[n..] == s
  {}

  /** Whether a quote closes a literal depends on the text before it only. */
  lemma {:induction false} CloseOf(s: string)
    requires Close(s).Some?
    ensures Close(s[..Close(s).value] + "\"" + "") == Close(s)
    decreases |s|
  {
    var n := Close(s).value;
    var t := s[..n] + "\"" + "";
    if s[0] == '\\' {
      CloseOf(s[2..]);
      assert t[2..] == s[2..][..n - 2] + "\"" + "";
    } else if s[0] != '"' {
      CloseOf(s[1..]);
      assert t[1..] == s[1..][..n - 1] + "\"" + "";
    }
  }

  // ----- A literal that ends too early -----

  /** The text goes on in a literal, and can be cut behind it. */
  predicate LexInside(s: string) {
    Close(s).Some? && Lex(s[Close(s).value + 1..]).Some?
  }

  lemma InsideTail(s: string)
    requires LexInside(s) && s[0] != '"' && s[0] != '\\'
    ensures LexInside(s[1..])
  {
    assert s[1..][Close(s[1..]).value + 1..] == s[Close(s).value + 1..];
  }

  lemma InsideQuote(s: string)
    requires LexInside(s) && s[0] == '"'
    ensures Lex(s[1..]).Some?
    ensures Lex(s).Some? ==> LexInside(s[1..])
  {}

  lemma StopsOutside(s: string)
    requires s != "" && s[0] != '"' && (s[0] == '\\' || Lex(s[1..]).None?)
    ensures Lex(s).None?
  {}

  /** Text that continues a literal cannot be cut as text outside of one: quotes swap their roles. */
  lemma {:induction false} InsideIsNotOutside(s: string)
    requires LexInside(s)
    ensures Lex(s).None?
    decreases |s|
  {
    if s[0] == '"' {
      InsideQuote(s);
      if LexInside(s[1..]) { InsideIsNotOutside(s[1..]); }
    } else {
      if s[0] != '\\' {
        InsideTail(s);
        InsideIsNotOutside(s[1..]);
      }
      StopsOutside(s);
    }
  }

  // ----- The top-level member -----

  predicate Blank(t: Token) {
    t.Mark? && JsonSpace(t.c)
  }

  /** The last token before `i` that is not a blank, or -1. */
  function Before(ts: seq<Token>, i: int): (r: int)
    requires i <= |ts|
    ensures r < |ts| && (r >= 0 ==> r < i && !Blank(ts[r]))
  {
    if i <= 0 then -1 else if !Blank(ts[i - 1]) then i - 1 else Before(ts, i - 1)
  }

  /** How many objects and arrays are open. */
  function Depth(ts: seq<Token>, i: nat): int
    requires i <= |ts|
  {
    if i == 0 then 0
    else
      Depth(ts, i - 1)
      + if ts[i - 1] == Mark('{') || ts[i - 1] == Mark('[') then 1
        else if ts[i - 1] == Mark('}') || ts[i - 1] == Mark(']') then -1
        else 0
  }

  const VERSION := "version"

  predicate IsVersionKey(t: Token) {
    t.Text? && Unescape(t.raw) == Some(Units(VERSION))
  }

  /** A key stands behind `{` or `,`. */
  predicate IsKeyAt(ts: seq<Token>, i: int)
    requires i < |ts|
  {
    i >= 0 && var p := Before(ts, i); p >= 0 && (ts[p] == Mark('{') || ts[p] == Mark(','))
  }

  /** Token `v` starts the value of a top-level member named `version`. */
  predicate IsVersionValue(ts: seq<Token>, v: nat)
    requires v < |ts|
  {
    !Blank(ts[v]) &&
    var c := Before(ts, v);
    c >= 0 && ts[c] == Mark(':') &&
    var k := Before(ts, c);
    k >= 0 && IsVersionKey(ts[k]) && IsKeyAt(ts, k) && Depth(ts, k) == 1
  }

  /** Of several members the last one counts. */
  function LastVersion(ts: seq<Token>, n: nat): (v: Option<nat>)
    requires n <= |ts|
    ensures v.Some? ==> v.value < n && IsVersionValue(ts, v.value)
  {
    if n == 0 then None
    else if IsVersionValue(ts, n - 1) then Some(n - 1)
    else LastVersion(ts, n - 1)
  }

  // ----- Reading -----

  /** What a grammar sees of a token. */
  datatype Kind = Literally | Char(c: char)

  type Grammar = seq<Kind> -> bool

  function KindOf(t: Token): Kind {
    match t
    case Text(_) => Literally
    case Mark(c) => Char(c)
  }

  function Kinds(ts: seq<Token>): (r: seq<Kind>)
    ensures |r| == |ts| && forall i :: 0 <= i < |ts| ==> r[i] == KindOf(ts[i])
  {
    seq(|ts|, i requires 0 <= i < |ts| => KindOf(ts[i]))
  }

  predicate Escapes(ts: seq<Token>) {
    forall t :: t in ts && t.Text? ==> Unescape(t.raw).Some?
  }

  /** `JSON.parse` accepts the text. */
  predicate IsJson(g: Grammar, s: string) {
    Lex(s).Some? && Escapes(Lex(s).value) && g(Kinds(Lex(s).value))
  }

  /** The token that `JSON.parse(s).version` comes from. */
  function VersionToken(s: string): Option<nat>
    requires Lex(s).Some?
  {
    LastVersion(Lex(s).value, |Lex(s).value|)
  }

  /** `JSON.parse(s).version`, if the text parses and that is a string. */
  function ReadVersion(g: Grammar, s: string): Option<seq<int>> {
    if !IsJson(g, s) || VersionToken(s).None? then None
    else
      var t := Lex(s).value[VersionToken(s).value];
      if t.Text? then Unescape(t.raw) else None
  }
}
