/**
 * The bounded read of an error body, and the message built from it.
 */
module ErrorBody {
  import opened Prelude

  type Bytes = seq<int>

  function Concat(chunks: seq<Bytes>): Bytes {
    if chunks == [] then [] else chunks[0] + Concat(chunks[1..])
  }

  function Take(bytes: Bytes, n: nat): Bytes {
    if |bytes| <= n then bytes else bytes[..n]
  }

  /** The reader of a response body: the chunks still to come. */
  class BodyReader {
    var pending: seq<Bytes>
    var cancelled: bool
    var locked: bool

    constructor (chunks: seq<Bytes>)
      ensures pending == chunks && !cancelled && locked
    {
      pending, cancelled, locked := chunks, false, true;
    }

    /** The next chunk, or the end. */
    method Read() returns (done: bool, value: Bytes)
      modifies this`pending
      ensures done == (old(pending) == [])
      ensures !done ==> value == old(pending)[0] && pending == old(pending)[1..]
      ensures done ==> pending == []
    {
      if pending == [] { return true, []; }
      done, value, pending := false, pending[0], pending[1..];
    }

    method Cancel()
      modifies this`cancelled
      ensures cancelled
    {
      cancelled := true;
    }

    method ReleaseLock()
      modifies this`locked
      ensures !locked
    {
      locked := false;
    }
  }

  /**
   * What the bounded read reports for a body, however it is chunked: its first `maxBytes` bytes, whether the end of
   * the stream was seen, and whether the body reaches the limit.
   */
  datatype Prefix = Prefix(bytes: Bytes, ended: bool, truncated: bool)

  function PrefixOf(body: Option<Bytes>, maxBytes: nat): Prefix {
    match body
    case None => Prefix([], true, false)
    case Some(bytes) => Prefix(Take(bytes, maxBytes), |bytes| < maxBytes, |bytes| >= maxBytes)
  }

  /**
   * Reads exactly the first `maxBytes` bytes of the body however it is chunked. `ended` is the end of the
   * stream having been seen; then, and only then, the decoder is flushed and the reader is not cancelled.
   */
  method ReadErrorBodyPrefix(reader: BodyReader?, maxBytes: nat) returns (bytes: Bytes, ended: bool, truncated: bool)
    requires reader != null ==> !reader.cancelled
    modifies reader
    ensures Prefix(bytes, ended, truncated)
         == PrefixOf(if reader == null then None else Some(Concat(old(reader.pending))), maxBytes)
    ensures reader != null ==> (reader.cancelled <==> !ended) && !reader.locked
  {
    if reader == null { return [], true, false; }
    ghost var body := Concat(reader.pending);
    var remaining := maxBytes;
    bytes, ended, truncated := [], false, false;
    while remaining > 0
      invariant 0 <= remaining && remaining + |bytes| == maxBytes
      invariant |bytes| <= |body| && bytes == body[..|bytes|]
      invariant Concat(reader.pending) == body[|bytes|..]
      invariant !reader.cancelled && !ended && !truncated
      decreases |reader.pending|
    {
      var done, value := reader.Read();
      if done {
        assert body[|bytes|..] == [] && |bytes| == |body|;
        ended := true;
        break;
      }
      var selected := if |value| <= remaining then value else value[..remaining];
      assert value + Concat(reader.pending) == body[|bytes|..];
      assert selected == body[|bytes|..][..|selected|];
      bytes := bytes + selected;
      remaining := remaining - |selected|;
      if |selected| < |value| {
        assert |bytes| == maxBytes < |body|;
        truncated := true;
        break;
      }
      assert body[|bytes|..] == body[|bytes| - |value|..][|value|..];
    }
    assert body[..|body|] == body;
    if !ended && remaining == 0 { truncated := true; }
    if !ended { reader.Cancel(); }
    reader.ReleaseLock();
  }

  // ----- The message -----

  /** `.replace(/\s+/g, " ")`. */
  function CollapseSpaces(s: string): string
    decreases |s|
  {
    if s == "" then ""
    else if !IsSpace(s[0]) then [s[0]] + CollapseSpaces(s[1..])
    else " " + CollapseSpaces(TrimStart(s))
  }

  function Normalize(text: string): string {
    Trim(CollapseSpaces(text))
  }

  const MAX_ERROR_BODY_BYTES := 2048
  const MAX_ERROR_DETAIL_CHARS := 512

  function Slice(s: string, n: nat): string {
    if |s| <= n then s else s[..n]
  }

  function Detail(text: string): string {
    Slice(Normalize(text), MAX_ERROR_DETAIL_CHARS)
  }

  /** Whether the message ends in an ellipsis: only a message with a detail has one. */
  predicate Ellipsis(text: string, truncated: bool) {
    Detail(text) != "" && (truncated || |Normalize(text)| > MAX_ERROR_DETAIL_CHARS)
  }

  function ErrorMessage(path: string, status: string, text: string, truncated: bool): string {
    Failed(path, status) + Shown(if Ellipsis(text, truncated) then Detail(text) + "\U{2026}" else Detail(text))
  }

  function Failed(path: string, status: string): string {
    "Dev server request " + path + " failed with HTTP " + status
  }

  /** A detail behind the status, if there is one. */
  function Shown(detail: string): string {
    if detail == "" then "" else ": " + detail
  }

  /** The whole body, decoded to its end. */
  function Whole(decode: (Bytes, bool) -> string, body: Option<Bytes>): string {
    match body case None => decode([], true) case Some(bytes) => decode(bytes, true)
  }

  /** The text of the bounded read: a streaming decoder, flushed only at the end. */
  function PrefixText(decode: (Bytes, bool) -> string, body: Option<Bytes>): string {
    var p := PrefixOf(body, MAX_ERROR_BODY_BYTES);
    decode(p.bytes, p.ended)
  }

  /** The message for a response with this body. */
  function MessageFor(path: string, status: string, decode: (Bytes, bool) -> string, body: Option<Bytes>): string {
    ErrorMessage(path, status, PrefixText(decode, body), PrefixOf(body, MAX_ERROR_BODY_BYTES).truncated)
  }

  /** The message that shows the whole body, its whitespace normalised. */
  function FullMessage(path: string, status: string, decode: (Bytes, bool) -> string, body: Option<Bytes>): string {
    Failed(path, status) + Shown(Normalize(Whole(decode, body)))
  }

  lemma ShownApart(prefix: string, a: string, b: string)
    ensures prefix + Shown(a) == prefix + Shown(b) <==> a == b
  {
    assert (prefix + Shown(a))[|prefix|..] == Shown(a) && (prefix + Shown(b))[|prefix|..] == Shown(b);
    assert a != "" ==> Shown(a)[2..] == a;
    assert b != "" ==> Shown(b)[2..] == b;
  }

  /**
   * A message without an ellipsis shows the whole normalised body, except exactly when the body is cut, the part
   * that was read is blank and the rest is not: then the message shows nothing of it.
   */
  lemma NoEllipsisShowsAllIff(path: string, status: string, decode: (Bytes, bool) -> string, body: Option<Bytes>)
    requires !Ellipsis(PrefixText(decode, body), PrefixOf(body, MAX_ERROR_BODY_BYTES).truncated)
    ensures MessageFor(path, status, decode, body) == FullMessage(path, status, decode, body) <==>
      !(PrefixOf(body, MAX_ERROR_BODY_BYTES).truncated && Normalize(PrefixText(decode, body)) == ""
        && Normalize(Whole(decode, body)) != "")
  {
    if body.Some? && |body.value| < MAX_ERROR_BODY_BYTES { assert PrefixOf(body, MAX_ERROR_BODY_BYTES).bytes == body.value; }
    ShownApart(Failed(path, status), Detail(PrefixText(decode, body)), Normalize(Whole(decode, body)));
  }

  // ----- The exception is real -----

  function Ascii(bytes: Bytes): string {
    if bytes == [] then "" else [if 0 <= bytes[0] < 128 then bytes[0] as char else '?'] + Ascii(bytes[1..])
  }

  ghost predicate Blank(bytes: Bytes) {
    forall i :: 0 <= i < |bytes| ==> bytes[i] == 32
  }

  lemma {:induction false} BlankTrims(blanks: Bytes, rest: Bytes)
    requires Blank(blanks) && (rest == [] || rest == [120])
    ensures TrimStart(Ascii(blanks + rest)) == Ascii(rest)
  {
    if blanks == [] {
      assert blanks + rest == rest;
    } else {
      assert (blanks + rest)[1..] == blanks[1..] + rest;
      BlankTrims(blanks[1..], rest);
      var s := Ascii(blanks + rest);
      assert s[0] == ' ' && s[1..] == Ascii(blanks[1..] + rest);
    }
  }

  lemma BlankNormalizes(blanks: Bytes, rest: Bytes)
    requires Blank(blanks) && blanks != [] && (rest == [] || rest == [120])
    ensures Normalize(Ascii(blanks + rest)) == Ascii(rest)
  {
    var s := Ascii(blanks + rest);
    BlankTrims(blanks, rest);
    assert (blanks + rest)[0] == 32 && s[0] == ' ';
    var c := CollapseSpaces(Ascii(rest));
    assert Ascii([120]) == "x" && "x"[1..] == "" && c == Ascii(rest) by { assert [120][1..] == []; }
    assert CollapseSpaces(s) == " " + c;
    assert (" " + c)[1..] == c;
    assert TrimStart(" " + c) == TrimStart(c) == c;
  }

  /** 2048 blanks and then a letter: the message has neither an ellipsis nor the letter. */
  lemma BlankPrefixHidesBody(path: string, status: string, blanks: Bytes)
    requires |blanks| == MAX_ERROR_BODY_BYTES && Blank(blanks)
    ensures
      var decode := (bytes: Bytes, flush: bool) => Ascii(bytes);
      var body := Some(blanks + [120]);
      && !Ellipsis(PrefixText(decode, body), PrefixOf(body, MAX_ERROR_BODY_BYTES).truncated)
      && MessageFor(path, status, decode, body) == Failed(path, status)
      && FullMessage(path, status, decode, body) == Failed(path, status) + ": x"
  {
    assert (blanks + [120])[..MAX_ERROR_BODY_BYTES] == blanks;
    assert blanks + [] == blanks;
    BlankNormalizes(blanks, []);
    BlankNormalizes(blanks, [120]);
  }

  // ----- What a normalised text is -----

  function WordLength(s: string): (n: nat)
    ensures n <= |s| && (forall i :: 0 <= i < n ==> !IsSpace(s[i])) && (n < |s| ==> IsSpace(s[n]))
  {
    if s == "" || IsSpace(s[0]) then 0 else 1 + WordLength(s[1..])
  }

  /** The maximal runs of characters that are not blank. */
  function Words(s: string): (ws: seq<string>)
    ensures forall i :: 0 <= i < |ws| ==> ws[i] != "" && forall j :: 0 <= j < |ws[i]| ==> !IsSpace(ws[i][j])
    decreases |s|
  {
    var t := TrimStart(s);
    if t == "" then [] else [t[..WordLength(t)]] + Words(t[WordLength(t)..])
  }

  /** Words with one space between each two. */
  function Spaced(ws: seq<string>): string {
    if ws == [] then "" else if |ws| == 1 then ws[0] else ws[0] + (" " + Spaced(ws[1..]))
  }

  lemma {:induction false} CollapseWord(w: string, rest: string)
    requires forall i :: 0 <= i < |w| ==> !IsSpace(w[i])
    ensures CollapseSpaces(w + rest) == w + CollapseSpaces(rest)
  {
    if w == "" {
      assert w + rest == rest;
    } else {
      assert (w + rest)[1..] == w[1..] + rest;
      CollapseWord(w[1..], rest);
    }
  }

  lemma {:induction false} TrimEndConcat(a: string, b: string)
    requires TrimEnd(b) != ""
    ensures TrimEnd(a + b) == a + TrimEnd(b)
  {
    if IsSpace(b[|b| - 1]) {
      assert (a + b)[..|a + b| - 1] == a + b[..|b| - 1];
      TrimEndConcat(a, b[..|b| - 1]);
    }
  }

  lemma TrimEndWord(w: string)
    requires w != "" && forall i :: 0 <= i < |w| ==> !IsSpace(w[i])
    ensures TrimEnd(w) == w && TrimEnd(w + " ") == w
  {
    assert (w + " ")[..|w|] == w;
  }

  lemma WordsOf(t: string)
    requires t != "" && !IsSpace(t[0])
    ensures TrimStart(t) == t && WordLength(t) > 0
    ensures Words(t) == [t[..WordLength(t)]] + Words(t[WordLength(t)..])
  {}

  lemma {:induction false} TrimStartTwice(s: string)
    ensures TrimStart(TrimStart(s)) == TrimStart(s)
  {
    if s != "" && IsSpace(s[0]) { TrimStartTwice(s[1..]); }
  }

  lemma WordsTrimmed(s: string)
    ensures Words(TrimStart(s)) == Words(s)
  {
    TrimStartTwice(s);
  }

  /** Collapsed text from its first word on, trimmed at the end, is its words with one space between each two. */
  lemma {:induction false} CollapsedWords(t: string)
    requires t != "" && !IsSpace(t[0])
    ensures TrimEnd(CollapseSpaces(t)) == Spaced(Words(t))
    decreases |t|
  {
    var n := WordLength(t);
    var w, rest := t[..n], t[n..];
    var next := TrimStart(rest);
    WordsOf(t);
    WordsTrimmed(rest);
    CollapseWord(w, rest);
    TrimEndWord(w);
    assert t == w + rest;
    if next == "" {
      assert Words(rest) == [];
      LastWord(w, rest);
    } else {
      CollapsedWords(next);
      NextWord(w, rest, next);
    }
  }

  lemma LastWord(w: string, rest: string)
    requires w != "" && forall i :: 0 <= i < |w| ==> !IsSpace(w[i])
    requires (rest != "" ==> IsSpace(rest[0])) && TrimStart(rest) == ""
    ensures TrimEnd(w + CollapseSpaces(rest)) == w
  {
    TrimEndWord(w);
    assert w + "" == w && " " + "" == " ";
  }

  lemma NextWord(w: string, rest: string, next: string)
    requires rest != "" && IsSpace(rest[0]) && next == TrimStart(rest) && next != ""
    requires TrimEnd(CollapseSpaces(next)) == Spaced(Words(next)) && Words(next) == Words(rest)
    ensures TrimEnd(w + CollapseSpaces(rest)) == Spaced([w] + Words(rest))
  {
    WordsOf(next);
    SpacedShows(Words(next));
    BehindSpace(w, CollapseSpaces(next));
    SpacedCons(w, Words(rest));
    Associate(w, " ", Spaced(Words(rest)));
  }

  lemma BehindSpace(w: string, c: string)
    requires TrimEnd(c) != ""
    ensures TrimEnd(w + (" " + c)) == (w + " ") + TrimEnd(c)
  {
    Associate(w, " ", c);
    TrimEndConcat(w + " ", c);
  }

  lemma SpacedCons(w: string, ws: seq<string>)
    requires ws != []
    ensures Spaced([w] + ws) == w + (" " + Spaced(ws))
  {
    assert ([w] + ws)[1..] == ws;
  }

  lemma SpacedShows(ws: seq<string>)
    requires ws != [] && ws[0] != ""
    ensures Spaced(ws) != ""
  {}

  /** A normalised text is the words of the text, with one space between each two. */
  lemma NormalizedIsSpaced(text: string)
    ensures Normalize(text) == Spaced(Words(text))
  {
    var t := TrimStart(text);
    WordsTrimmed(text);
    CollapseStarts(text);
    if t != "" {
      CollapsedWords(t);
    }
  }

  lemma CollapseStarts(s: string)
    ensures TrimStart(CollapseSpaces(s)) == CollapseSpaces(TrimStart(s))
  {
    var t := TrimStart(s);
    var c := CollapseSpaces(t);
    assert c == "" || !IsSpace(c[0]);
    if s != "" && IsSpace(s[0]) {
      assert (" " + c)[1..] == c;
      assert TrimStart(" " + c) == TrimStart(c);
    }
  }

  /** The words of a detail, at most 512 characters of them. */
  function Shortened(s: string): string {
    if |s| <= 512 then s else s[..512]
  }

  /** The whole message: status, and the first words of the body with an ellipsis where something is missing. */
  lemma MessageText(path: string, status: string, text: string, truncated: bool)
    ensures
      var words := Spaced(Words(text));
      var head := "Dev server request " + path + " failed with HTTP " + status;
      ErrorMessage(path, status, text, truncated) ==
        if words == "" then head
        else if truncated || |words| > 512 then head + (": " + (Shortened(words) + "\U{2026}"))
        else head + (": " + words)
  {
    NormalizedIsSpaced(text);
  }
}
