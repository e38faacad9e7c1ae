/**
 * The line-framed stdio transport and its agreement with the HTTP transport.
 *
 * Decoding bytes, reading and writing succeed or are inputs; parsing and handling are functions.
 */
module StdioJsonRpc {
  import opened Prelude

  /**
   * What a transport is given. `handle` threads the server's state; it answers `None` when the handler
   * rejects.
   */
  datatype Options<!S, !J, !Q, !R> = Options(
    parseJson: string -> Option<J>,
    parseRequest: J -> Option<Q>,
    handle: (S, Q) -> (S, Option<R>),
    isNotification: Q -> bool,
    parseError: R,
    invalidRequest: R,
    errorResponse: Q -> R)

  /** The answer to a request, if it is not a notification. */
  function Answer<S, J, Q, R>(o: Options<S, J, Q, R>, s: S, q: Q): (S, Option<R>) {
    var (next, response) := o.handle(s, q);
    if o.isNotification(q) then (next, None)
    else (next, Some(if response.Some? then response.value else o.errorResponse(q)))
  }

  /** The answer to one non-blank, trimmed line. */
  function Reply<S, J, Q, R>(o: Options<S, J, Q, R>, s: S, line: string): (S, Option<R>) {
    match o.parseJson(line)
    case None => (s, Some(o.parseError))
    case Some(payload) =>
      match o.parseRequest(payload)
      case None => (s, Some(o.invalidRequest))
      case Some(q) => Answer(o, s, q)
  }

  // ----- Lines of a text -----

  /** The newline-terminated lines. */
  function Lines(text: string): seq<string> {
    var i := Find(text, '\n');
    if i == |text| then [] else [text[..i]] + Lines(text[i + 1..])
  }

  /** What follows the last newline. */
  function Tail(text: string): (t: string)
    ensures '\n' !in t
  {
    var i := Find(text, '\n');
    if i == |text| then
      assert text[..i] == text;
      text
    else Tail(text[i + 1..])
  }

  lemma LineAhead(line: string, rest: string)
    requires '\n' !in line
    ensures Lines(line + "\n" + rest) == [line] + Lines(rest) && Tail(line + "\n" + rest) == Tail(rest)
  {
    var text := line + "\n" + rest;
    assert text[..|line|] == line && text[|line| + 1..] == rest;
    FindUnique(text, '\n', |line|);
  }

  /** Reading more text adds the lines it completes. */
  lemma {:induction false} LinesConcat(a: string, b: string)
    ensures Continues(a, b)
    decreases |a|
  {
    var i := Find(a, '\n');
    if i == |a| {
      assert Lines(a) == [] && [] + Lines(a + b) == Lines(a + b);
    } else {
      LinesConcat(a[i + 1..], b);
      LineBefore(a[..i], a[i + 1..], b);
      assert a == a[..i] + "\n" + a[i + 1..];
    }
  }

  ghost predicate Continues(a: string, b: string) {
    Lines(a + b) == Lines(a) + Lines(Tail(a) + b) && Tail(a + b) == Tail(Tail(a) + b)
  }

  lemma LineBefore(line: string, rest: string, b: string)
    requires '\n' !in line && Continues(rest, b)
    ensures Continues(line + "\n" + rest, b)
  {
    LineAhead(line, rest);
    LineAhead(line, rest + b);
    Associate(line + "\n", rest, b);
    Associate([line], Lines(rest), Lines(Tail(rest) + b));
  }

  // ----- Serving lines in order -----

  /** One line, as it was cut from the buffer: nothing is written for a blank one. */
  function ServeLine<S, J, Q, R>(o: Options<S, J, Q, R>, s: S, raw: string): (S, seq<R>) {
    var line := Trim(raw);
    if line == "" then (s, [])
    else
      var (next, response) := Reply(o, s, line);
      (next, if response.Some? then [response.value] else [])
  }

  /** The final state and every response, in order. */
  function Serve<S, J, Q, R>(o: Options<S, J, Q, R>, s: S, lines: seq<string>): (S, seq<R>) {
    if lines == [] then (s, [])
    else
      var (before, written) := Serve(o, s, lines[..|lines| - 1]);
      var (next, more) := ServeLine(o, before, lines[|lines| - 1]);
      (next, written + more)
  }

  lemma ServeSnoc<S, J, Q, R>(o: Options<S, J, Q, R>, s: S, lines: seq<string>, line: string)
    ensures Serve(o, s, lines + [line])
         == var (before, written) := Serve(o, s, lines);
            var (next, more) := ServeLine(o, before, line);
            (next, written + more)
  {
    assert (lines + [line])[..|lines + [line]| - 1] == lines;
  }

  lemma {:induction false} ServeConcat<S, J, Q, R>(o: Options<S, J, Q, R>, s: S, a: seq<string>, b: seq<string>)
    ensures Serve(o, s, a + b)
         == var (mid, first) := Serve(o, s, a);
            var (last, second) := Serve(o, mid, b);
            (last, first + second)
  {
    var (mid, first) := Serve(o, s, a);
    if b == [] {
      assert a + b == a;
      assert first + [] == first;
    } else {
      var init, line := b[..|b| - 1], b[|b| - 1];
      ServeConcat(o, s, a, init);
      LastOfConcat(a, b);
      ServeSnoc(o, s, a + init, line);
      var (before, second) := Serve(o, mid, init);
      var (last, more) := ServeLine(o, before, line);
      assert Serve(o, mid, b) == (last, second + more);
      assert (first + second) + more == first + (second + more);
    }
  }

  lemma LastOfConcat(a: seq<string>, b: seq<string>)
    requires b != []
    ensures a + b == (a + b[..|b| - 1]) + [b[|b| - 1]]
  {}

  // ----- The read loop -----

  /** What one turn of the outer loop meets: not running any more, a failed read, the end, no value, or a chunk. */
  datatype Read = Stopped | Failed | Done | NoValue | Chunk(text: string)

  /** The text that arrives before the loop ends. */
  function Received(turns: seq<Read>): string {
    if turns == [] || turns[0].Stopped? || turns[0].Failed? || turns[0].Done? then ""
    else (if turns[0].Chunk? then turns[0].text else "") + Received(turns[1..])
  }

  lemma {:induction false} ReceivedPrefix(turns: seq<Read>, n: nat)
    requires n <= |turns| && forall i :: 0 <= i < n ==> turns[i].NoValue? || turns[i].Chunk?
    ensures Received(turns) == Received(turns[..n]) + Received(turns[n..])
  {
    if n == 0 {
      assert turns[0..] == turns && turns[..0] == [];
    } else {
      ReceivedPrefix(turns[1..], n - 1);
      assert turns[..n][1..] == turns[1..][..n - 1] && turns[1..][n - 1..] == turns[n..];
      assert turns[..n][0] == turns[0];
    }
  }

  /** The body of the inner loop: the responses written for one line. */
  method AnswerLine<S, J, Q, R>(o: Options<S, J, Q, R>, before: S, raw: string) returns (s: S, written: seq<R>)
    ensures (s, written) == ServeLine(o, before, raw)
  {
    s := before;
    var line := Trim(raw);
    if line == "" { return s, []; }
    var payload := o.parseJson(line);
    if payload.None? { return s, [o.parseError]; }
    var request := o.parseRequest(payload.value);
    if request.None? { return s, [o.invalidRequest]; }
    var notification := o.isNotification(request.value);
    var (next, response) := o.handle(s, request.value);
    s := next;
    if notification {
      written := [];
    } else if response.Some? {
      written := [response.value];
    } else {
      written := [o.errorResponse(request.value)];
    }
  }

  /** The inner loop: every line the buffer completes, answered in order. */
  method DrainBuffer<S, J, Q, R>(o: Options<S, J, Q, R>, start: S, text: string)
    returns (s: S, written: seq<R>, buffer: string)
    ensures (s, written) == Serve(o, start, Lines(text))
    ensures buffer == Tail(text)
  {
    s, written, buffer := start, [], text;
    ghost var all := Lines(text);
    ghost var done: seq<string>, pending := [], all;
    while true
      invariant pending == Lines(buffer) && done + pending == all
      invariant Tail(buffer) == Tail(text)
      invariant (s, written) == Serve(o, start, done)
      decreases |buffer|
    {
      var newlineIndex := Find(buffer, '\n');
      if newlineIndex == |buffer| { break; }
      var raw := buffer[..newlineIndex];
      buffer := DropLine(buffer);
      ServeSnoc(o, start, done, raw);
      Regroup(done, raw, pending);
      done, pending := done + [raw], pending[1..];
      var answers;
      s, answers := AnswerLine(o, s, raw);
      written := written + answers;
    }
    assert pending == [] && done == all;
  }

  /** `buffer.slice(newlineIndex + 1)`. */
  method DropLine(text: string) returns (rest: string)
    requires Find(text, '\n') < |text|
    ensures rest == text[Find(text, '\n') + 1..]
    ensures Lines(text) != [] && Lines(text)[0] == text[..Find(text, '\n')] && Lines(text)[1..] == Lines(rest)
    ensures Tail(text) == Tail(rest)
  {
    rest := text[Find(text, '\n') + 1..];
    ghost var more := Lines(rest);
    assert Lines(text) == [text[..Find(text, '\n')]] + more;
  }

  lemma Regroup(done: seq<string>, raw: string, pending: seq<string>)
    requires pending != [] && pending[0] == raw
    ensures done + pending == (done + [raw]) + pending[1..]
  {}

  lemma NextTurn(turns: seq<Read>, i: nat)
    requires i < |turns| && forall j :: 0 <= j <= i ==> turns[j].NoValue? || turns[j].Chunk?
    ensures Received(turns[..i + 1]) == Received(turns[..i]) + if turns[i].Chunk? then turns[i].text else ""
  {
    ReceivedPrefix(turns[..i + 1], i);
    assert turns[..i + 1][..i] == turns[..i] && turns[..i + 1][i..] == [turns[i]];
    assert Received([turns[i]]) == (if turns[i].Chunk? then turns[i].text else "") + Received([]);
  }

  lemma LastTurn(turns: seq<Read>, i: nat)
    requires i < |turns| && forall j :: 0 <= j < i ==> turns[j].NoValue? || turns[j].Chunk?
    requires turns[i].Stopped? || turns[i].Failed? || turns[i].Done?
    ensures Received(turns) == Received(turns[..i])
  {
    ReceivedPrefix(turns, i);
    assert Received(turns[i..]) == "";
    assert Received(turns[..i]) + "" == Received(turns[..i]);
  }

  /** A chunk: `received` is the text before it, and `written` the responses to that text. */
  method TakeChunk<S, J, Q, R>(
      o: Options<S, J, Q, R>, ghost start: S, ghost received: string,
      before: S, ghost written: seq<R>, unfinished: string, text: string)
    returns (s: S, answers: seq<R>, buffer: string)
    requires (before, written) == Serve(o, start, Lines(received)) && unfinished == Tail(received)
    ensures (s, written + answers) == Serve(o, start, Lines(received + text))
    ensures buffer == Tail(received + text)
  {
    LinesConcat(received, text);
    ServeConcat(o, start, Lines(received), Lines(unfinished + text));
    s, answers, buffer := DrainBuffer(o, before, unfinished + text);
  }

  /**
   * The outer loop. Responses and final state depend only on the text received, never on where it was
   * cut into chunks, and the unfinished line stays in the buffer.
   */
  method ReadLoop<S, J, Q, R>(o: Options<S, J, Q, R>, start: S, turns: seq<Read>)
    returns (s: S, written: seq<R>, buffer: string)
    ensures (s, written) == Serve(o, start, Lines(Received(turns)))
    ensures buffer == Tail(Received(turns))
  {
    s, written, buffer := start, [], "";
    var i := 0;
    ghost var received := "";
    while i < |turns|
      invariant 0 <= i <= |turns|
      invariant forall j :: 0 <= j < i ==> turns[j].NoValue? || turns[j].Chunk?
      invariant received == Received(turns[..i])
      invariant (s, written) == Serve(o, start, Lines(received))
      invariant buffer == Tail(received)
    {
      var turn := turns[i];
      if turn.Stopped? || turn.Failed? || turn.Done? {
        LastTurn(turns, i);
        return;
      }
      NextTurn(turns, i);
      if turn.Chunk? {
        var answers;
        s, answers, buffer := TakeChunk(o, start, received, s, written, buffer, turn.text);
        written := written + answers;
        received := received + turn.text;
      } else {
        assert received + "" == received;
      }
      i := i + 1;
    }
    assert turns[..|turns|] == turns;
  }

  /** What was answered stays answered: more text only appends responses. */
  lemma MoreTextAppends<S, J, Q, R>(o: Options<S, J, Q, R>, s: S, a: string, b: string)
    ensures Serve(o, s, Lines(a)).1 <= Serve(o, s, Lines(a + b)).1
  {
    LinesConcat(a, b);
    ServeConcat(o, s, Lines(a), Lines(Tail(a) + b));
  }

  // ----- What lines are -----

  function Rejoined(lines: seq<string>): string {
    if lines == [] then "" else lines[0] + "\n" + Rejoined(lines[1..])
  }

  /** The lines, each with its newline, and the unfinished rest are the text; no line holds a newline. */
  lemma {:induction false} LinesRejoin(text: string)
    ensures Rejoined(Lines(text)) + Tail(text) == text
    ensures forall line :: line in Lines(text) ==> '\n' !in line
    decreases |text|
  {
    var i := Find(text, '\n');
    if i < |text| {
      LinesRejoin(text[i + 1..]);
      assert Lines(text)[1..] == Lines(text[i + 1..]);
      assert text == text[..i] + "\n" + text[i + 1..];
      Associate(text[..i] + "\n", Rejoined(Lines(text[i + 1..])), Tail(text[i + 1..]));
    }
  }

  /** Chunks arrive one after another, turns without a value add nothing, and the loop ends at the first of the others. */
  lemma ReceivedTurn(turn: Read, rest: seq<Read>)
    ensures turn.Chunk? ==> Received([turn] + rest) == turn.text + Received(rest)
    ensures turn.NoValue? ==> Received([turn] + rest) == Received(rest)
    ensures turn.Stopped? || turn.Failed? || turn.Done? ==> Received([turn] + rest) == ""
    ensures Received([]) == ""
  {
    assert ([turn] + rest)[1..] == rest;
    assert "" + Received(rest) == Received(rest);
  }
}
