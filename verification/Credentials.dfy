/**
 * Checking credentials, and the three walks over the candidate credentials of a command.
 *
 * What the API answers is part of the input. Deleting the stored login succeeds.
 */
module Credentials {
  import opened Prelude

  // ----- Validating one credential -----

  datatype Kind = Network | Service | Timeout

  /**
   * What validation may throw: the API was unavailable, the network error of the login prompt, an abort or
   * time-out, a `TypeError` (how `fetch` reports an unreachable host), or anything else.
   */
  datatype Error = Unavailable(kind: Kind) | NetworkError | TimeoutError | TypeError | OtherError

  datatype Identity = User(id: string, email: string) | ApiKey

  /** The body of a successful `/me` response: a user, some other JSON, or unreadable. */
  datatype Body = UserBody(id: string, email: string) | OtherBody | Unreadable(error: Error)

  datatype Answer = Response(status: int, body: Body) | NoResponse(error: Error)

  datatype Options = Options(throwOnUnavailable: bool, throwOnNetworkError: bool)

  datatype Outcome = Valid(identity: Identity) | Rejected | Threw(error: Error)

  predicate IsRejectionStatus(status: int) {
    status == 401 || status == 403
  }

  predicate IsOk(status: int) {
    200 <= status <= 299
  }

  function UnavailableFailure(error: Error, fallback: Error): Error {
    match error
    case Unavailable(_) => error
    case TimeoutError => Unavailable(Timeout)
    case TypeError => Unavailable(Network)
    case _ => fallback
  }

  /** The outer `catch`. */
  function HandleFailure(error: Error, o: Options): Outcome {
    if o.throwOnUnavailable then Threw(UnavailableFailure(error, error))
    else if error == NetworkError then Threw(error)
    else if o.throwOnNetworkError && (error == TypeError || error == TimeoutError) then Threw(NetworkError)
    else Rejected
  }

  /** A response that is not a success. */
  function HandleRejectedResponse(status: int, o: Options): Outcome {
    if o.throwOnUnavailable && !IsRejectionStatus(status) then HandleFailure(Unavailable(Service), o)
    else if o.throwOnNetworkError && status >= 500 then HandleFailure(NetworkError, o)
    else Rejected
  }

  predicate IsUserInfo(id: string, email: string) {
    Trim(id) != "" && Trim(email) != ""
  }

  function ValidateToken(token: string, answer: Answer, o: Options): Outcome {
    if Trim(token) == "" then Rejected
    else
      match answer
      case NoResponse(error) => HandleFailure(error, o)
      case Response(status, body) =>
        if !IsOk(status) then HandleRejectedResponse(status, o)
        else if body.UserBody? && IsUserInfo(body.id, body.email) then Valid(User(body.id, body.email))
        else if body.Unreadable? then
          HandleFailure(if o.throwOnUnavailable then UnavailableFailure(body.error, Unavailable(Service)) else body.error, o)
        else if o.throwOnUnavailable then HandleFailure(Unavailable(Service), o)
        else Rejected
  }

  predicate IsApiKeyToken(token: string) {
    "vf_" <= token
  }

  function ValidateApiKey(answer: Answer, o: Options): Outcome {
    match answer
    case NoResponse(error) => HandleFailure(error, o)
    case Response(status, _) => if IsOk(status) then Valid(ApiKey) else HandleRejectedResponse(status, o)
  }

  function ValidateCredential(token: string, answer: Answer, o: Options): Outcome {
    if token == "" then Rejected
    else if IsApiKeyToken(token) then ValidateApiKey(answer, o)
    else ValidateToken(token, answer, o)
  }

  const STRICT := Options(true, false)
  const LENIENT := Options(false, false)

  /** Errors the network layer and the body reader can raise; the others are made by validation itself. */
  predicate Raw(error: Error) {
    error == TimeoutError || error == TypeError || error == OtherError
  }

  predicate RawAnswer(answer: Answer) {
    match answer
    case NoResponse(error) => Raw(error)
    case Response(_, body) => body.Unreadable? ==> Raw(body.error)
  }

  /** Checking strictly, a non-blank token is rejected exactly by a 401 or 403; no failure rejects it. */
  lemma StrictRejectedIff(token: string, answer: Answer)
    requires RawAnswer(answer)
    ensures ValidateCredential(token, answer, STRICT) == Rejected <==>
      Trim(token) == "" || (answer.Response? && IsRejectionStatus(answer.status))
  {
    if IsApiKeyToken(token) {
      assert token[0] == 'v';
      NotBlank(token, 0);
    }
  }

  /** Checking leniently never throws and accepts the same credentials. */
  lemma LenientNeverThrows(token: string, answer: Answer)
    requires RawAnswer(answer)
    ensures
      var strict, lenient := ValidateCredential(token, answer, STRICT), ValidateCredential(token, answer, LENIENT);
      lenient == if strict.Valid? then strict else Rejected
  {}

  // ----- The candidates of a command -----

  datatype Source = Env | EnvFile | ConfigFile | TokenStore

  /** A candidate, together with what the API answers should it be checked. */
  datatype Candidate = Candidate(token: string, source: Source, authoritative: bool, answer: Answer)

  function Strictly(c: Candidate): Outcome {
    ValidateCredential(c.token, c.answer, STRICT)
  }

  function Default(c: Candidate): Outcome {
    ValidateCredential(c.token, c.answer, if c.source == TokenStore then STRICT else LENIENT)
  }

  predicate IsUnavailable(r: Outcome) {
    r.Threw? && r.error.Unavailable?
  }

  /** How a command ends. `Refused` reports a problem and stops, `Nobody` finds no usable login, `Crashed` throws on. */
  datatype Ending = Found(identity: Identity) | Refused | Nobody | Crashed(error: Error)

  /** How it ends, whether it deleted the stored login, and how many candidates it checked. */
  datatype Trace = Trace(ending: Ending, deletes: bool, checked: nat)

  function Deleting(deletes: bool, t: Trace): Trace {
    t.(deletes := deletes || t.deletes)
  }

  /** The login preflight from candidate `i` on; `down` says an earlier candidate could not be checked. */
  function Describe(json: bool, cs: seq<Candidate>, i: nat, down: bool): Trace
    requires i <= |cs|
    decreases |cs| - i
  {
    var none := if json && down then Refused else Nobody;
    if i == |cs| then Trace(none, false, i)
    else
      var c := cs[i];
      var stored := c.source == TokenStore;
      match Strictly(c)
      case Valid(identity) => Trace(Found(identity), false, i + 1)
      case Rejected =>
        if c.authoritative then Trace(if !json && !stored then Refused else none, stored, i + 1)
        else Deleting(stored, Describe(json, cs, i + 1, down))
      case Threw(error) =>
        if !error.Unavailable? then Trace(Crashed(error), false, i + 1)
        else if c.authoritative || stored then Trace(if json || !stored then Refused else Nobody, false, i + 1)
        else Describe(json, cs, i + 1, true)
  }

  /** `ensureAuthenticated` with default options; `Nobody` is where it falls back to asking. */
  function Ensure(cs: seq<Candidate>, i: nat): Trace
    requires i <= |cs|
    decreases |cs| - i
  {
    if i == |cs| then Trace(Nobody, false, i)
    else
      var c := cs[i];
      match Default(c)
      case Valid(identity) => Trace(Found(identity), false, i + 1)
      case Rejected =>
        if c.authoritative then Trace(Refused, false, i + 1)
        else Deleting(c.source == TokenStore, Ensure(cs, i + 1))
      case Threw(error) =>
        Trace(if c.source == TokenStore && error.Unavailable? then Refused else Crashed(error), false, i + 1)
  }

  function Whoami(cs: seq<Candidate>, i: nat): Trace
    requires i <= |cs|
    decreases |cs| - i
  {
    if i == |cs| then Trace(Nobody, false, i)
    else
      var c := cs[i];
      match Strictly(c)
      case Valid(identity) => Trace(Found(identity), false, i + 1)
      case Rejected =>
        if c.authoritative then Trace(Nobody, c.source == TokenStore, i + 1)
        else Deleting(c.source == TokenStore, Whoami(cs, i + 1))
      case Threw(error) => Trace(if error.Unavailable? then Nobody else Crashed(error), false, i + 1)
  }

  // ----- The code: a loop with an action code, a recursion by index, a loop with breaks -----

  datatype Action = Continue | Stop | Finish(ending: Ending)

  class LoginStore {
    var stored: Option<string>

    constructor (stored: Option<string>)
      ensures this.stored == stored
    {
      this.stored := stored;
    }

    method DeleteToken()
      modifies this
      ensures stored == None
    {
      stored := None;
    }

    method RejectCandidate(json: bool, c: Candidate) returns (a: Action)
      modifies this
      ensures stored == if c.source == TokenStore then None else old(stored)
      ensures a == if !c.authoritative then Continue else if !json && c.source != TokenStore then Finish(Refused) else Stop
    {
      if c.source == TokenStore { DeleteToken(); }
      if c.authoritative {
        if !json && c.source != TokenStore { return Finish(Refused); }
        return Stop;
      }
      a := Continue;
    }

    method DescribeExistingSession(json: bool, cs: seq<Candidate>) returns (r: Ending, ghost checked: nat)
      modifies this
      ensures Trace(r, Describe(json, cs, 0, false).deletes, checked) == Describe(json, cs, 0, false)
      ensures stored == if Describe(json, cs, 0, false).deletes then None else old(stored)
    {
      ghost var deleted := false;
      var unavailable := false;
      var i := 0;
      checked := 0;
      while i < |cs|
        invariant 0 <= i <= |cs| && checked == i
        invariant Describe(json, cs, 0, false) == Deleting(deleted, Describe(json, cs, i, unavailable))
        invariant stored == if deleted then None else old(stored)
      {
        var c := cs[i];
        checked := checked + 1;
        var action;
        match ValidateCredential(c.token, c.answer, STRICT) {
          case Valid(identity) => action := Finish(Found(identity));
          case Rejected =>
            action := RejectCandidate(json, c);
            deleted := deleted || c.source == TokenStore;
          case Threw(error) =>
            if error.Unavailable? {
              unavailable := true;
              action := if !c.authoritative && c.source != TokenStore then Continue
                        else if !json && c.source != TokenStore then Finish(Refused)
                        else Stop;
            } else {
              action := Finish(Crashed(error));
            }
        }
        match action {
          case Continue => i := i + 1;
          case Stop => break;
          case Finish(ending) => return ending, checked;
        }
      }
      r := if json && unavailable then Refused else Nobody;
    }

    method EnsureAuthenticated(cs: seq<Candidate>, index: nat) returns (r: Ending, ghost checked: nat)
      requires index <= |cs|
      modifies this
      decreases |cs| - index
      ensures Trace(r, Ensure(cs, index).deletes, checked) == Ensure(cs, index)
      ensures stored == if Ensure(cs, index).deletes then None else old(stored)
    {
      if index == |cs| { return Nobody, index; }
      var c := cs[index];
      checked := index + 1;
      match ValidateCredential(c.token, c.answer, if c.source == TokenStore then STRICT else LENIENT) {
        case Valid(identity) => return Found(identity), checked;
        case Threw(error) =>
          return if c.source == TokenStore && error.Unavailable? then Refused else Crashed(error), checked;
        case Rejected =>
      }
      if c.authoritative { return Refused, checked; }
      if c.source == TokenStore { DeleteToken(); }
      r, checked := EnsureAuthenticated(cs, index + 1);
    }

    method ReportCredential(c: Candidate) returns (r: Outcome)
      modifies this
      ensures r == Strictly(c)
      ensures stored == if r == Rejected && c.source == TokenStore then None else old(stored)
    {
      r := ValidateCredential(c.token, c.answer, STRICT);
      if r == Rejected && c.source == TokenStore { DeleteToken(); }
    }

    method ReportWhoami(cs: seq<Candidate>) returns (r: Ending, ghost checked: nat)
      modifies this
      ensures Trace(r, Whoami(cs, 0).deletes, checked) == Whoami(cs, 0)
      ensures stored == if Whoami(cs, 0).deletes then None else old(stored)
    {
      ghost var deleted := false;
      checked := 0;
      for i := 0 to |cs|
        invariant checked == i
        invariant Whoami(cs, 0) == Deleting(deleted, Whoami(cs, i))
        invariant stored == if deleted then None else old(stored)
      {
        var c := cs[i];
        checked := checked + 1;
        var result := ReportCredential(c);
        deleted := deleted || (result == Rejected && c.source == TokenStore);
        if IsUnavailable(result) { break; }
        if result.Threw? { return Crashed(result.error), checked; }
        if result.Valid? { return Found(result.identity), checked; }
        if c.authoritative { break; }
      }
      r := Nobody;
    }
  }

  // ----- What the walks have in common -----

  /** No candidate behind an authoritative one is ever checked. */
  lemma NothingPastAuthoritative(json: bool, cs: seq<Candidate>, i: nat, down: bool)
    requires i <= |cs|
    ensures StopsInTime(cs, i, Describe(json, cs, i, down).checked)
    ensures StopsInTime(cs, i, Ensure(cs, i).checked) && StopsInTime(cs, i, Whoami(cs, i).checked)
  {
    DescribeStops(json, cs, i, down);
    EnsureStops(cs, i);
    WhoamiStops(cs, i);
  }

  /** A walk from `i` on checks at least none and at most all, and all it passes by are not authoritative. */
  ghost predicate StopsInTime(cs: seq<Candidate>, i: nat, checked: nat) {
    i <= checked <= |cs| && forall k :: i <= k < checked - 1 ==> !cs[k].authoritative
  }

  lemma {:induction false} DescribeStops(json: bool, cs: seq<Candidate>, i: nat, down: bool)
    requires i <= |cs|
    ensures StopsInTime(cs, i, Describe(json, cs, i, down).checked)
    decreases |cs| - i
  {
    if i < |cs| {
      DescribeStops(json, cs, i + 1, down);
      DescribeStops(json, cs, i + 1, true);
    }
  }

  lemma {:induction false} EnsureStops(cs: seq<Candidate>, i: nat)
    requires i <= |cs|
    ensures StopsInTime(cs, i, Ensure(cs, i).checked)
    decreases |cs| - i
  {
    if i < |cs| { EnsureStops(cs, i + 1); }
  }

  lemma {:induction false} WhoamiStops(cs: seq<Candidate>, i: nat)
    requires i <= |cs|
    ensures StopsInTime(cs, i, Whoami(cs, i).checked)
    decreases |cs| - i
  {
    if i < |cs| { WhoamiStops(cs, i + 1); }
  }

  /** A stored token the API answered with 401 or 403. */
  ghost predicate RefusedStored(c: Candidate) {
    c.source == TokenStore && c.answer.Response? && IsRejectionStatus(c.answer.status)
  }

  /** The stored tokens are not blank: reading the store trims them and drops empty ones. */
  ghost predicate Candidates(cs: seq<Candidate>) {
    forall c :: c in cs ==> RawAnswer(c.answer) && (c.source == TokenStore ==> Trim(c.token) != "")
  }

  /** A walk deletes the stored login only after the API refused it, at a candidate the walk checked. */
  lemma {:induction false} DeletesOnlyRefused(json: bool, cs: seq<Candidate>, i: nat, down: bool)
    requires i <= |cs| && Candidates(cs)
    ensures Describe(json, cs, i, down).deletes ==> exists k :: i <= k < Describe(json, cs, i, down).checked <= |cs| && RefusedStored(cs[k])
    ensures Ensure(cs, i).deletes ==> exists k :: i <= k < Ensure(cs, i).checked <= |cs| && RefusedStored(cs[k])
    ensures Whoami(cs, i).deletes ==> exists k :: i <= k < Whoami(cs, i).checked <= |cs| && RefusedStored(cs[k])
    decreases |cs| - i
  {
    NothingPastAuthoritative(json, cs, i, down);
    if i < |cs| {
      var c := cs[i];
      assert c in cs;
      StrictRejectedIff(c.token, c.answer);
      NothingPastAuthoritative(json, cs, i + 1, down);
      NothingPastAuthoritative(json, cs, i + 1, true);
      DeletesOnlyRefused(json, cs, i + 1, down);
      DeletesOnlyRefused(json, cs, i + 1, true);
    }
  }

  /** Every candidate gets an answer: accepted or rejected, never unavailable. */
  ghost predicate Answered(cs: seq<Candidate>) {
    forall c :: c in cs ==> !Strictly(c).Threw? && RawAnswer(c.answer)
  }

  /** The first candidate from `i` on that is not rejected, or is authoritative. */
  function Settling(cs: seq<Candidate>, i: nat): (n: nat)
    requires i <= |cs|
    ensures i <= n <= |cs|
    ensures forall k :: i <= k < n ==> Strictly(cs[k]) == Rejected && !cs[k].authoritative
    ensures n < |cs| ==> Strictly(cs[n]) != Rejected || cs[n].authoritative
    decreases |cs| - i
  {
    if i == |cs| || Strictly(cs[i]) != Rejected || cs[i].authoritative then i else Settling(cs, i + 1)
  }

  function IdentityOf(e: Ending): Option<Identity> {
    if e.Found? then Some(e.identity) else None
  }

  /** A rejected stored login before the settling candidate. */
  ghost predicate StoredBefore(cs: seq<Candidate>, i: nat, n: nat)
    requires n <= |cs|
  {
    exists k :: i <= k < n && cs[k].source == TokenStore
  }

  /** The settling candidate is itself a rejected stored login, hence an authoritative one. */
  ghost predicate StoredLast(cs: seq<Candidate>, n: nat) {
    n < |cs| && Strictly(cs[n]) == Rejected && cs[n].source == TokenStore
  }

  /**
   * When every candidate is answered, the three walks check the same candidates and name the same identity:
   * the first valid one, reached through rejected non-authoritative ones only.
   */
  lemma {:induction false} WalksAgree(json: bool, cs: seq<Candidate>, i: nat, down: bool)
    requires i <= |cs| && Answered(cs)
    ensures
      var n := Settling(cs, i);
      var d, e, w := Describe(json, cs, i, down), Ensure(cs, i), Whoami(cs, i);
      && d.checked == e.checked == w.checked == (if n < |cs| then n + 1 else n)
      && IdentityOf(d.ending) == IdentityOf(e.ending) == IdentityOf(w.ending)
         == (if n < |cs| && Strictly(cs[n]).Valid? then Some(Strictly(cs[n]).identity) else None)
      && (e.deletes <==> StoredBefore(cs, i, n))
      && (d.deletes <==> StoredBefore(cs, i, n) || StoredLast(cs, n))
      && (w.deletes <==> StoredBefore(cs, i, n) || StoredLast(cs, n))
    decreases |cs| - i
  {
    if i < |cs| {
      var c := cs[i];
      assert c in cs;
      LenientNeverThrows(c.token, c.answer);
      assert Default(c) == Strictly(c);
      if Strictly(c) == Rejected && !c.authoritative {
        WalksAgree(json, cs, i + 1, down);
        var n := Settling(cs, i);
        assert StoredBefore(cs, i, n) <==> c.source == TokenStore || StoredBefore(cs, i + 1, n);
      }
    }
  }

  /**
   * They also delete the same stored login, except exactly when the walk ends at a rejected authoritative
   * stored login: `ensureAuthenticated` returns before deleting that one.
   */
  lemma DeletionsAgreeIff(json: bool, cs: seq<Candidate>)
    requires Answered(cs)
    ensures
      var n := Settling(cs, 0);
      var d, e, w := Describe(json, cs, 0, false), Ensure(cs, 0), Whoami(cs, 0);
      && d.deletes == w.deletes
      && (e.deletes == w.deletes <==> !StoredLast(cs, n) || StoredBefore(cs, 0, n))
  {
    WalksAgree(json, cs, 0, false);
  }

  // ----- How each walk ends, on every list -----

  /** The walk goes on behind a candidate that is refused and not authoritative. */
  predicate Refuted(c: Candidate, r: Outcome) {
    r == Rejected && !c.authoritative
  }

  /** The preflight also goes on behind one it cannot check, if that is neither authoritative nor the stored login. */
  predicate Skipped(c: Candidate) {
    IsUnavailable(Strictly(c)) && !c.authoritative && c.source != TokenStore
  }

  ghost predicate DescribeSettles(cs: seq<Candidate>, i: nat, n: nat) {
    && i <= n <= |cs|
    && (forall k :: i <= k < n ==> Refuted(cs[k], Strictly(cs[k])) || Skipped(cs[k]))
    && (n < |cs| ==> !Refuted(cs[n], Strictly(cs[n])) && !Skipped(cs[n]))
  }

  ghost predicate EnsureSettles(cs: seq<Candidate>, i: nat, n: nat) {
    && i <= n <= |cs|
    && (forall k :: i <= k < n ==> Refuted(cs[k], Default(cs[k])))
    && (n < |cs| ==> !Refuted(cs[n], Default(cs[n])))
  }

  ghost predicate WhoamiSettles(cs: seq<Candidate>, i: nat, n: nat) {
    && i <= n <= |cs|
    && (forall k :: i <= k < n ==> Refuted(cs[k], Strictly(cs[k])))
    && (n < |cs| ==> !Refuted(cs[n], Strictly(cs[n])))
  }

  /** Some candidate was skipped. */
  ghost predicate SomeSkipped(cs: seq<Candidate>, i: nat, n: nat)
    requires n <= |cs|
  {
    exists k :: i <= k < n && Skipped(cs[k])
  }

  /** Some stored login was refused on the way. */
  ghost predicate SomeRefused(cs: seq<Candidate>, i: nat, n: nat)
    requires n <= |cs|
  {
    exists k :: i <= k < n && cs[k].source == TokenStore && Strictly(cs[k]) == Rejected
  }

  /**
   * The preflight on any list: a valid candidate is found; an unexpected error is thrown on; an unchecked or refused
   * one that settles the walk is reported, the stored login only under JSON and only if something was unavailable.
   */
  ghost predicate DescribeEnding(json: bool, cs: seq<Candidate>, i: nat, n: nat, down: bool, e: Ending)
    requires n <= |cs|
  {
    var unavailable := down || SomeSkipped(cs, i, n);
    if n == |cs| then e == if json && unavailable then Refused else Nobody
    else
      var c := cs[n];
      match Strictly(c)
      case Valid(identity) => e == Found(identity)
      case Rejected => e == if (if json then unavailable else c.source != TokenStore) then Refused else Nobody
      case Threw(Unavailable(_)) => e == if json || c.source != TokenStore then Refused else Nobody
      case Threw(error) => e == Crashed(error)
  }

  lemma {:induction false} DescribeEnds(json: bool, cs: seq<Candidate>, i: nat, n: nat, down: bool)
    requires DescribeSettles(cs, i, n)
    ensures DescribeEnding(json, cs, i, n, down, Describe(json, cs, i, down).ending)
    ensures Describe(json, cs, i, down).checked == if n < |cs| then n + 1 else n
    ensures Describe(json, cs, i, down).deletes <==> SomeRefused(cs, i, n) || StoredLast(cs, n)
    decreases n - i
  {
    if i < n {
      DescribeEnds(json, cs, i + 1, n, down || Skipped(cs[i]));
      assert SomeSkipped(cs, i, n) <==> Skipped(cs[i]) || SomeSkipped(cs, i + 1, n);
      assert SomeRefused(cs, i, n) <==>
        (cs[i].source == TokenStore && Strictly(cs[i]) == Rejected) || SomeRefused(cs, i + 1, n);
    }
  }

  /** `ensureAuthenticated` on any list: only the stored login is checked strictly, and it is kept when it cannot be. */
  ghost predicate EnsureEnding(cs: seq<Candidate>, n: nat, e: Ending)
    requires n <= |cs|
  {
    if n == |cs| then e == Nobody
    else
      var c := cs[n];
      match Default(c)
      case Valid(identity) => e == Found(identity)
      case Rejected => e == Refused
      case Threw(error) => e == if c.source == TokenStore && error.Unavailable? then Refused else Crashed(error)
  }

  lemma {:induction false} EnsureEnds(cs: seq<Candidate>, i: nat, n: nat)
    requires EnsureSettles(cs, i, n)
    ensures EnsureEnding(cs, n, Ensure(cs, i).ending)
    ensures Ensure(cs, i).checked == if n < |cs| then n + 1 else n
    ensures Ensure(cs, i).deletes <==> StoredBefore(cs, i, n)
    decreases n - i
  {
    if i < n {
      EnsureEnds(cs, i + 1, n);
      assert StoredBefore(cs, i, n) <==> cs[i].source == TokenStore || StoredBefore(cs, i + 1, n);
    }
  }

  /** `whoami` on any list: it stops at the first candidate it cannot check. */
  ghost predicate WhoamiEnding(cs: seq<Candidate>, n: nat, e: Ending)
    requires n <= |cs|
  {
    if n == |cs| then e == Nobody
    else
      match Strictly(cs[n])
      case Valid(identity) => e == Found(identity)
      case Rejected => e == Nobody
      case Threw(Unavailable(_)) => e == Nobody
      case Threw(error) => e == Crashed(error)
  }

  lemma {:induction false} WhoamiEnds(cs: seq<Candidate>, i: nat, n: nat)
    requires WhoamiSettles(cs, i, n)
    ensures WhoamiEnding(cs, n, Whoami(cs, i).ending)
    ensures Whoami(cs, i).checked == if n < |cs| then n + 1 else n
    ensures Whoami(cs, i).deletes <==> StoredBefore(cs, i, n) || StoredLast(cs, n)
    decreases n - i
  {
    if i < n {
      WhoamiEnds(cs, i + 1, n);
      assert StoredBefore(cs, i, n) <==> cs[i].source == TokenStore || StoredBefore(cs, i + 1, n);
    }
  }

  /** Each walk settles at exactly one place. */
  lemma WalksSettle(cs: seq<Candidate>, i: nat) returns (d: nat, e: nat, w: nat)
    requires i <= |cs|
    ensures DescribeSettles(cs, i, d) && EnsureSettles(cs, i, e) && WhoamiSettles(cs, i, w)
    ensures forall n :: DescribeSettles(cs, i, n) ==> n == d
    ensures forall n :: EnsureSettles(cs, i, n) ==> n == e
    ensures forall n :: WhoamiSettles(cs, i, n) ==> n == w
  {
    d := DescribeSettlesOnce(cs, i);
    e := EnsureSettlesOnce(cs, i);
    w := WhoamiSettlesOnce(cs, i);
  }

  lemma {:induction false} DescribeSettlesOnce(cs: seq<Candidate>, i: nat) returns (d: nat)
    requires i <= |cs|
    ensures DescribeSettles(cs, i, d) && forall n :: DescribeSettles(cs, i, n) ==> n == d
    decreases |cs| - i
  {
    d := i;
    if i < |cs| && (Refuted(cs[i], Strictly(cs[i])) || Skipped(cs[i])) { d := DescribeSettlesOnce(cs, i + 1); }
  }

  lemma {:induction false} EnsureSettlesOnce(cs: seq<Candidate>, i: nat) returns (e: nat)
    requires i <= |cs|
    ensures EnsureSettles(cs, i, e) && forall n :: EnsureSettles(cs, i, n) ==> n == e
    decreases |cs| - i
  {
    e := i;
    if i < |cs| && Refuted(cs[i], Default(cs[i])) { e := EnsureSettlesOnce(cs, i + 1); }
  }

  lemma {:induction false} WhoamiSettlesOnce(cs: seq<Candidate>, i: nat) returns (w: nat)
    requires i <= |cs|
    ensures WhoamiSettles(cs, i, w) && forall n :: WhoamiSettles(cs, i, n) ==> n == w
    decreases |cs| - i
  {
    w := i;
    if i < |cs| && Refuted(cs[i], Strictly(cs[i])) { w := WhoamiSettlesOnce(cs, i + 1); }
  }

  /** Behind an unavailable token of an env file the preflight still finds a valid stored login. */
  lemma OutageReachesStored(json: bool, cs: seq<Candidate>, identity: Identity)
    requires |cs| == 2 && cs[0].source == EnvFile && !cs[0].authoritative && IsUnavailable(Strictly(cs[0]))
    requires cs[1].source == TokenStore && Strictly(cs[1]) == Valid(identity)
    ensures Describe(json, cs, 0, false).ending == Found(identity)
  {
    DescribeEnds(json, cs, 0, 1, false);
  }

  // ----- What validation says, case by case -----

  /** A user token or an API key that the API accepts, and who it belongs to. */
  ghost predicate Accepts(token: string, answer: Answer, identity: Identity) {
    && answer.Response? && 200 <= answer.status <= 299 && token != ""
    && if "vf_" <= token then identity == ApiKey
       else
         && Trim(token) != "" && answer.body.UserBody? && Trim(answer.body.id) != "" && Trim(answer.body.email) != ""
         && identity == User(answer.body.id, answer.body.email)
  }

  lemma StrictValidIff(token: string, answer: Answer, identity: Identity)
    ensures ValidateCredential(token, answer, STRICT) == Valid(identity) <==> Accepts(token, answer, identity)
  {}

  /** Strict checking of a non-blank token that is neither accepted nor refused: what was wrong with the API. */
  lemma StrictThrows(token: string, answer: Answer)
    requires RawAnswer(answer) && Trim(token) != ""
    ensures
      var r := ValidateCredential(token, answer, STRICT);
      match answer
      case NoResponse(TimeoutError) => r == Threw(Unavailable(Timeout))
      case NoResponse(TypeError) => r == Threw(Unavailable(Network))
      case NoResponse(error) => r == Threw(error)
      case Response(status, body) =>
        && (!IsOk(status) && status != 401 && status != 403 ==> r == Threw(Unavailable(Service)))
        && (IsOk(status) && !("vf_" <= token) && body.OtherBody? ==> r == Threw(Unavailable(Service)))
        && (IsOk(status) && !("vf_" <= token) && body.Unreadable? ==>
              r == Threw(Unavailable(if body.error == TimeoutError then Timeout else if body.error == TypeError then Network else Service)))
  {
    assert token != "";
  }

  /** With `throwOnNetworkError` only, exactly server errors and failures to reach the API throw. */
  lemma NetworkThrowsIff(token: string, answer: Answer)
    requires RawAnswer(answer) && Trim(token) != ""
    ensures
      var r := ValidateCredential(token, answer, Options(false, true));
      r.Threw? <==>
        match answer
        case NoResponse(error) => error == TypeError || error == TimeoutError
        case Response(status, body) =>
          status >= 500 || (IsOk(status) && !("vf_" <= token) && body.Unreadable? && (body.error == TypeError || body.error == TimeoutError))
    ensures
      var r := ValidateCredential(token, answer, Options(false, true));
      r.Threw? ==> r.error == NetworkError
  {
    assert token != "";
  }

  // ----- Where candidates come from -----

  /** How the repository bears on the API that is asked: not at all, so that nothing may be sent, or by one of its files. */
  datatype Steering = NotSteered | NothingEligible | ByConfigFile | ByEnvFile(supplied: Candidate -> bool)

  /** Where the exported token was read from; `FromConfig` exports are not candidates themselves. */
  datatype EnvOrigin = FromShell | FromEnvFile | FromConfig

  /** What a command finds: the exported token, the one of veryfront.json, the stored login, and what the API would answer. */
  datatype Setup = Setup(
    envToken: string, envOrigin: EnvOrigin, configToken: string, stored: Option<string>,
    interactive: bool, steering: Steering, answer: (string, Source) -> Answer)
  {
    function Of(token: string, source: Source, authoritative: bool): Candidate {
      Candidate(token, source, authoritative, answer(token, source))
    }
  }

  function When(b: bool, c: Candidate): seq<Candidate> {
    if b then [c] else []
  }

  /** `resolveApiCredentialCandidates`; a blank exported token counts as unset. */
  function AllCandidates(u: Setup): seq<Candidate> {
    var exported := Trim(u.envToken) != "";
    var fromFile := exported && u.envOrigin == FromEnvFile;
    var stored := if u.stored.Some? then u.stored.value else "";
    var storedFirst := u.interactive && fromFile && stored != "";
    When(exported && u.envOrigin == FromShell, u.Of(u.envToken, Env, true))
    + When(Trim(u.configToken) != "", u.Of(u.configToken, ConfigFile, true))
    + When(storedFirst, u.Of(stored, TokenStore, false))
    + When(fromFile, u.Of(u.envToken, EnvFile, false))
    + When(stored != "" && !storedFirst, u.Of(stored, TokenStore, false))
  }

  function Keep(cs: seq<Candidate>, keep: Candidate -> bool): (r: seq<Candidate>)
    ensures forall c :: c in r ==> c in cs && keep(c)
  {
    if cs == [] then [] else When(keep(cs[0]), cs[0]) + Keep(cs[1..], keep)
  }

  /** `resolveApiCredentialCandidatesForAuth`, the only source of the candidates of the walks. */
  function Resolve(u: Setup): seq<Candidate> {
    var cs := AllCandidates(u);
    match u.steering
    case NotSteered => cs
    case NothingEligible => []
    case ByConfigFile => Keep(cs, (c: Candidate) => c.source == ConfigFile) + Keep(cs, (c: Candidate) => c.source != ConfigFile)
    case ByEnvFile(supplied) => Keep(cs, supplied)
  }

  /** What every resolved candidate is; a stored login is never authoritative. */
  ghost predicate ResolvedFrom(u: Setup, c: Candidate) {
    && c.answer == u.answer(c.token, c.source)
    && (c.source == TokenStore ==> !c.authoritative && u.stored == Some(c.token))
  }

  lemma ResolvesWell(u: Setup)
    ensures forall c :: c in Resolve(u) ==> ResolvedFrom(u, c)
  {
    CandidatesResolved(u);
    var cs := AllCandidates(u);
    if u.steering.ByConfigFile? {
      assert forall c :: c in Resolve(u) ==> c in cs;
    }
  }

  lemma CandidatesResolved(u: Setup)
    ensures forall c :: c in AllCandidates(u) ==> ResolvedFrom(u, c)
  {
    forall c | c in AllCandidates(u) ensures ResolvedFrom(u, c) { OneOfFive(u, c); }
  }

  lemma OneOfFive(u: Setup, c: Candidate)
    requires c in AllCandidates(u)
    ensures
      || c == u.Of(u.envToken, Env, true)
      || c == u.Of(u.configToken, ConfigFile, true)
      || c == u.Of(u.envToken, EnvFile, false)
      || (u.stored.Some? && c == u.Of(u.stored.value, TokenStore, false))
  {}

  lemma StoredNeverLast(u: Setup)
    ensures !StoredLast(Resolve(u), Settling(Resolve(u), 0))
  {
    var cs := Resolve(u);
    ResolvesWell(u);
    if Settling(cs, 0) < |cs| { assert cs[Settling(cs, 0)] in cs; }
  }

  /** When every candidate is answered, the three walks of one command line delete the same stored login. */
  lemma DeletionsAgree(json: bool, u: Setup)
    requires Answered(Resolve(u))
    ensures
      var cs := Resolve(u);
      Describe(json, cs, 0, false).deletes == Ensure(cs, 0).deletes == Whoami(cs, 0).deletes
  {
    StoredNeverLast(u);
    WalksAgree(json, Resolve(u), 0, false);
  }

  // ----- Runs of commands -----

  /** `Save` stands for a login that stores a new token. */
  datatype Command =
    | Login(json: bool, setup: Setup)
    | Authenticate(setup: Setup)
    | Identify(setup: Setup)
    | Logout
    | Save(token: string)

  function CandidatesOf(c: Command): seq<Candidate> {
    if c.Login? || c.Authenticate? || c.Identify? then Resolve(c.setup) else []
  }

  function TraceOf(c: Command): Trace
    requires c.Login? || c.Authenticate? || c.Identify?
  {
    match c
    case Login(json, u) => Describe(json, Resolve(u), 0, false)
    case Authenticate(u) => Ensure(Resolve(u), 0)
    case Identify(u) => Whoami(Resolve(u), 0)
  }

  /** The stored login after a command. */
  function Step(stored: Option<string>, c: Command): Option<string> {
    match c
    case Logout => None
    case Save(token) => Some(token)
    case _ => if TraceOf(c).deletes then None else stored
  }

  /** The command reads the store, which never yields a blank token, and meets only errors the network can raise. */
  ghost predicate Reads(stored: Option<string>, c: Command) {
    c.Login? || c.Authenticate? || c.Identify? ==>
      && (c.setup.stored == stored || c.setup.stored == None)
      && (c.setup.stored.Some? ==> Trim(c.setup.stored.value) != "")
      && forall token, source :: RawAnswer(c.setup.answer(token, source))
  }

  lemma ResolvedCandidates(stored: Option<string>, c: Command)
    requires Reads(stored, c)
    ensures Candidates(CandidatesOf(c))
    ensures forall k :: k in CandidatesOf(c) && k.source == TokenStore ==> stored == Some(k.token)
  {
    if c.Login? || c.Authenticate? || c.Identify? {
      ResolvesWell(c.setup);
    }
  }

  function Run(stored: Option<string>, cs: seq<Command>): Option<string> {
    if cs == [] then stored else Step(Run(stored, cs[..|cs| - 1]), cs[|cs| - 1])
  }

  ghost predicate Runs(stored: Option<string>, cs: seq<Command>) {
    forall i :: 0 <= i < |cs| ==> Reads(Run(stored, cs[..i]), cs[i])
  }

  /** The command checks the token against the API, and the API answers 401 or 403. */
  ghost predicate RefusedDuring(c: Command, token: string) {
    exists k :: 0 <= k < |CandidatesOf(c)| && CandidatesOf(c)[k].token == token && RefusedStored(CandidatesOf(c)[k])
      && k < TraceOf(c).checked
  }

  lemma StepRemoves(stored: Option<string>, c: Command)
    requires Reads(stored, c) && stored.Some? && Step(stored, c) == None
    ensures c.Logout? || RefusedDuring(c, stored.value)
  {
    if !c.Logout? {
      var cs := CandidatesOf(c);
      ResolvedCandidates(stored, c);
      DeletesOnlyRefused(c.Login? && c.json, cs, 0, false);
      var k :| 0 <= k < TraceOf(c).checked <= |cs| && RefusedStored(cs[k]);
      assert cs[k] in cs;
    }
  }

  /** Command `i` meets a stored login and leaves none. */
  ghost predicate RemovedAt(stored: Option<string>, cs: seq<Command>, i: nat) {
    i < |cs| && Run(stored, cs[..i]).Some? && Run(stored, cs[..i + 1]) == None
  }

  lemma RunSnoc(stored: Option<string>, cs: seq<Command>, i: nat)
    requires i < |cs|
    ensures Run(stored, cs[..i + 1]) == Step(Run(stored, cs[..i]), cs[i])
  {
    assert cs[..i + 1][..i] == cs[..i];
  }

  /**
   * Over every run: whichever command removes the stored login is `logout`, or the API answers 401 or 403 for
   * that very token during it.
   */
  lemma LoginRemovedOnlyWhenRefused(stored: Option<string>, cs: seq<Command>, i: nat)
    requires Runs(stored, cs) && RemovedAt(stored, cs, i)
    ensures cs[i].Logout? || RefusedDuring(cs[i], Run(stored, cs[..i]).value)
  {
    RunSnoc(stored, cs, i);
    StepRemoves(Run(stored, cs[..i]), cs[i]);
  }

  /** A stored login that is gone in the end was removed by some command. */
  lemma {:induction false} GoneWasRemoved(stored: Option<string>, cs: seq<Command>)
    requires stored.Some? && Run(stored, cs) == None
    ensures exists i :: RemovedAt(stored, cs, i)
  {
    var n := |cs| - 1;
    assert cs[..n + 1] == cs;
    if Run(stored, cs[..n]).Some? {
      assert RemovedAt(stored, cs, n);
    } else {
      GoneWasRemoved(stored, cs[..n]);
      var i: nat :| RemovedAt(stored, cs[..n], i);
      assert cs[..n][..i] == cs[..i] && cs[..n][..i + 1] == cs[..i + 1];
      assert RemovedAt(stored, cs, i);
    }
  }

  /** Whatever else goes wrong during the command, no candidate is answered with 401 or 403. */
  ghost predicate NeverRefused(c: Command) {
    forall k :: 0 <= k < |CandidatesOf(c)| && CandidatesOf(c)[k].answer.Response? ==>
      !IsRejectionStatus(CandidatesOf(c)[k].answer.status)
  }

  /** Outages never log anyone out: without `logout` and without a 401 or 403, a stored login stays. */
  lemma OutagesKeepLogin(stored: Option<string>, cs: seq<Command>)
    requires Runs(stored, cs) && stored.Some?
    requires forall i :: 0 <= i < |cs| ==> !cs[i].Logout? && NeverRefused(cs[i])
    ensures Run(stored, cs).Some?
  {
    forall i: nat ensures !RemovedAt(stored, cs, i) {
      if RemovedAt(stored, cs, i) {
        LoginRemovedOnlyWhenRefused(stored, cs, i);
        NotRefused(cs[i], Run(stored, cs[..i]).value);
        assert false;
      }
    }
    if Run(stored, cs) == None { GoneWasRemoved(stored, cs); }
  }

  lemma NotRefused(c: Command, token: string)
    requires NeverRefused(c)
    ensures !RefusedDuring(c, token)
  {}

  // ----- Which candidates there are, and in what order -----

  predicate Exported(u: Setup, origin: EnvOrigin) {
    Trim(u.envToken) != "" && u.envOrigin == origin
  }

  predicate HasStored(u: Setup) {
    u.stored.Some? && u.stored.value != ""
  }

  /** The candidate for the token of veryfront.json, if there is one. */
  function Configured(u: Setup): seq<Candidate> {
    When(Trim(u.configToken) != "", u.Of(u.configToken, ConfigFile, true))
  }

  /** The candidate for the stored login, if there is one; never authoritative. */
  function StoredLogin(u: Setup): seq<Candidate> {
    if HasStored(u) then [u.Of(u.stored.value, TokenStore, false)] else []
  }

  /** A token exported by the shell comes first, then that of veryfront.json, then the stored login. */
  lemma CandidatesFromShell(u: Setup)
    requires Exported(u, FromShell)
    ensures AllCandidates(u) == [u.Of(u.envToken, Env, true)] + Configured(u) + StoredLogin(u)
  {}

  /** Without an exported token, and with one that came from veryfront.json itself, the others remain. */
  lemma CandidatesWithoutExport(u: Setup)
    requires !Exported(u, FromShell) && !Exported(u, FromEnvFile)
    ensures AllCandidates(u) == Configured(u) + StoredLogin(u)
  {}

  /** A token of an env file comes after that of veryfront.json, and after the stored login exactly in an interactive command. */
  lemma CandidatesFromEnvFile(u: Setup)
    requires Exported(u, FromEnvFile)
    ensures
      var file := [u.Of(u.envToken, EnvFile, false)];
      AllCandidates(u) == if u.interactive then Configured(u) + StoredLogin(u) + file else Configured(u) + file + StoredLogin(u)
  {}

  /** Steering by veryfront.json moves its token to the front and drops none; steering by an env file only drops. */
  lemma SteeringIs(u: Setup)
    ensures u.steering == NotSteered ==> Resolve(u) == AllCandidates(u)
    ensures u.steering == NothingEligible ==> Resolve(u) == []
    ensures u.steering == ByConfigFile ==> forall c :: c in Resolve(u) <==> c in AllCandidates(u)
    ensures u.steering == ByConfigFile ==>
      forall i, j :: 0 <= i < j < |Resolve(u)| && Resolve(u)[j].source == ConfigFile ==> Resolve(u)[i].source == ConfigFile
    ensures u.steering.ByEnvFile? ==> forall c :: c in Resolve(u) <==> c in AllCandidates(u) && u.steering.supplied(c)
  {
    var cs := AllCandidates(u);
    if u.steering == ByConfigFile {
      forall c ensures c in Resolve(u) <==> c in cs {
        KeepHas(cs, (c: Candidate) => c.source == ConfigFile, c);
        KeepHas(cs, (c: Candidate) => c.source != ConfigFile, c);
      }
      ConfigFirst(Keep(cs, (c: Candidate) => c.source == ConfigFile), Keep(cs, (c: Candidate) => c.source != ConfigFile));
    } else if u.steering.ByEnvFile? {
      forall c ensures c in Resolve(u) <==> c in cs && u.steering.supplied(c) { KeepHas(cs, u.steering.supplied, c); }
    }
  }

  lemma ConfigFirst(a: seq<Candidate>, b: seq<Candidate>)
    requires (forall c :: c in a ==> c.source == ConfigFile) && forall c :: c in b ==> c.source != ConfigFile
    ensures forall i, j :: 0 <= i < j < |a + b| && (a + b)[j].source == ConfigFile ==> (a + b)[i].source == ConfigFile
  {
    forall j | |a| <= j < |a + b| ensures (a + b)[j].source != ConfigFile { assert b[j - |a|] in b; }
    forall i | 0 <= i < |a| ensures (a + b)[i].source == ConfigFile { assert a[i] in a; }
  }

  lemma {:induction false} KeepHas(cs: seq<Candidate>, keep: Candidate -> bool, c: Candidate)
    ensures c in Keep(cs, keep) <==> c in cs && keep(c)
  {
    if cs != [] { KeepHas(cs[1..], keep, c); }
  }
}
