/**
 * The stored login and the record of its last accepted check.
 *
 * Whether a file operation succeeds is an input, and so is the time.
 */
module TokenStore {
  import opened Prelude

  // ----- Fingerprints -----

  type Bytes = seq<int>

  function HexDigit(d: int): (c: char)
    requires 0 <= d < 16
  {
    if d < 10 then ('0' as int + d) as char else ('a' as int + d - 10) as char
  }

  /** `byte.toString(16).padStart(2, "0")`. */
  function HexByte(b: int): (s: string)
    requires 0 <= b < 256
    ensures |s| == 2
  {
    [HexDigit(b / 16), HexDigit(b % 16)]
  }

  function Hex(bs: Bytes): (s: string)
    requires IsBytes(bs)
    ensures |s| == 2 * |bs|
  {
    if bs == [] then "" else Hex(bs[..|bs| - 1]) + HexByte(bs[|bs| - 1])
  }

  lemma HexByteInjective(a: int, b: int)
    requires 0 <= a < 256 && 0 <= b < 256 && HexByte(a) == HexByte(b)
    ensures a == b
  {
    assert HexByte(a)[0] == HexByte(b)[0] && HexByte(a)[1] == HexByte(b)[1];
    assert a / 16 == b / 16 && a % 16 == b % 16;
  }

  lemma {:induction false} HexInjective(a: Bytes, b: Bytes)
    requires IsBytes(a) && IsBytes(b) && Hex(a) == Hex(b)
    ensures a == b
  {
    if a != [] && b != [] {
      var x, y := a[..|a| - 1], b[..|b| - 1];
      assert Hex(x) == Hex(a)[..2 * |x|] && HexByte(a[|x|]) == Hex(a)[2 * |x|..];
      assert Hex(y) == Hex(b)[..2 * |y|] && HexByte(b[|y|]) == Hex(b)[2 * |y|..];
      HexInjective(x, y);
      HexByteInjective(a[|x|], b[|y|]);
      assert a == x + [a[|x|]] && b == y + [b[|y|]];
    }
  }

  /** A hash whose results are bytes and never collide. */
  ghost predicate CollisionFree(digest: string -> Bytes) {
    && (forall s :: IsBytes(digest(s)))
    && (forall s, t :: digest(s) == digest(t) ==> s == t)
  }

  ghost predicate Digest(digest: string -> Bytes) {
    forall s :: IsBytes(digest(s))
  }

  ghost function Fingerprint(digest: string -> Bytes, apiUrl: string, token: string): string
    requires Digest(digest)
  {
    Hex(digest(apiUrl + "\n" + token))
  }

  /** The hex string is accumulated byte by byte. */
  method LoginFingerprint(digest: string -> Bytes, apiUrl: string, token: string) returns (hex: string)
    requires Digest(digest)
    ensures hex == Fingerprint(digest, apiUrl, token)
  {
    var bytes := digest(apiUrl + "\n" + token);
    hex := "";
    for i := 0 to |bytes|
      invariant hex == Hex(bytes[..i])
    {
      assert bytes[..i + 1][..i] == bytes[..i];
      hex := hex + HexByte(bytes[i]);
    }
    assert bytes[..|bytes|] == bytes;
  }

  /** A fingerprint names one login at one API, for API URLs without a newline. */
  lemma FingerprintInjective(digest: string -> Bytes, url1: string, token1: string, url2: string, token2: string)
    requires CollisionFree(digest) && '\n' !in url1 && '\n' !in url2
    ensures Fingerprint(digest, url1, token1) == Fingerprint(digest, url2, token2) <==> url1 == url2 && token1 == token2
  {
    if Fingerprint(digest, url1, token1) == Fingerprint(digest, url2, token2) {
      var s, t := url1 + "\n" + token1, url2 + "\n" + token2;
      HexInjective(digest(s), digest(t));
      assert s[..|url1|] == url1 && t[..|url2|] == url2;
      FindUnique(s, '\n', |url1|);
      FindUnique(t, '\n', |url2|);
      assert s[|url1| + 1..] == token1 && t[|url2| + 1..] == token2;
    }
  }

  /** A newline in the API URL lets two logins share a fingerprint, whatever the hash. */
  lemma NewlineUrlsCollide(digest: string -> Bytes)
    requires Digest(digest)
    ensures Fingerprint(digest, "a\nb", "c") == Fingerprint(digest, "a", "b\nc")
  {
    assert "a\nb" + "\n" + "c" == "a" + "\n" + "b\nc";
  }

  // ----- The two files -----

  datatype Path = TokenPath | CheckPath

  datatype File = TokenText(text: string) | CheckRecord(fingerprint: string, acceptedAt: int)

  type Files = map<Path, File>

  const LOGIN_CHECK_TTL_MS := 15 * 60_000

  /** The stored token: trimmed, and none when blank. */
  function ReadToken(files: Files, readable: bool): (r: Option<string>)
    ensures r.Some? ==> Trim(r.value) != ""
  {
    if !readable || TokenPath !in files || !files[TokenPath].TokenText? then None
    else
      var token := Trim(files[TokenPath].text);
      if token == "" then None
      else
        NotBlank(token, |token| - 1);
        Some(token)
  }

  /** What one event does to the files; a flag says whether the file operation succeeds. */
  datatype Event =
    | Save(token: string)
    | Remember(apiUrl: string, token: string, now: int, written: bool)
    | Delete(removable: set<Path>)

  ghost function After(digest: string -> Bytes, files: Files, e: Event): Files
    requires Digest(digest)
  {
    match e
    case Save(token) => files[TokenPath := TokenText(token + "\n")]
    case Remember(apiUrl, token, now, written) =>
      if written then files[CheckPath := CheckRecord(Fingerprint(digest, apiUrl, token), now)] else files
    case Delete(removable) => files - removable
  }

  ghost predicate Accepted(digest: string -> Bytes, files: Files, apiUrl: string, token: string, now: int)
    requires Digest(digest)
  {
    && CheckPath in files && files[CheckPath].CheckRecord?
    && files[CheckPath].fingerprint == Fingerprint(digest, apiUrl, token)
    && files[CheckPath].acceptedAt <= now < files[CheckPath].acceptedAt + LOGIN_CHECK_TTL_MS
  }

  class Store {
    const digest: string -> Bytes
    var files: Files

    constructor (digest: string -> Bytes)
      ensures this.digest == digest && files == map[]
    {
      this.digest := digest;
      files := map[];
    }

    method SaveToken(token: string)
      requires Digest(digest)
      modifies this
      ensures files == After(digest, old(files), Save(token))
    {
      files := files[TokenPath := TokenText(token + "\n")];
    }

    /** Each path on its own: a failure at one does not keep the other. */
    method DeleteToken(removable: set<Path>)
      requires Digest(digest)
      modifies this
      ensures files == After(digest, old(files), Delete(removable))
    {
      var paths := [TokenPath, CheckPath];
      for i := 0 to |paths|
        invariant files == old(files) - set p | p in paths[..i] && p in removable
      {
        assert paths[..i + 1] == paths[..i] + [paths[i]];
        if paths[i] in files && paths[i] in removable { files := files - {paths[i]}; }
      }
      assert paths[..|paths|] == paths;
      forall p: Path ensures p in paths {
        match p { case TokenPath => assert p == paths[0]; case CheckPath => assert p == paths[1]; }
      }
      assert (set p | p in paths && p in removable) == removable;
    }

    method RememberAcceptedLogin(apiUrl: string, token: string, now: int, written: bool)
      requires Digest(digest)
      modifies this
      ensures files == After(digest, old(files), Remember(apiUrl, token, now, written))
    {
      var fingerprint := LoginFingerprint(digest, apiUrl, token);
      if written { files := files[CheckPath := CheckRecord(fingerprint, now)]; }
    }

    method WasLoginAcceptedRecently(apiUrl: string, token: string, now: int, readable: bool) returns (r: bool)
      requires Digest(digest)
      ensures r <==> readable && Accepted(digest, files, apiUrl, token, now)
    {
      if !readable || CheckPath !in files { return false; }
      var record := files[CheckPath];
      if !record.CheckRecord? { return false; }
      var fingerprint := LoginFingerprint(digest, apiUrl, token);
      r := record.fingerprint == fingerprint && record.acceptedAt <= now && now - record.acceptedAt < LOGIN_CHECK_TTL_MS;
    }
  }

  // ----- Over a history -----

  ghost function AfterAll(digest: string -> Bytes, history: seq<Event>): Files
    requires Digest(digest)
  {
    if history == [] then map[] else After(digest, AfterAll(digest, history[..|history| - 1]), history[|history| - 1])
  }

  /** The event leaves the check file as it found it. */
  predicate Idle(e: Event) {
    match e
    case Save(_) => true
    case Remember(_, _, _, written) => !written
    case Delete(removable) => CheckPath !in removable
  }

  /** Event `i` is the last one to write the check file, and nothing removed the file since. */
  ghost predicate LastWrite(history: seq<Event>, i: int) {
    && 0 <= i < |history| && history[i].Remember? && history[i].written
    && forall j :: i < j < |history| ==> Idle(history[j])
  }

  lemma {:induction false} CheckFileAfter(digest: string -> Bytes, history: seq<Event>)
    requires Digest(digest)
    ensures CheckPath in AfterAll(digest, history) <==> exists i :: LastWrite(history, i)
    ensures forall i :: LastWrite(history, i) ==>
      AfterAll(digest, history)[CheckPath] == CheckRecord(Fingerprint(digest, history[i].apiUrl, history[i].token), history[i].now)
  {
    if history != [] {
      var n := |history| - 1;
      var init, last := history[..n], history[n];
      CheckFileAfter(digest, init);
      if Idle(last) {
        forall i ensures LastWrite(history, i) <==> LastWrite(init, i) {
          LastWriteIdle(history, i);
        }
      } else if last.Remember? {
        assert LastWrite(history, n);
        assert forall i :: LastWrite(history, i) ==> i == n;
      } else {
        assert forall i :: !LastWrite(history, i);
      }
    }
  }

  lemma LastWriteIdle(history: seq<Event>, i: int)
    requires history != [] && Idle(history[|history| - 1])
    ensures LastWrite(history, i) <==> LastWrite(history[..|history| - 1], i)
  {
    var init := history[..|history| - 1];
    assert forall j :: 0 <= j < |init| ==> init[j] == history[j];
  }

  /**
   * Over every history, a login counts as accepted recently exactly when the last successful write of the
   * check file was for it at this API, no successful delete followed, and the time is within the limit.
   */
  lemma AcceptedRecentlyIff(digest: string -> Bytes, history: seq<Event>, apiUrl: string, token: string, now: int)
    requires CollisionFree(digest) && '\n' !in apiUrl
    requires forall e :: e in history && e.Remember? ==> '\n' !in e.apiUrl
    ensures Accepted(digest, AfterAll(digest, history), apiUrl, token, now) <==>
      exists i :: LastWrite(history, i) && history[i].apiUrl == apiUrl && history[i].token == token
        && history[i].now <= now < history[i].now + 900_000
  {
    CheckFileAfter(digest, history);
    forall i | LastWrite(history, i)
      ensures Accepted(digest, AfterAll(digest, history), apiUrl, token, now) <==>
        history[i].apiUrl == apiUrl && history[i].token == token
        && history[i].now <= now < history[i].now + LOGIN_CHECK_TTL_MS
    {
      assert history[i] in history;
      FingerprintInjective(digest, history[i].apiUrl, history[i].token, apiUrl, token);
    }
  }

  // ----- The stored token -----

  lemma TrimEndLine(s: string)
    ensures TrimEnd(s + "\n") == TrimEnd(s)
  {
    assert (s + "\n")[..|s|] == s;
  }

  lemma {:induction false} TrimStartLine(s: string)
    ensures TrimStart(s) != "" ==> TrimStart(s + "\n") == TrimStart(s) + "\n"
    ensures TrimStart(s) == "" ==> TrimStart(s + "\n") == ""
  {
    if s == "" {
      assert s + "\n" == "\n" && "\n"[1..] == "";
    } else if IsSpace(s[0]) {
      assert (s + "\n")[1..] == s[1..] + "\n";
      TrimStartLine(s[1..]);
    }
  }

  lemma TrimLine(s: string)
    ensures Trim(s + "\n") == Trim(s)
  {
    TrimStartLine(s);
    TrimEndLine(TrimStart(s));
  }

  /**
   * What the store reads: after saving, the saved token without blanks around it, unless it is blank; after a
   * successful delete nothing; and remembering a check does not touch it.
   */
  lemma TokenReads(digest: string -> Bytes, files: Files, token: string, e: Event)
    requires Digest(digest)
    ensures
      ReadToken(After(digest, files, Save(token)), true) == if Trim(token) == "" then None else Some(Trim(token))
    ensures e.Delete? && TokenPath in e.removable ==> ReadToken(After(digest, files, e), true) == None
    ensures e.Remember? ==> ReadToken(After(digest, files, e), true) == ReadToken(files, true)
  {
    TrimLine(token);
  }
}
