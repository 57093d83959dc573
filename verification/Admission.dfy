/** Inbox admission (`internal/activitypub/inbox_admission.go`) of a request whose signature verified. */
module Admission {
  import opened Basics
  import opened Text
  import opened HttpSignature

  const SECOND: int := 1_000_000_000
  const INBOX_DATE_SKEW: int := 300 * SECOND
  const MIN_DURATION: int := -0x8000_0000_0000_0000
  const MAX_DURATION: int := 0x7FFF_FFFF_FFFF_FFFF

  datatype Reason =
    | NotParsed
    | RequestTargetUnsigned
    | DateUnsigned
    | DateSkew
    | HostUnsigned
    | HostMismatch
    | DigestUnsigned
    | DigestMissing
    | DigestMalformed
    | DigestAlgo
    | DigestMismatch

  datatype Verdict = Admitted | Rejected(reason: Reason)

  // ----- strings.EqualFold -----

  /** Simple case folding of ASCII letters and of the two other letters in their orbits. */
  function FoldChar(c: char): char {
    if 'A' <= c <= 'Z' then c + 32 as char
    else if c == '\U{17F}' then 's'
    else if c == '\U{212A}' then 'k'
    else c
  }

  predicate EqualFold(s: string, t: string) {
    |s| == |t| && forall i :: 0 <= i < |s| ==> FoldChar(s[i]) == FoldChar(t[i])
  }

  predicate Ascii(s: string) {
    forall i :: 0 <= i < |s| ==> s[i] < '\U{80}'
  }

  /** In lower case already. */
  predicate LowerAscii(s: string) {
    Ascii(s) && forall i :: 0 <= i < |s| ==> !('A' <= s[i] <= 'Z')
  }

  /** On ASCII the two notions of "same name" agree. */
  lemma FoldIsLower(s: string, name: string)
    requires Ascii(s) && LowerAscii(name)
    ensures EqualFold(s, name) <==> Lower(s) == name
  {
    if Lower(s) == name {
      assert forall i :: 0 <= i < |s| ==> LowerChar(s[i]) == Lower(s)[i] == name[i];
    }
  }

  /** A lower-cased ASCII name was ASCII, but for the letters that lower to `k` and `i`. */
  lemma LowerAsciiFold(s: string, name: string)
    requires EqualFold(s, name) && LowerAscii(name) && Ascii(Lower(s))
    ensures Lower(s) == name
  {
    forall i | 0 <= i < |s| ensures Lower(s)[i] == name[i] {
      assert Lower(s)[i] < '\U{80}';
      assert LowerChar(s[i]) == Lower(s)[i];
    }
  }

  predicate ContainsFold(names: seq<string>, name: string) {
    exists i :: 0 <= i < |names| && EqualFold(names[i], name)
  }

  method ContainsHeaderFold(names: seq<string>, name: string) returns (found: bool)
    ensures found == ContainsFold(names, name)
  {
    for i := 0 to |names|
      invariant !ContainsFold(names[..i], name)
    {
      if EqualFold(names[i], name) {
        return true;
      }
      assert names[..i + 1] == names[..i] + [names[i]];
      forall j | 0 <= j < i ensures !EqualFold(names[j], name) {
        assert !EqualFold(names[..i][j], name);
      }
    }
    assert names[..|names|] == names;
    found := false;
  }

  // ----- the date -----

  /** The date the skew check uses: `X-Date` only when it is signed. */
  function InboxDateHeader(v: View, names: seq<string>): string {
    if Get(v, "x-date") != "" && ContainsFold(names, "x-date") then Get(v, "x-date") else Get(v, "date")
  }

  /** A signed X-Date comes before the Date, an unsigned one is not looked at. */
  lemma DateHeaderIs(v: View, names: seq<string>)
    ensures (exists i :: 0 <= i < |names| && EqualFold(names[i], "x-date")) ==>
              "x-date" in v.headers && v.headers["x-date"] != "" ==>
                InboxDateHeader(v, names) == v.headers["x-date"]
    ensures (forall i :: 0 <= i < |names| ==> !EqualFold(names[i], "x-date")) ==>
              InboxDateHeader(v, names) == if "date" in v.headers then v.headers["date"] else ""
  {}

  /** time.Time.Sub saturates. */
  function Sub(t: int, u: int): int {
    if t - u < MIN_DURATION then MIN_DURATION else if t - u > MAX_DURATION then MAX_DURATION else t - u
  }

  /** Negation of a Duration wraps. */
  function Negate(d: int): int {
    if d == MIN_DURATION then MIN_DURATION else -d
  }

  /** verifyDateSkew; `parse` is parseSignatureDate, times are nanoseconds. Empty and unreadable dates pass. */
  predicate DateInSkew(now: int, parse: string -> Option<int>, header: string) {
    var raw := TrimSpace(header);
    raw == "" || parse(raw).None? ||
    var d := Sub(now, parse(raw).value);
    (if d < 0 then Negate(d) else d) <= INBOX_DATE_SKEW
  }

  /** A readable date passes within five minutes, and also when it is some 292 years or more ahead. */
  lemma SkewIff(now: int, parse: string -> Option<int>, header: string)
    requires TrimSpace(header) != "" && parse(TrimSpace(header)).Some?
    ensures var t := parse(TrimSpace(header)).value;
            DateInSkew(now, parse, header) <==>
              -300_000_000_000 <= now - t <= 300_000_000_000 || t - now >= 0x8000_0000_0000_0000
  {}

  /** A date that is missing or cannot be read passes. */
  lemma UnreadableDatePasses(now: int, parse: string -> Option<int>, header: string)
    requires TrimSpace(header) == "" || parse(TrimSpace(header)).None?
    ensures DateInSkew(now, parse, header)
  {}

  /** The promise of a bounded distance fails: the first second of year 9999 read at the start of 2026. */
  lemma FarFutureDatePasses(parse: string -> Option<int>, header: string)
    requires TrimSpace(header) != "" && parse(TrimSpace(header)) == Some(253370764800 * SECOND)
    ensures DateInSkew(1767225600 * SECOND, parse, header)
  {
    SkewIff(1767225600 * SECOND, parse, header);
  }

  // ----- the digest -----

  /** splitDigestHeader. */
  function SplitDigest(header: string): Option<(string, string)> {
    var h := TrimSpace(header);
    var i := IndexOf(h, '=');
    if i == |h| || i == 0 || i == |h| - 1 then None else Some((h[..i], h[i + 1..]))
  }

  /** The header is cut at its first `=`; neither part may be empty. */
  lemma SplitDigestIs(header: string, algo: string, value: string)
    ensures SplitDigest(header) == Some((algo, value)) <==>
              TrimSpace(header) == algo + "=" + value && '=' !in algo && algo != "" && value != ""
  {
    var h := TrimSpace(header);
    var i := IndexOf(h, '=');
    if i < |h| {
      assert h == h[..i] + "=" + h[i + 1..];
    }
    if h == algo + "=" + value && '=' !in algo {
      assert h[|algo|] == '=' && forall j :: 0 <= j < |algo| ==> h[j] == algo[j];
      assert i == |algo|;
      assert h[..i] == algo && h[i + 1..] == value;
    }
  }

  /** The Digest header is `SHA-256=` and the base64 of the body's hash, the name in any case. */
  predicate DigestMatches(c: Crypto, header: string, body: seq<Byte>) {
    var d := SplitDigest(header);
    d.Some? && EqualFold(d.value.0, "SHA-256") && d.value.1 == c.encode(c.sha256(body))
  }

  // ----- admission -----

  /** What the server knows besides the request. */
  datatype Env = Env(c: Crypto, now: int, parseDate: string -> Option<int>, expectedHost: string)

  function Admit(env: Env, parsed: Option<Parsed>, host: string, date: string, digest: string,
                 body: seq<Byte>): Verdict {
    if parsed.None? then Rejected(NotParsed)
    else if !ContainsFold(parsed.value.headers, "(request-target)") then Rejected(RequestTargetUnsigned)
    else if !ContainsFold(parsed.value.headers, "date") then Rejected(DateUnsigned)
    else if !DateInSkew(env.now, env.parseDate, date) then Rejected(DateSkew)
    else if env.expectedHost != "" && !ContainsFold(parsed.value.headers, "host") then Rejected(HostUnsigned)
    else if env.expectedHost != "" && !EqualFold(TrimSpace(host), env.expectedHost) then Rejected(HostMismatch)
    else if !ContainsFold(parsed.value.headers, "digest") then Rejected(DigestUnsigned)
    else
      var d := SplitDigest(digest);
      if d.None? then Rejected(if TrimSpace(digest) == "" then DigestMissing else DigestMalformed)
      else if !EqualFold(d.value.0, "SHA-256") then Rejected(DigestAlgo)
      else if d.value.1 != env.c.encode(env.c.sha256(body)) then Rejected(DigestMismatch)
      else Admitted
  }

  method VerifyInboxAdmission(env: Env, parsed: Option<Parsed>, host: string, date: string, digest: string,
                              body: seq<Byte>)
    returns (r: Verdict)
    ensures r == Admit(env, parsed, host, date, digest, body)
  {
    if parsed.None? {
      return Rejected(NotParsed);
    }
    var signed := ContainsHeaderFold(parsed.value.headers, "(request-target)");
    if !signed {
      return Rejected(RequestTargetUnsigned);
    }
    signed := ContainsHeaderFold(parsed.value.headers, "date");
    if !signed {
      return Rejected(DateUnsigned);
    }
    if !DateInSkew(env.now, env.parseDate, date) {
      return Rejected(DateSkew);
    }
    if env.expectedHost != "" {
      signed := ContainsHeaderFold(parsed.value.headers, "host");
      if !signed {
        return Rejected(HostUnsigned);
      }
      if !EqualFold(TrimSpace(host), env.expectedHost) {
        return Rejected(HostMismatch);
      }
    }
    signed := ContainsHeaderFold(parsed.value.headers, "digest");
    if !signed {
      return Rejected(DigestUnsigned);
    }
    var d := SplitDigest(digest);
    if d.None? {
      return Rejected(if TrimSpace(digest) == "" then DigestMissing else DigestMalformed);
    }
    if !EqualFold(d.value.0, "SHA-256") {
      return Rejected(DigestAlgo);
    }
    if env.c.encode(env.c.sha256(body)) != d.value.1 {
      return Rejected(DigestMismatch);
    }
    r := Admitted;
  }

  /** The inbox's call: the signature verified, then admission with the resolved date. */
  predicate Accepted(env: Env, v: View, pem: string, body: seq<Byte>) {
    var parsed := ParseSpec(Get(v, "signature"));
    && VerifyRequest(env.c, v, pem).Ok?
    && parsed.Ok?
    && var date := InboxDateHeader(v, parsed.value.headers);
       Admit(env, Some(parsed.value), v.host, date, Get(v, "digest"), body).Admitted?
  }

  /** A request as net/http's server builds it: header names are tokens, hence ASCII, and the host is kept apart. */
  predicate FromWire(v: View) {
    (forall k :: k in v.headers ==> Ascii(k)) && "host" !in v.headers && ' ' !in v.verb
  }

  /** A name on the signed list that the signing string looks up as `name`. */
  predicate Covers(names: seq<string>, name: string) {
    exists i :: 0 <= i < |names| && Lower(names[i]) == name
  }

  /**
    The admission check compares names by folding, the signing string by lower-casing. On a request from the wire with
    a complete list this makes no difference.
    */
  lemma FoldedIsCovered(v: View, names: seq<string>, name: string)
    requires FromWire(v) && Complete(v, names) && LowerAscii(name) && ContainsFold(names, name)
    ensures Covers(names, name)
  {
    var i :| 0 <= i < |names| && EqualFold(names[i], name);
    assert HasValue(v, names[i]);
    ValuedIsAscii(v, names[i]);
    LowerAsciiFold(names[i], name);
  }

  lemma ValuedIsAscii(v: View, name: string)
    requires FromWire(v) && HasValue(v, name)
    ensures Ascii(Lower(name))
  {
    var k := Lower(name);
    if k !in v.headers {
      assert Get(v, k) == "";
      assert k == "(request-target)" || k == "host";
      FixedNames();
    }
  }

  /** That needs header names to be ASCII: a long s is folded to `s` but not lowered to it. */
  lemma LongSIsNotCovered(v: View)
    requires v.headers == map["dige\U{17F}t" := "x"]
    ensures Complete(v, ["dige\U{17F}t"]) && ContainsFold(["dige\U{17F}t"], "digest")
    ensures !Covers(["dige\U{17F}t"], "digest")
  {
    var s := "dige\U{17F}t";
    assert Lower(s)[4] == '\U{17F}' && "digest"[4] == 's';
    assert Lower(s) == s;
    assert |s| != |"host"| && |s| != |"(request-target)"|;
    assert EqualFold([s][0], "digest");
  }

  /** The names the signing string looks up for what admission relies on. */
  function DateName(v: View, names: seq<string>): string {
    if Get(v, "x-date") != "" && ContainsFold(names, "x-date") then "x-date" else "date"
  }

  lemma FixedNames()
    ensures LowerAscii("(request-target)") && LowerAscii("host") && LowerAscii("digest")
    ensures LowerAscii("date") && LowerAscii("x-date")
  {}

  /** Admission says yes exactly when every check passes. */
  lemma AdmittedIff(env: Env, parsed: Parsed, host: string, date: string, digest: string, body: seq<Byte>)
    ensures Admit(env, Some(parsed), host, date, digest, body).Admitted? <==>
            && ContainsFold(parsed.headers, "(request-target)") && ContainsFold(parsed.headers, "date")
            && DateInSkew(env.now, env.parseDate, date)
            && (env.expectedHost != "" ==> ContainsFold(parsed.headers, "host"))
            && (env.expectedHost != "" ==> EqualFold(TrimSpace(host), env.expectedHost))
            && ContainsFold(parsed.headers, "digest") && DigestMatches(env.c, digest, body)
  {}

  /** The position of a check in the order they are made. */
  function Rank(r: Reason): nat {
    match r
    case NotParsed => 0
    case RequestTargetUnsigned => 1
    case DateUnsigned => 2
    case DateSkew => 3
    case HostUnsigned => 4
    case HostMismatch => 5
    case DigestUnsigned => 6
    case DigestMissing => 7
    case DigestMalformed => 8
    case DigestAlgo => 9
    case DigestMismatch => 10
  }

  /** What each reason says is wrong. */
  predicate Fails(env: Env, parsed: Option<Parsed>, host: string, date: string, digest: string, body: seq<Byte>,
                  r: Reason) {
    var names := if parsed.Some? then parsed.value.headers else [];
    var d := SplitDigest(digest);
    match r
    case NotParsed => parsed.None?
    case RequestTargetUnsigned => !ContainsFold(names, "(request-target)")
    case DateUnsigned => !ContainsFold(names, "date")
    case DateSkew => !DateInSkew(env.now, env.parseDate, date)
    case HostUnsigned => env.expectedHost != "" && !ContainsFold(names, "host")
    case HostMismatch => env.expectedHost != "" && !EqualFold(TrimSpace(host), env.expectedHost)
    case DigestUnsigned => !ContainsFold(names, "digest")
    case DigestMissing => TrimSpace(digest) == ""
    case DigestMalformed => d.None?
    case DigestAlgo => d.Some? && !EqualFold(d.value.0, "SHA-256")
    case DigestMismatch => d.Some? && d.value.1 != env.c.encode(env.c.sha256(body))
  }

  /** A rejection names the first check that fails, and only that one. */
  lemma RejectionIsFirstFailure(env: Env, parsed: Option<Parsed>, host: string, date: string, digest: string,
                                body: seq<Byte>, r: Reason)
    ensures Admit(env, parsed, host, date, digest, body) == Rejected(r) <==>
            Fails(env, parsed, host, date, digest, body, r) &&
            forall q: Reason :: Rank(q) < Rank(r) ==> !Fails(env, parsed, host, date, digest, body, q)
  {
    var v := Admit(env, parsed, host, date, digest, body);
    EmptyIsMissing(digest);
    if v.Rejected? {
      assert Fails(env, parsed, host, date, digest, body, v.reason);
      assert Rank(v.reason) < Rank(r) || Rank(r) < Rank(v.reason) || v.reason == r;
    }
  }

  lemma EmptyIsMissing(digest: string)
    ensures TrimSpace(digest) == "" ==> SplitDigest(digest).None?
  {}

  /** What acceptance of a request rests on: the signing string is complete, and admission said yes. */
  predicate AdmittedAs(env: Env, v: View, parsed: Parsed, body: seq<Byte>) {
    Complete(v, parsed.headers) &&
    Admit(env, Some(parsed), v.host, InboxDateHeader(v, parsed.headers), Get(v, "digest"), body).Admitted?
  }

  lemma AcceptedIsAdmitted(env: Env, v: View, pem: string, body: seq<Byte>)
    requires Accepted(env, v, pem, body)
    ensures AdmittedAs(env, v, ParseSpec(Get(v, "signature")).value, body)
  {}

  /** What the inbox relies on is signed under `names`: the target, the host, a fresh date, and the body's digest. */
  ghost predicate ReliesOnSigned(env: Env, v: View, names: seq<string>, body: seq<Byte>) {
    && Covers(names, "(request-target)") && Covers(names, "host") && Covers(names, "digest")
    && Covers(names, DateName(v, names))
    && DateInSkew(env.now, env.parseDate, Get(v, DateName(v, names)))
    && EqualFold(TrimSpace(v.host), env.expectedHost) && v.host == SignedValue(v, "host")
    && DigestMatches(env.c, Get(v, "digest"), body) && Get(v, "digest") == SignedValue(v, "digest")
  }

  /** Everything a request was admitted for is signed, and its digest is the body's. */
  lemma AdmittedIsCovered(env: Env, v: View, parsed: Parsed, body: seq<Byte>)
    requires FromWire(v) && env.expectedHost != "" && AdmittedAs(env, v, parsed, body)
    ensures ReliesOnSigned(env, v, parsed.headers, body)
  {
    AdmittedIff(env, parsed, v.host, InboxDateHeader(v, parsed.headers), Get(v, "digest"), body);
    AllCovered(v, parsed.headers);
    PlainValues(v);
  }

  /** A request the inbox accepts has a verified signature over everything the inbox relies on. */
  lemma AcceptedIsCovered(env: Env, v: View, pem: string, body: seq<Byte>)
    requires FromWire(v) && env.expectedHost != "" && Accepted(env, v, pem, body)
    ensures ParseSpec(Get(v, "signature")).Ok? && env.c.parse(pem).Some?
    ensures var parsed, pub := ParseSpec(Get(v, "signature")).value, env.c.parse(pem).value;
            var sig := env.c.decode(parsed.signature);
            sig.Some? && exists s: Scheme :: (Lower(parsed.algorithm), pub.kt, s) in MATRIX &&
                           env.c.verify(s, pub.key, SigningString(v, parsed.headers), sig.value)
    ensures ReliesOnSigned(env, v, ParseSpec(Get(v, "signature")).value.headers, body)
  {
    AcceptedIff(env.c, v, pem);
    AcceptedIsAdmitted(env, v, pem, body);
    AdmittedIsCovered(env, v, ParseSpec(Get(v, "signature")).value, body);
  }

  lemma PlainValues(v: View)
    requires "host" !in v.headers
    ensures SignedValue(v, "host") == v.host && SignedValue(v, "digest") == Get(v, "digest")
    ensures SignedValue(v, "date") == Get(v, "date") && SignedValue(v, "x-date") == Get(v, "x-date")
  {}

  lemma AllCovered(v: View, names: seq<string>)
    requires FromWire(v) && Complete(v, names) && ContainsFold(names, "(request-target)") && ContainsFold(names, "host")
    requires ContainsFold(names, "digest") && ContainsFold(names, "date")
    ensures Covers(names, "(request-target)") && Covers(names, "host") && Covers(names, "digest")
    ensures Covers(names, DateName(v, names))
  {
    FixedNames();
    FoldedIsCovered(v, names, "(request-target)");
    FoldedIsCovered(v, names, "host");
    FoldedIsCovered(v, names, "digest");
    FoldedIsCovered(v, names, DateName(v, names));
  }

  lemma SameCoveredValue(v: View, w: View, names: seq<string>, name: string)
    requires OneLine(v, names) && OneLine(w, names) && SigningString(v, names) == SigningString(w, names)
    requires Covers(names, name)
    ensures SignedValue(v, name) == SignedValue(w, name)
  {
    SigningStringInjective(v, w, names);
  }

  /** The list decides which date is used. */
  lemma SameDateName(v: View, w: View, names: seq<string>)
    requires FromWire(v) && FromWire(w) && Complete(v, names) && Complete(w, names)
    ensures DateName(v, names) == DateName(w, names)
  {
    FixedNames();
    if ContainsFold(names, "x-date") {
      FoldedIsCovered(v, names, "x-date");
      var i :| 0 <= i < |names| && Lower(names[i]) == "x-date";
      assert HasValue(v, names[i]) && HasValue(w, names[i]);
      assert "x-date" != "host" && "x-date" != "(request-target)";
    }
  }

  /**
    Two admitted requests with the same list and the same signing string are the same request for the inbox: method,
    target, host and date agree, and so do the hashes of the bodies.
    */
  lemma SameStringSameRequest(env: Env, v: View, w: View, p: Parsed, q: Parsed, body: seq<Byte>, wody: seq<Byte>)
    requires Base64(env.c) && FromWire(v) && FromWire(w) && env.expectedHost != ""
    requires AdmittedAs(env, v, p, body) && AdmittedAs(env, w, q, wody) && p.headers == q.headers
    requires OneLine(v, p.headers) && OneLine(w, p.headers)
    requires SigningString(v, p.headers) == SigningString(w, p.headers)
    ensures Lower(v.verb) == Lower(w.verb) && v.uri == w.uri && v.host == w.host && Get(v, "digest") == Get(w, "digest")
    ensures InboxDateHeader(v, p.headers) == InboxDateHeader(w, p.headers)
    ensures env.c.sha256(body) == env.c.sha256(wody)
  {
    var names := p.headers;
    AdmittedIsCovered(env, v, p, body);
    AdmittedIsCovered(env, w, q, wody);
    SameSignedValues(v, w, names);
    SameTarget(v, w);
    SameHash(env.c, Get(v, "digest"), body, wody);
  }

  lemma SameHash(c: Crypto, digest: string, body: seq<Byte>, wody: seq<Byte>)
    requires Base64(c) && DigestMatches(c, digest, body) && DigestMatches(c, digest, wody)
    ensures c.sha256(body) == c.sha256(wody)
  {
    assert c.decode(c.encode(c.sha256(body))) == Some(c.sha256(body));
    assert c.decode(c.encode(c.sha256(wody))) == Some(c.sha256(wody));
  }

  lemma SameSignedValues(v: View, w: View, names: seq<string>)
    requires FromWire(v) && FromWire(w) && Complete(v, names) && Complete(w, names)
    requires OneLine(v, names) && OneLine(w, names) && SigningString(v, names) == SigningString(w, names)
    requires Covers(names, "(request-target)") && Covers(names, "host") && Covers(names, "digest")
    requires Covers(names, DateName(v, names))
    ensures SignedValue(v, "(request-target)") == SignedValue(w, "(request-target)") && v.host == w.host
    ensures Get(v, "digest") == Get(w, "digest") && InboxDateHeader(v, names) == InboxDateHeader(w, names)
  {
    SameCoveredValue(v, w, names, "(request-target)");
    SameCoveredValue(v, w, names, "host");
    SameCoveredValue(v, w, names, "digest");
    SameDateName(v, w, names);
    SameCoveredValue(v, w, names, DateName(v, names));
    PlainValues(v);
    PlainValues(w);
  }

  lemma SameTarget(v: View, w: View)
    requires ' ' !in v.verb && ' ' !in w.verb
    requires SignedValue(v, "(request-target)") == SignedValue(w, "(request-target)")
    ensures Lower(v.verb) == Lower(w.verb) && v.uri == w.uri
  {
    LowerNoSpace(v.verb);
    LowerNoSpace(w.verb);
    assert SignedValue(v, "(request-target)") == Lower(v.verb) + ([' '] + v.uri);
    assert SignedValue(w, "(request-target)") == Lower(w.verb) + ([' '] + w.uri);
    FirstSeparator(Lower(v.verb), Lower(w.verb), v.uri, w.uri, ' ');
  }

  lemma LowerNoSpace(s: string)
    requires ' ' !in s
    ensures ' ' !in Lower(s)
  {
    forall i | 0 <= i < |s| ensures Lower(s)[i] != ' ' {
      assert s[i] in s && Lower(s)[i] == LowerChar(s[i]);
    }
  }

  // ----- honest senders -----

  /** SHA256Digest passes the digest part of admission, for its own hash and no other. */
  lemma OwnDigestMatches(c: Crypto, body: seq<Byte>, other: seq<Byte>)
    requires Base64(c) && c.sha256(body) != []
    ensures DigestMatches(c, Sha256Digest(c, body), other) <==> c.sha256(body) == c.sha256(other)
  {
    var e := c.encode(c.sha256(body));
    var d := Sha256Digest(c, body);
    assert c.decode(e) == Some(c.sha256(body)) && c.decode(c.encode(c.sha256(other))) == Some(c.sha256(other));
    assert d[|d| - 1] == e[|e| - 1];
    assert Trimmed(d);
    TrimmedIff(d);
    DigestName(e);
    assert SplitDigest(d) == Some(("SHA-256", e));
  }

  lemma DigestName(e: string)
    ensures var d := "SHA-256=" + e; IndexOf(d, '=') == 7 && d[..7] == "SHA-256" && d[8..] == e
  {
    var d := "SHA-256=" + e;
    var i := IndexOf(d, '=');
    assert d[7] == '=';
    assert forall j :: 0 <= j < 7 ==> d[j] == "SHA-256"[j] != '=';
  }

  /**
    A fresh POST signed over the four required headers is accepted where it is sent to, as long as it arrives in time.
    */
  lemma SignedPostIsAccepted(env: Env, v: View, now: string, key: PrivateKey, body: seq<Byte>, names: seq<string>,
                             pem: string)
    requires Base64(env.c) && NonEmptySignatures(env.c) && env.c.sha256(body) != []
    requires env.c.parse(pem).Some? && Matching(env.c, key, env.c.parse(pem).value)
    requires key.keyId != "" && QuoteFree(key.keyId) && forall f :: f in names ==> PlainName(f) && QuoteFree(f)
    requires {"(request-target)", "host", "date", "digest"} <= set f | f in names
    requires SignSpec(env.c, v, v.host, now, Some(key), Sha256Digest(env.c, body), names).result.Ok?
    requires OneLine(Prepared(v, v.host, now, Sha256Digest(env.c, body)), names) && Fresh(v, v.host)
    requires "x-date" !in v.headers && "date" !in v.headers && now != ""
    requires EqualFold(TrimSpace(v.host), env.expectedHost) && DateInSkew(env.now, env.parseDate, now)
    ensures var signed := SignSpec(env.c, v, v.host, now, Some(key), Sha256Digest(env.c, body), names).view;
            Accepted(env, Delivered(signed, v.host), pem, body)
  {
    var digest := Sha256Digest(env.c, body);
    var w := Delivered(SignSpec(env.c, v, v.host, now, Some(key), digest, names).view, v.host);
    FreshRequestVerifies(env.c, v, v.host, now, key, body, names, pem);
    PostHeaders(env.c, v, now, key, digest, names);
    OwnDigestMatches(env.c, body, body);
    var parsed := ParseSpec(Get(w, "signature"));
    PrintedList(env.c, v, now, key, digest, names);
    ListedIsFolded(names);
  }

  lemma PostHeaders(c: Crypto, v: View, now: string, key: PrivateKey, digest: string, names: seq<string>)
    requires SignSpec(c, v, v.host, now, Some(key), digest, names).result.Ok? && digest != ""
    requires "x-date" !in v.headers && "date" !in v.headers
    ensures var w := Delivered(SignSpec(c, v, v.host, now, Some(key), digest, names).view, v.host);
            Get(w, "x-date") == "" && Get(w, "date") == now && Get(w, "digest") == digest && w.host == v.host
  {
    DeliveredGet(c, v, v.host, now, key, digest, names, "x-date");
    DeliveredGet(c, v, v.host, now, key, digest, names, "date");
    DeliveredGet(c, v, v.host, now, key, digest, names, "digest");
    PreparedDates(v, now, digest);
  }

  lemma PreparedDates(v: View, now: string, digest: string)
    requires "x-date" !in v.headers && "date" !in v.headers && digest != ""
    ensures var p := Prepared(v, v.host, now, digest);
            Get(p, "x-date") == "" && Get(p, "date") == now && Get(p, "digest") == digest
  {
    assert "date" != "host" && "date" != "digest" && "x-date" != "host" && "x-date" != "digest" && "x-date" != "date";
  }

  lemma PrintedList(c: Crypto, v: View, now: string, key: PrivateKey, digest: string, names: seq<string>)
    requires SignSpec(c, v, v.host, now, Some(key), digest, names).result.Ok? && Base64(c) && NonEmptySignatures(c)
    requires key.keyId != "" && QuoteFree(key.keyId) && names != []
    requires forall f :: f in names ==> PlainName(f) && QuoteFree(f)
    ensures var w := Delivered(SignSpec(c, v, v.host, now, Some(key), digest, names).view, v.host);
            ParseSpec(Get(w, "signature")).Ok? && ParseSpec(Get(w, "signature")).value.headers == names
  {
    var text := SigningString(Prepared(v, v.host, now, digest), names);
    var sig := c.sign(key.kt, key.secret, text).value;
    assert c.sign(key.kt, key.secret, text) != Some([]);
    assert c.decode(c.encode(sig)) == Some(sig);
    PrintParse(key.keyId, key.kt, names, c.encode(sig));
  }

  lemma ListedIsFolded(names: seq<string>)
    ensures forall f :: f in names ==> ContainsFold(names, f)
  {
    forall f | f in names ensures ContainsFold(names, f) {
      var i :| 0 <= i < |names| && names[i] == f;
      assert EqualFold(names[i], f);
    }
  }
}
