/**
  HTTP Signatures (`internal/activitypub/signature.go`), after section 2.1
  (parameters), 2.3 (signature string) and 2.5 (verification) of
  draft-cavage-http-signatures-12. Cryptography and base64 are parameters.
  */
module HttpSignature {
  import opened Basics
  import opened Text

  datatype KeyType = Rsa | Ed25519

  datatype Scheme = RsaSha256 | RsaSha512 | Ed25519Pure

  /** A decoded public key; the key material is an opaque number. */
  datatype PublicKey = PublicKey(kt: KeyType, key: int)

  /** What is used of crypto/rsa, crypto/ed25519, crypto/sha256, encoding/base64 and ParsePublicKey. */
  datatype Crypto = Crypto(
    sign: (KeyType, int, string) -> Option<seq<Byte>>,
    verify: (Scheme, int, string, seq<Byte>) -> bool,
    encode: seq<Byte> -> string,
    decode: string -> Option<seq<Byte>>,
    sha256: seq<Byte> -> seq<Byte>,
    parse: string -> Option<PublicKey>)

  /** A request as header lookups see it; header names are in lower case. */
  datatype View = View(verb: string, uri: string, host: string, headers: map<string, string>, hasBody: bool)

  datatype Parsed = Parsed(keyId: string, algorithm: string, headers: seq<string>, signature: string)

  datatype Error =
    | NoSignatureHeader
    | IncompleteSignatureHeader
    | UnsupportedAlgorithm
    | BadPem
    | MissingSignedHeader(name: string)
    | BadBase64
    | WrongKeyType
    | BadSignature
    | UnsupportedDigest
    | NoPrivateKey
    | CannotSign

  datatype Result<T> = Ok(value: T) | Err(error: Error)

  // ----- characters -----

  /** `\w` of regexp. */
  predicate IsWord(c: char) {
    '0' <= c <= '9' || 'A' <= c <= 'Z' || 'a' <= c <= 'z' || c == '_'
  }

  // ----- the signing string -----

  function Get(v: View, name: string): string {
    if name in v.headers then v.headers[name] else ""
  }

  /** The value a signed header name stands for. */
  function SignedValue(v: View, key: string): string {
    if key == "(request-target)" then Lower(v.verb) + " " + v.uri
    else if key == "host" && Get(v, "host") == "" then v.host
    else Get(v, key)
  }

  predicate HasValue(v: View, name: string) {
    Lower(name) == "(request-target)" || SignedValue(v, Lower(name)) != ""
  }

  /** Every header of the list has a value. */
  predicate Complete(v: View, names: seq<string>) {
    forall i :: 0 <= i < |names| ==> HasValue(v, names[i])
  }

  function Line(v: View, name: string): string {
    Lower(name) + ": " + SignedValue(v, Lower(name))
  }

  function Lines(v: View, names: seq<string>): (r: seq<string>)
    ensures |r| == |names|
    ensures forall i :: 0 <= i < |names| ==> r[i] == Line(v, names[i])
  {
    if names == [] then [] else Lines(v, names[..|names| - 1]) + [Line(v, names[|names| - 1])]
  }

  function SigningString(v: View, names: seq<string>): string {
    Join(Lines(v, names), "\n")
  }

  /** The first header of the list that has no value. */
  function FirstMissing(v: View, names: seq<string>): (name: string)
    requires !Complete(v, names)
  {
    if !HasValue(v, names[0]) then Lower(names[0]) else FirstMissing(v, names[1..])
  }

  lemma {:induction false} FirstMissingAt(v: View, names: seq<string>, i: nat)
    requires i < |names| && Complete(v, names[..i]) && !HasValue(v, names[i])
    ensures !Complete(v, names) && FirstMissing(v, names) == Lower(names[i])
  {
    if i > 0 {
      assert HasValue(v, names[..i][0]);
      assert names[1..][..i - 1] == names[..i][1..];
      FirstMissingAt(v, names[1..], i - 1);
    }
  }

  function Canonical(v: View, names: seq<string>): Result<string> {
    if Complete(v, names) then Ok(SigningString(v, names)) else Err(MissingSignedHeader(FirstMissing(v, names)))
  }

  lemma LinesSnoc(v: View, names: seq<string>, i: nat)
    requires i < |names|
    ensures Lines(v, names[..i + 1]) == Lines(v, names[..i]) + [Line(v, names[i])]
    ensures Complete(v, names[..i + 1]) <==> Complete(v, names[..i]) && HasValue(v, names[i])
  {
    assert names[..i + 1] == names[..i] + [names[i]];
  }

  /** buildSigningString. */
  method BuildSigningString(v: View, names: seq<string>) returns (r: Result<string>)
    ensures r == Canonical(v, names)
  {
    var parts: seq<string> := [];
    for i := 0 to |names|
      invariant parts == Lines(v, names[..i])
      invariant Complete(v, names[..i])
    {
      var key := Lower(names[i]);
      LinesSnoc(v, names, i);
      if key == "(request-target)" {
        parts := parts + ["(request-target)" + ": " + (Lower(v.verb) + " " + v.uri)];
      } else {
        var value := Get(v, key);
        if key == "host" && value == "" {
          value := v.host;
        }
        if value == "" {
          FirstMissingAt(v, names, i);
          return Err(MissingSignedHeader(key));
        }
        parts := parts + [key + ": " + value];
      }
    }
    assert names[..|names|] == names;
    r := Ok(Join(parts, "\n"));
  }

  /** The values a request has for a list of signed headers have no line breaks, and neither do the names. */
  predicate OneLine(v: View, names: seq<string>) {
    && (forall i :: 0 <= i < |names| ==> '\n' !in Lower(names[i]) && '\n' !in SignedValue(v, Lower(names[i])))
  }

  /** The signing string determines every signed value. */
  lemma SigningStringInjective(v: View, w: View, names: seq<string>)
    requires OneLine(v, names) && OneLine(w, names) && SigningString(v, names) == SigningString(w, names)
    ensures forall i :: 0 <= i < |names| ==> SignedValue(v, Lower(names[i])) == SignedValue(w, Lower(names[i]))
  {
    var xs, ys := Lines(v, names), Lines(w, names);
    JoinInjective(xs, ys, '\n');
    forall i | 0 <= i < |names| ensures SignedValue(v, Lower(names[i])) == SignedValue(w, Lower(names[i])) {
      var n := |Lower(names[i]) + ": "|;
      assert xs[i] == ys[i];
      assert xs[i][n..] == SignedValue(v, Lower(names[i]));
      assert ys[i][n..] == SignedValue(w, Lower(names[i]));
    }
  }

  lemma {:induction false} SameValuesSameString(v: View, w: View, names: seq<string>)
    requires forall i :: 0 <= i < |names| ==> SignedValue(v, Lower(names[i])) == SignedValue(w, Lower(names[i]))
    ensures Lines(v, names) == Lines(w, names)
  {
    assert forall i :: 0 <= i < |names| ==> Lines(v, names)[i] == Lines(w, names)[i];
  }

  // ----- the signing string, character by character -----

  /** `t` is `s` in lower case. */
  predicate Lowered(s: string, t: string) {
    |t| == |s| && forall i :: 0 <= i < |s| ==> t[i] == LowerChar(s[i])
  }

  /** What a request has to say under a lower-case name; nothing for a header it does not have. */
  predicate Says(v: View, key: string, value: string) {
    if key == "(request-target)" then
      && |v.verb| < |value| && Lowered(v.verb, value[..|v.verb|])
      && value[|v.verb|] == ' ' && value[|v.verb| + 1..] == v.uri
    else if key in v.headers && v.headers[key] != "" then value == v.headers[key]
    else value == if key == "host" then v.host else ""
  }

  /** `line` is the lower-case name, a colon, a blank, and what the request says under that name. */
  predicate IsLine(v: View, name: string, line: string) {
    var n := |name|;
    && n + 2 <= |line|
    && Lowered(name, line[..n]) && line[n..n + 2] == ": " && Says(v, line[..n], line[n + 2..])
  }

  lemma LoweredIs(s: string, t: string)
    ensures Lowered(s, t) <==> t == Lower(s)
  {}

  lemma TargetIs(v: View)
    ensures Says(v, "(request-target)", Lower(v.verb) + " " + v.uri)
  {
    var value := Lower(v.verb) + " " + v.uri;
    LoweredIs(v.verb, value[..|v.verb|]);
    assert value[..|v.verb|] == Lower(v.verb) && value[|v.verb|] == ' ' && value[|v.verb| + 1..] == v.uri;
  }

  lemma SaysIs(v: View, key: string, value: string)
    ensures Says(v, key, value) <==> value == SignedValue(v, key)
  {
    if key == "(request-target)" {
      TargetIs(v);
      if Says(v, key, value) {
        var n := |v.verb|;
        LoweredIs(v.verb, value[..n]);
        assert value == value[..n] + [value[n]] + value[n + 1..];
      }
    }
  }

  lemma OwnLine(v: View, name: string)
    ensures IsLine(v, name, Line(v, name))
  {
    var line, n := Line(v, name), |name|;
    assert line[..n] == Lower(name) && line[n..n + 2] == ": " && line[n + 2..] == SignedValue(v, Lower(name));
    LoweredIs(name, line[..n]);
    SaysIs(v, line[..n], line[n + 2..]);
  }

  lemma LineIs(v: View, name: string, line: string)
    ensures IsLine(v, name, line) <==> line == Line(v, name)
  {
    OwnLine(v, name);
    if IsLine(v, name, line) {
      var n := |name|;
      LoweredIs(name, line[..n]);
      SaysIs(v, line[..n], line[n + 2..]);
      assert line == line[..n] + line[n..n + 2] + line[n + 2..];
    }
  }

  /** Every name has exactly one line. */
  lemma OneLineEach(v: View, name: string) returns (line: string)
    ensures IsLine(v, name, line) && forall l :: IsLine(v, name, l) ==> l == line
  {
    line := Line(v, name);
    forall l ensures IsLine(v, name, l) <==> l == line {
      LineIs(v, name, l);
    }
  }

  /** One line for each name, in order, with one line break between two lines. */
  lemma SigningStringIs(v: View, name: string, rest: seq<string>, line: string)
    requires IsLine(v, name, line)
    ensures SigningString(v, []) == ""
    ensures SigningString(v, [name]) == line
    ensures rest != [] ==> SigningString(v, [name] + rest) == line + "\n" + SigningString(v, rest)
  {
    LineIs(v, name, line);
    FirstLine(v, name, rest);
    if rest != [] {
      JoinFirst(line, Lines(v, rest));
    }
  }

  lemma FirstLine(v: View, name: string, rest: seq<string>)
    ensures Lines(v, [name]) == [Line(v, name)] && Lines(v, [name] + rest) == [Line(v, name)] + Lines(v, rest)
  {
    assert Lines(v, [name])[0] == Line(v, name);
    var all, line, more := Lines(v, [name] + rest), Line(v, name), Lines(v, rest);
    assert all[0] == line;
    forall i | 0 <= i < |rest| ensures all[1 + i] == more[i] {
      assert ([name] + rest)[1 + i] == rest[i];
    }
    HeadFirst(all, line, more);
  }

  lemma HeadFirst<T>(all: seq<T>, x: T, more: seq<T>)
    requires |all| == 1 + |more| && all[0] == x && forall i :: 0 <= i < |more| ==> all[1 + i] == more[i]
    ensures all == [x] + more
  {
    forall i | 0 < i < |all| ensures all[i] == ([x] + more)[i] {
      assert all[1 + (i - 1)] == more[i - 1];
    }
  }

  lemma JoinFirst(line: string, lines: seq<string>)
    requires lines != []
    ensures Join([line] + lines, "\n") == line + "\n" + Join(lines, "\n")
  {
    assert ([line] + lines)[1..] == lines;
  }

  /** The request says nothing under the name, which is `key` in lower case. */
  predicate Missing(v: View, name: string, key: string) {
    Lowered(name, key) && key != "(request-target)" && Says(v, key, "")
  }

  lemma MissingHas(v: View, name: string, key: string)
    ensures Missing(v, name, key) <==> key == Lower(name) && !HasValue(v, name)
  {
    LoweredIs(name, key);
    SaysIs(v, key, "");
  }

  lemma {:induction false} FirstIndex(v: View, names: seq<string>) returns (i: nat)
    requires !Complete(v, names)
    ensures i < |names| && Complete(v, names[..i]) && !HasValue(v, names[i])
  {
    if !HasValue(v, names[0]) {
      i := 0;
    } else {
      i := FirstIndex(v, names[1..]);
      assert names[..i + 1] == [names[0]] + names[1..][..i];
      i := i + 1;
    }
  }

  /** The string is refused exactly for the first name under which the request says nothing. */
  lemma MissingIs(v: View, names: seq<string>)
    ensures Canonical(v, names).Ok? <==> forall i, key :: 0 <= i < |names| ==> !Missing(v, names[i], key)
    ensures Canonical(v, names).Err? ==>
              exists i, key :: 0 <= i < |names| && Missing(v, names[i], key)
                               && Canonical(v, names) == Err(MissingSignedHeader(key))
                               && forall j, k :: 0 <= j < i ==> !Missing(v, names[j], k)
  {
    forall i, key | 0 <= i < |names|
      ensures Missing(v, names[i], key) <==> key == Lower(names[i]) && !HasValue(v, names[i])
    {
      MissingHas(v, names[i], key);
    }
    if Complete(v, names) {
    } else {
      var i := FirstIndex(v, names);
      FirstMissingAt(v, names, i);
      assert Missing(v, names[i], Lower(names[i]));
      forall j, k | 0 <= j < i ensures !Missing(v, names[j], k) {
        assert HasValue(v, names[..i][j]);
      }
    }
  }

  /** `POST /inbox` is signed in lower case. */
  lemma RequestTargetExample(v: View)
    requires v.verb == "POST" && v.uri == "/inbox"
    ensures SigningString(v, ["(request-target)"]) == "(request-target): post /inbox"
  {
  }

  // ----- the Signature header -----

  /** The length of the longest prefix of word characters. */
  function WordRun(s: string): (n: nat)
    ensures n <= |s|
    ensures forall i :: 0 <= i < n ==> IsWord(s[i])
    ensures n < |s| ==> !IsWord(s[n])
  {
    if s != "" && IsWord(s[0]) then 1 + WordRun(s[1..]) else 0
  }

  /** `(\w+)="([^"]+)"` matched at the start of `s`: the lengths of the two groups. */
  function MatchHere(s: string): (m: Option<(nat, nat)>)
    ensures m.Some? ==> m.value.0 > 0 && m.value.1 > 0 && m.value.0 + m.value.1 + 3 <= |s|
  {
    var n := WordRun(s);
    if n > 0 && n + 2 <= |s| && s[n] == '=' && s[n + 1] == '"' then
      var rest := s[n + 2..];
      var q := IndexOf(rest, '"');
      if 0 < q < |rest| then Some((n, q)) else None
    else None
  }

  type Pattern = string -> Option<(nat, nat)>

  /** FindAllStringSubmatch: leftmost matches of `at` that do not overlap. */
  function Scan(at: Pattern, s: string): seq<(string, string)>
    decreases |s|
  {
    if s == "" then []
    else
      var m := at(s);
      if m.None? || m.value.0 + m.value.1 + 3 > |s| then Scan(at, s[1..])
      else
        var (n, q) := m.value;
        [(s[..n], s[n + 2..n + 2 + q])] + Scan(at, s[n + q + 3..])
  }

  function FindAll(s: string): seq<(string, string)> {
    Scan(MatchHere, s)
  }

  /** strings.Fields. */
  function Fields(s: string): (r: seq<string>)
    ensures forall f :: f in r ==> PlainName(f)
    decreases |s|
  {
    if s == "" then []
    else if IsSpace(s[0]) then Fields(s[1..])
    else
      var n := FieldRun(s);
      [s[..n]] + Fields(s[n..])
  }

  function FieldRun(s: string): (n: nat)
    ensures n <= |s|
    ensures forall i :: 0 <= i < n ==> !IsSpace(s[i])
    ensures n < |s| ==> IsSpace(s[n])
  {
    if s != "" && !IsSpace(s[0]) then 1 + FieldRun(s[1..]) else 0
  }

  predicate NoSpace(s: string) {
    forall i :: 0 <= i < |s| ==> !IsSpace(s[i])
  }

  /** A header name that survives being listed in the `headers` parameter (quotes aside). */
  predicate PlainName(f: string) {
    f != "" && NoSpace(f)
  }

  /** The loop of ParseSignatureHeader: a later parameter replaces an earlier one. */
  function Assign(p: Parsed, pairs: seq<(string, string)>): Parsed {
    if pairs == [] then p
    else
      var q := Assign(p, pairs[..|pairs| - 1]);
      var (name, value) := pairs[|pairs| - 1];
      if name == "keyId" then q.(keyId := value)
      else if name == "algorithm" then q.(algorithm := value)
      else if name == "headers" then q.(headers := Fields(value))
      else if name == "signature" then q.(signature := value)
      else q
  }

  function ParseSpec(header: string): Result<Parsed> {
    if header == "" then Err(NoSignatureHeader)
    else
      var p := Assign(Parsed("", "", [], ""), FindAll(header));
      if p.keyId == "" || p.signature == "" then Err(IncompleteSignatureHeader)
      else if p.headers == [] then Ok(p.(headers := ["date"]))
      else Ok(p)
  }

  method ParseSignatureHeader(header: string) returns (r: Result<Parsed>)
    ensures r == ParseSpec(header)
  {
    if header == "" {
      return Err(NoSignatureHeader);
    }
    var out := Parsed("", "", [], "");
    var pairs := FindAll(header);
    for i := 0 to |pairs|
      invariant out == Assign(Parsed("", "", [], ""), pairs[..i])
    {
      assert pairs[..i + 1][..i] == pairs[..i];
      var (name, value) := pairs[i];
      match name
      case "keyId" => out := out.(keyId := value);
      case "algorithm" => out := out.(algorithm := value);
      case "headers" => out := out.(headers := Fields(value));
      case "signature" => out := out.(signature := value);
      case _ =>
    }
    assert pairs[..|pairs|] == pairs;
    if out.keyId == "" || out.signature == "" {
      return Err(IncompleteSignatureHeader);
    }
    if |out.headers| == 0 {
      out := out.(headers := ["date"]);
    }
    r := Ok(out);
  }

  function AlgorithmForKeyType(kt: KeyType): string {
    if kt == Ed25519 then "ed25519" else "rsa-sha256"
  }

  function Pair(name: string, value: string): string {
    name + "=\"" + value + "\""
  }

  /** The header value SignRequest prints. */
  function PrintHeader(keyId: string, kt: KeyType, names: seq<string>, sig: string): string {
    Pair("keyId", keyId) + ("," + (Pair("algorithm", AlgorithmForKeyType(kt)) + ("," +
    (Pair("headers", Join(names, " ")) + ("," + Pair("signature", sig))))))
  }

  lemma Flat(a: string, b: string, c: string, d: string)
    ensures a + ("," + (b + ("," + (c + ("," + d))))) == a + "," + b + "," + c + "," + d
  {}

  lemma Quoted(name: string, mid: string, value: string)
    requires mid == name + "=\""
    ensures Pair(name, value) == mid + value + "\""
  {}

  /** The four parameters under their names, in the order and with the algorithm names peers expect. */
  lemma PrintedAs(keyId: string, kt: KeyType, names: seq<string>, sig: string)
    ensures PrintHeader(keyId, kt, names, sig) ==
            ("keyId=\"" + keyId + "\"") + ","
            + (if kt.Rsa? then "algorithm=\"rsa-sha256\"" else "algorithm=\"ed25519\"")
            + "," + ("headers=\"" + Join(names, " ") + "\"") + "," + ("signature=\"" + sig + "\"")
  {
    var k, h, s := Pair("keyId", keyId), Pair("headers", Join(names, " ")), Pair("signature", sig);
    Quoted("keyId", "keyId=\"", keyId);
    Quoted("headers", "headers=\"", Join(names, " "));
    Quoted("signature", "signature=\"", sig);
    var a := if kt.Rsa? then "algorithm=\"rsa-sha256\"" else "algorithm=\"ed25519\"";
    AlgorithmPair(kt, a);
    Flat(k, a, h, s);
  }

  lemma AlgorithmPair(kt: KeyType, a: string)
    requires a == if kt.Rsa? then "algorithm=\"rsa-sha256\"" else "algorithm=\"ed25519\""
    ensures Pair("algorithm", AlgorithmForKeyType(kt)) == a
  {}

  predicate QuoteFree(s: string) {
    '"' !in s
  }

  predicate Word(s: string) {
    s != "" && forall i :: 0 <= i < |s| ==> IsWord(s[i])
  }

  lemma {:induction false} WordRunOf(w: string, rest: string)
    requires forall i :: 0 <= i < |w| ==> IsWord(w[i])
    requires rest != "" && !IsWord(rest[0])
    ensures WordRun(w + rest) == |w|
  {
    if w == "" {
      assert w + rest == rest;
    } else {
      assert (w + rest)[1..] == w[1..] + rest;
      WordRunOf(w[1..], rest);
    }
  }

  lemma {:induction false} IndexOfQuote(v: string, rest: string)
    requires QuoteFree(v) && rest != "" && rest[0] == '"'
    ensures IndexOf(v + rest, '"') == |v|
  {
    if v == "" {
      assert v + rest == rest;
    } else {
      assert (v + rest)[1..] == v[1..] + rest;
      IndexOfQuote(v[1..], rest);
    }
  }

  lemma MatchPair(name: string, tail: string, value: string, rest: string)
    requires Word(name) && value != "" && QuoteFree(value)
    requires |tail| >= 2 && tail[0] == '=' && tail[1] == '"' && tail[2..] == value + rest && rest != ""
    requires rest[0] == '"'
    ensures MatchHere(name + tail) == Some((|name|, |value|))
  {
    var s := name + tail;
    WordRunOf(name, tail);
    IndexOfQuote(value, rest);
    assert s[|name| + 2..] == value + rest;
  }

  lemma PairSlices(name: string, tail: string, value: string, rest: string)
    requires tail == "=\"" + (value + ("\"" + rest))
    ensures var s := name + tail; var n, q := |name|, |value|;
            s[..n] == name && s[n + 2..n + 2 + q] == value && s[n + q + 3..] == rest && s == Pair(name, value) + rest
  {
    var s := name + tail;
    var n, q := |name|, |value|;
    assert s[n..] == tail;
    assert tail[2..2 + q] == value;
    assert tail[q + 3..] == rest;
    assert s[n + 2..n + 2 + q] == tail[2..2 + q];
    assert s[n + q + 3..] == tail[q + 3..];
  }

  /** One parameter at the front is found first. */
  lemma ScanPair(at: Pattern, name: string, value: string, rest: string)
    requires at(Pair(name, value) + rest) == Some((|name|, |value|))
    ensures Scan(at, Pair(name, value) + rest) == [(name, value)] + Scan(at, rest)
  {
    PairSlices(name, "=\"" + (value + ("\"" + rest)), value, rest);
  }

  lemma ScanComma(at: Pattern, rest: string)
    requires at("," + rest) == None
    ensures Scan(at, "," + rest) == Scan(at, rest)
  {
    DropPrefix(",", rest);
  }

  lemma PairMatches(name: string, value: string, rest: string)
    requires Word(name) && value != "" && QuoteFree(value)
    ensures MatchHere(Pair(name, value) + rest) == Some((|name|, |value|))
  {
    var tail := "=\"" + (value + ("\"" + rest));
    DropPrefix("=\"", value + ("\"" + rest));
    MatchPair(name, tail, value, "\"" + rest);
    PairSlices(name, tail, value, rest);
  }

  lemma CommaDoesNotMatch(rest: string)
    ensures MatchHere("," + rest) == None
  {
    assert WordRun("," + rest) == 0;
  }

  lemma {:induction false} FieldRunOf(f: string, rest: string)
    requires PlainName(f) || f == ""
    requires rest == "" || IsSpace(rest[0])
    ensures FieldRun(f + rest) == |f|
  {
    if f == "" {
      assert f + rest == rest;
    } else {
      assert (f + rest)[1..] == f[1..] + rest;
      FieldRunOf(f[1..], rest);
    }
  }

  lemma {:induction false} FieldsOfJoin(names: seq<string>)
    requires forall f :: f in names ==> PlainName(f)
    ensures Fields(Join(names, " ")) == names
  {
    if |names| == 1 {
      assert names[0] in names;
      FieldRunOf(names[0], "");
      assert names[0] + "" == names[0];
      assert names == [names[0]];
    } else if |names| > 1 {
      assert names[0] in names;
      var rest := " " + Join(names[1..], " ");
      FieldsOfJoin(names[1..]);
      FieldRunOf(names[0], rest);
      assert (names[0] + rest)[..|names[0]|] == names[0] && (names[0] + rest)[|names[0]|..] == rest;
      assert rest[1..] == Join(names[1..], " ");
      assert names == [names[0]] + names[1..];
    }
  }

  lemma {:induction false} JoinQuoteFree(names: seq<string>)
    requires forall f :: f in names ==> PlainName(f) && QuoteFree(f)
    ensures QuoteFree(Join(names, " ")) && (names != [] ==> Join(names, " ") != "")
  {
    if |names| == 1 {
      assert names[0] in names;
    } else if |names| > 1 {
      assert names[0] in names;
      JoinQuoteFree(names[1..]);
    }
  }

  /** What the round trip needs of its inputs. */
  predicate Printable(keyId: string, names: seq<string>, sig: string) {
    keyId != "" && QuoteFree(keyId) && sig != "" && QuoteFree(sig)
    && names != [] && forall f :: f in names ==> PlainName(f) && QuoteFree(f)
  }

  /** Everything the parser returns is printable, except that a missing list becomes "date". */
  lemma MatchedValue(s: string)
    ensures var m := MatchHere(s);
            m.Some? ==> var v := s[m.value.0 + 2..m.value.0 + 2 + m.value.1]; v != "" && QuoteFree(v)
  {
    var m := MatchHere(s);
    if m.Some? {
      var (n, q) := m.value;
      var rest := s[n + 2..];
      assert s[n + 2..n + 2 + q] == rest[..q];
    }
  }

  lemma {:induction false} ScanValues(at: Pattern, s: string)
    requires forall u: string {:trigger at(u)} :: at(u).Some? && at(u).value.0 + at(u).value.1 + 3 <= |u| ==>
               var v := u[at(u).value.0 + 2..at(u).value.0 + 2 + at(u).value.1]; v != "" && QuoteFree(v)
    ensures forall p :: p in Scan(at, s) ==> p.1 != "" && QuoteFree(p.1)
    decreases |s|
  {
    if s == "" {
    } else {
      var m := at(s);
      if m.None? || m.value.0 + m.value.1 + 3 > |s| {
        ScanValues(at, s[1..]);
      } else {
        ScanValues(at, s[m.value.0 + m.value.1 + 3..]);
      }
    }
  }

  lemma FindAllValues(s: string)
    ensures forall p :: p in FindAll(s) ==> p.1 != "" && QuoteFree(p.1)
  {
    forall u: string | MatchHere(u).Some? && MatchHere(u).value.0 + MatchHere(u).value.1 + 3 <= |u|
      ensures var m := MatchHere(u).value; var v := u[m.0 + 2..m.0 + 2 + m.1]; v != "" && QuoteFree(v)
    {
      MatchedValue(u);
    }
    ScanValues(MatchHere, s);
  }

  lemma {:induction false} AssignValues(pairs: seq<(string, string)>)
    requires forall p :: p in pairs ==> p.1 != "" && QuoteFree(p.1)
    ensures var q := Assign(Parsed("", "", [], ""), pairs);
            QuoteFree(q.keyId) && QuoteFree(q.signature) && forall f :: f in q.headers ==> PlainName(f)
  {
    if pairs == [] {
    } else {
      AssignValues(pairs[..|pairs| - 1]);
      assert pairs[|pairs| - 1] in pairs;
    }
  }

  /** No pair after the `i`-th has its name. */
  predicate LastOfName(pairs: seq<(string, string)>, i: nat) {
    i < |pairs| && forall j :: i < j < |pairs| ==> pairs[j].0 != pairs[i].0
  }

  predicate Given(pairs: seq<(string, string)>, name: string) {
    exists i :: 0 <= i < |pairs| && pairs[i].0 == name
  }

  /** The last value given under a name is the one that counts. */
  lemma {:induction false} AssignLast(p: Parsed, pairs: seq<(string, string)>, i: nat)
    requires LastOfName(pairs, i)
    ensures var r := Assign(p, pairs);
            && (pairs[i].0 == "keyId" ==> r.keyId == pairs[i].1)
            && (pairs[i].0 == "algorithm" ==> r.algorithm == pairs[i].1)
            && (pairs[i].0 == "headers" ==> r.headers == Fields(pairs[i].1))
            && (pairs[i].0 == "signature" ==> r.signature == pairs[i].1)
  {
    if i < |pairs| - 1 {
      AssignLast(p, pairs[..|pairs| - 1], i);
      assert pairs[|pairs| - 1].0 != pairs[i].0;
    }
  }

  lemma {:induction false} AssignNone(p: Parsed, pairs: seq<(string, string)>)
    ensures var r := Assign(p, pairs);
            && (!Given(pairs, "keyId") ==> r.keyId == p.keyId)
            && (!Given(pairs, "algorithm") ==> r.algorithm == p.algorithm)
            && (!Given(pairs, "headers") ==> r.headers == p.headers)
            && (!Given(pairs, "signature") ==> r.signature == p.signature)
  {
    if pairs == [] {
    } else {
      var front, n := pairs[..|pairs| - 1], |pairs| - 1;
      AssignNone(p, front);
      forall name | Given(front, name) ensures Given(pairs, name) {
        var i :| 0 <= i < |front| && front[i].0 == name;
        assert pairs[i].0 == name;
      }
      assert Given(pairs, pairs[n].0);
    }
  }

  lemma {:induction false} LastGiven(pairs: seq<(string, string)>, name: string) returns (i: nat)
    requires Given(pairs, name)
    ensures LastOfName(pairs, i) && pairs[i].0 == name
  {
    var n := |pairs| - 1;
    if pairs[n].0 == name {
      i := n;
    } else {
      var j :| 0 <= j < |pairs| && pairs[j].0 == name;
      assert pairs[..n][j].0 == name;
      i := LastGiven(pairs[..n], name);
    }
  }

  lemma NonEmptyGiven(pairs: seq<(string, string)>)
    requires forall i :: 0 <= i < |pairs| ==> pairs[i].1 != ""
    ensures var r := Assign(Parsed("", "", [], ""), pairs);
            (r.keyId != "" <==> Given(pairs, "keyId")) && (r.signature != "" <==> Given(pairs, "signature"))
  {
    AssignNone(Parsed("", "", [], ""), pairs);
    if Given(pairs, "keyId") {
      var i := LastGiven(pairs, "keyId");
      AssignLast(Parsed("", "", [], ""), pairs, i);
    }
    if Given(pairs, "signature") {
      var i := LastGiven(pairs, "signature");
      AssignLast(Parsed("", "", [], ""), pairs, i);
    }
  }

  /** keyId and signature must be there; no list means "date". */
  lemma ParseIs(header: string)
    ensures ParseSpec(header) == Err(NoSignatureHeader) <==> header == ""
    ensures var pairs, r := FindAll(header), ParseSpec(header);
            && (r.Ok? <==> header != "" && Given(pairs, "keyId") && Given(pairs, "signature"))
            && (r.Err? && header != "" ==> r == Err(IncompleteSignatureHeader))
            && (r.Ok? && !Given(pairs, "algorithm") ==> r.value.algorithm == "")
            && (r.Ok? && !Given(pairs, "headers") ==> r.value.headers == ["date"])
  {
    var pairs := FindAll(header);
    FindAllValues(header);
    forall i | 0 <= i < |pairs| ensures pairs[i].1 != "" {
      assert pairs[i] in pairs;
    }
    NonEmptyGiven(pairs);
    AssignNone(Parsed("", "", [], ""), pairs);
  }

  /** Of several values under one name the last counts. */
  lemma ParseLast(header: string, i: nat)
    requires ParseSpec(header).Ok? && LastOfName(FindAll(header), i)
    ensures var r, pair := ParseSpec(header).value, FindAll(header)[i];
            && (pair.0 == "keyId" ==> r.keyId == pair.1)
            && (pair.0 == "algorithm" ==> r.algorithm == pair.1)
            && (pair.0 == "signature" ==> r.signature == pair.1)
            && (pair.0 == "headers" ==> r.headers == if Fields(pair.1) == [] then ["date"] else Fields(pair.1))
  {
    AssignLast(Parsed("", "", [], ""), FindAll(header), i);
  }

  /** Parameters separated by commas are found in the order they are printed. */
  lemma ScanTwo(at: Pattern, a: string, x: string, b: string, y: string, rest: string)
    requires at(Pair(b, y) + rest) == Some((|b|, |y|)) && at("," + (Pair(b, y) + rest)) == None
    requires at(Pair(a, x) + ("," + (Pair(b, y) + rest))) == Some((|a|, |x|))
    ensures Scan(at, Pair(a, x) + ("," + (Pair(b, y) + rest))) == [(a, x), (b, y)] + Scan(at, rest)
  {
    ScanPair(at, b, y, rest);
    ScanComma(at, Pair(b, y) + rest);
    ScanPair(at, a, x, "," + (Pair(b, y) + rest));
  }

  lemma FindAllTwo(a: string, x: string, b: string, y: string, rest: string)
    requires Word(a) && x != "" && QuoteFree(x) && Word(b) && y != "" && QuoteFree(y)
    ensures FindAll(Pair(a, x) + ("," + (Pair(b, y) + rest))) == [(a, x), (b, y)] + FindAll(rest)
  {
    PairMatches(b, y, rest);
    CommaDoesNotMatch(Pair(b, y) + rest);
    PairMatches(a, x, "," + (Pair(b, y) + rest));
    ScanTwo(MatchHere, a, x, b, y, rest);
  }

  lemma FindAllComma(rest: string)
    ensures FindAll("," + rest) == FindAll(rest)
  {
    CommaDoesNotMatch(rest);
    ScanComma(MatchHere, rest);
  }

  lemma FindAllPrinted(keyId: string, alg: string, names: string, sig: string)
    requires keyId != "" && QuoteFree(keyId) && alg != "" && QuoteFree(alg)
    requires names != "" && QuoteFree(names) && sig != "" && QuoteFree(sig)
    ensures FindAll(Pair("keyId", keyId) + ("," + (Pair("algorithm", alg) + ("," +
                   (Pair("headers", names) + ("," + Pair("signature", sig))))))) ==
            [("keyId", keyId), ("algorithm", alg), ("headers", names), ("signature", sig)]
  {
    var k, a, h, s := "keyId", "algorithm", "headers", "signature";
    FindAllFour(k, keyId, a, alg, h, names, s, sig);
  }

  lemma FindAllFour(a: string, x: string, b: string, y: string, c: string, z: string, d: string, w: string)
    requires Word(a) && x != "" && QuoteFree(x) && Word(b) && y != "" && QuoteFree(y)
    requires Word(c) && z != "" && QuoteFree(z) && Word(d) && w != "" && QuoteFree(w)
    ensures FindAll(Pair(a, x) + ("," + (Pair(b, y) + ("," + (Pair(c, z) + ("," + Pair(d, w))))))) ==
            [(a, x), (b, y), (c, z), (d, w)]
  {
    FindAllTwo(c, z, d, w, "");
    assert Pair(d, w) + "" == Pair(d, w);
    var rest := Pair(c, z) + ("," + Pair(d, w));
    FindAllComma(rest);
    FindAllTwo(a, x, b, y, "," + rest);
  }

  lemma AssignPrinted(keyId: string, alg: string, names: string, sig: string)
    ensures Assign(Parsed("", "", [], ""),
                   [("keyId", keyId), ("algorithm", alg), ("headers", names), ("signature", sig)]) ==
            Parsed(keyId, alg, Fields(names), sig)
  {
    var a, b, c, d := ("keyId", keyId), ("algorithm", alg), ("headers", names), ("signature", sig);
    assert [a, b, c, d][..3] == [a, b, c] && [a, b, c][..2] == [a, b] && [a, b][..1] == [a] && [a][..0] == [];
    var p := Parsed("", "", [], "");
    assert Assign(p, [a]) == p.(keyId := keyId);
    assert Assign(p, [a, b]) == p.(keyId := keyId, algorithm := alg);
    assert Assign(p, [a, b, c]) == p.(keyId := keyId, algorithm := alg, headers := Fields(names));
  }

  /** Printed parameters are parsed back. */
  lemma PrintParse(keyId: string, kt: KeyType, names: seq<string>, sig: string)
    requires Printable(keyId, names, sig)
    ensures ParseSpec(PrintHeader(keyId, kt, names, sig)) == Ok(Parsed(keyId, AlgorithmForKeyType(kt), names, sig))
  {
    JoinQuoteFree(names);
    FieldsOfJoin(names);
    FindAllPrinted(keyId, AlgorithmForKeyType(kt), Join(names, " "), sig);
    AssignPrinted(keyId, AlgorithmForKeyType(kt), Join(names, " "), sig);
  }

  /** What the parser accepts is printable, quotes in the list aside. */
  lemma ParsedValues(header: string)
    ensures var r := ParseSpec(header);
            r.Ok? ==> r.value.keyId != "" && QuoteFree(r.value.keyId) && r.value.signature != "" &&
                      QuoteFree(r.value.signature) && r.value.headers != [] &&
                      forall f :: f in r.value.headers ==> PlainName(f)
  {
    FindAllValues(header);
    AssignValues(FindAll(header));
    assert PlainName("date");
  }

  /** Exactly these inputs survive the round trip. */
  lemma PrintParseIff(keyId: string, kt: KeyType, names: seq<string>, sig: string)
    requires forall f :: f in names ==> QuoteFree(f)
    ensures ParseSpec(PrintHeader(keyId, kt, names, sig)) == Ok(Parsed(keyId, AlgorithmForKeyType(kt), names, sig))
            <==> Printable(keyId, names, sig)
  {
    if Printable(keyId, names, sig) {
      PrintParse(keyId, kt, names, sig);
    }
    ParsedValues(PrintHeader(keyId, kt, names, sig));
  }

  // ----- signing -----

  datatype PrivateKey = PrivateKey(keyId: string, kt: KeyType, secret: int)

  /** SHA256Digest. */
  function Sha256Digest(c: Crypto, body: seq<Byte>): string {
    "SHA-256=" + c.encode(c.sha256(body))
  }

  /** The request as SignRequest signs it. */
  function Prepared(v: View, urlHost: string, now: string, bodyDigest: string): View {
    var h := if Get(v, "date") == "" then v.headers["date" := now] else v.headers;
    var h := if Get(v, "host") == "" then h["host" := urlHost] else h;
    v.(headers := if bodyDigest != "" then h["digest" := bodyDigest] else h)
  }

  datatype Signed = Signed(view: View, result: Result<()>)

  /**
    What SignRequest leaves of the request, and its result. A failure after the first check
    keeps the headers it set.
    */
  function SignSpec(c: Crypto, v: View, urlHost: string, now: string, key: Option<PrivateKey>, bodyDigest: string,
                    names: seq<string>): Signed {
    if key.None? then Signed(v, Err(NoPrivateKey))
    else
      var p := Prepared(v, urlHost, now, bodyDigest);
      var text := Canonical(p, names);
      if text.Err? then Signed(p, Err(text.error))
      else
        var sig := c.sign(key.value.kt, key.value.secret, text.value);
        if sig.None? then Signed(p, Err(CannotSign))
        else
          var header := PrintHeader(key.value.keyId, key.value.kt, names, c.encode(sig.value));
          Signed(p.(headers := p.headers["signature" := header] - {"host"}), Ok(()))
  }

  /** What signing does to the headers it sets; the Host header goes only on success. */
  lemma SignedHeaders(c: Crypto, v: View, urlHost: string, now: string, key: PrivateKey, bodyDigest: string,
                      names: seq<string>)
    ensures var s := SignSpec(c, v, urlHost, now, Some(key), bodyDigest, names); var w := s.view;
            && Get(w, "date") == (if Get(v, "date") == "" then now else Get(v, "date"))
            && Get(w, "digest") == (if bodyDigest == "" then Get(v, "digest") else bodyDigest)
            && (s.result.Ok? ==> "host" !in w.headers && "signature" in w.headers)
            && (s.result.Err? ==> Get(w, "host") == (if Get(v, "host") == "" then urlHost else Get(v, "host"))
                                  && Get(w, "signature") == Get(v, "signature"))
  {
    var p := Prepared(v, urlHost, now, bodyDigest);
    PreparedHeaders(v, urlHost, now, bodyDigest, "");
    SigningKeepsPrepared(c, v, urlHost, now, key, bodyDigest, names, "date");
    SigningKeepsPrepared(c, v, urlHost, now, key, bodyDigest, names, "digest");
  }

  lemma SigningKeepsPrepared(c: Crypto, v: View, urlHost: string, now: string, key: PrivateKey, bodyDigest: string,
                             names: seq<string>, k: string)
    requires k != "signature" && k != "host"
    ensures var signed := SignSpec(c, v, urlHost, now, Some(key), bodyDigest, names).view;
            Get(signed, k) == Get(Prepared(v, urlHost, now, bodyDigest), k)
  {}

  /** Everything else of the request stays. */
  lemma SigningKeepsOthers(c: Crypto, v: View, urlHost: string, now: string, key: PrivateKey, bodyDigest: string,
                           names: seq<string>, k: string)
    requires k !in {"date", "digest", "host", "signature"}
    ensures var w := SignSpec(c, v, urlHost, now, Some(key), bodyDigest, names).view;
            w == v.(headers := w.headers) && (k in w.headers <==> k in v.headers) && Get(w, k) == Get(v, k)
  {
    PreparedHeaders(v, urlHost, now, bodyDigest, k);
  }

  lemma PreparedHeaders(v: View, urlHost: string, now: string, bodyDigest: string, k: string)
    ensures var p := Prepared(v, urlHost, now, bodyDigest);
            && p == v.(headers := p.headers)
            && Get(p, "date") == (if Get(v, "date") == "" then now else Get(v, "date"))
            && Get(p, "digest") == (if bodyDigest == "" then Get(v, "digest") else bodyDigest)
            && Get(p, "host") == (if Get(v, "host") == "" then urlHost else Get(v, "host"))
            && Get(p, "signature") == Get(v, "signature")
            && (k !in {"date", "digest", "host"} ==> (k in p.headers <==> k in v.headers) && Get(p, k) == Get(v, k))
  {
    assert "date" != "host" && "date" != "digest" && "host" != "digest";
    assert "signature" != "host" && "signature" != "digest" && "signature" != "date";
  }

  /** An outgoing http.Request. */
  class Request {
    const verb: string
    const uri: string
    const urlHost: string
    const host: string
    const hasBody: bool
    var headers: map<string, string>

    function AsView(): View
      reads this
    {
      View(verb, uri, host, headers, hasBody)
    }

    method SignRequest(c: Crypto, now: string, key: Option<PrivateKey>, bodyDigest: string, names: seq<string>)
      returns (r: Result<()>)
      modifies this
      ensures Signed(AsView(), r) == SignSpec(c, old(AsView()), urlHost, now, key, bodyDigest, names)
    {
      if key.None? {
        return Err(NoPrivateKey);
      }
      if Get(AsView(), "date") == "" {
        headers := headers["date" := now];
      }
      if Get(AsView(), "host") == "" {
        headers := headers["host" := urlHost];
      }
      if bodyDigest != "" {
        headers := headers["digest" := bodyDigest];
      }
      assert AsView() == Prepared(old(AsView()), urlHost, now, bodyDigest);
      var text := BuildSigningString(AsView(), names);
      if text.Err? {
        return Err(text.error);
      }
      var sig := c.sign(key.value.kt, key.value.secret, text.value);
      if sig.None? {
        return Err(CannotSign);
      }
      headers := headers["signature" := PrintHeader(key.value.keyId, key.value.kt, names, c.encode(sig.value))];
      headers := headers - {"host"};
      r := Ok(());
    }
  }

  /**
    How net/http hands a sent request to the receiver: an empty method is GET, the host comes from the request or
    else the URL, a Host header is not in the header map, and the body is never nil.
    */
  function Delivered(v: View, urlHost: string): View {
    View(if v.verb == "" then "GET" else v.verb, v.uri, if v.host == "" then urlHost else v.host,
         v.headers - {"host"}, true)
  }

  // ----- verification -----

  predicate KnownAlgorithm(alg: string) {
    Lower(alg) in {"", "hs2019", "rsa-sha256", "rsa-sha512", "ed25519", "ed25519-sha512"}
  }

  /** verifyAlgorithm: the check it runs, or none when the name does not fit the key. */
  function SchemeFor(alg: string, kt: KeyType): Option<Scheme> {
    var a := Lower(alg);
    if a == "" || a == "hs2019" then Some(if kt == Rsa then RsaSha256 else Ed25519Pure)
    else if a == "rsa-sha256" then if kt == Rsa then Some(RsaSha256) else None
    else if a == "rsa-sha512" then if kt == Rsa then Some(RsaSha512) else None
    else if a == "ed25519" || a == "ed25519-sha512" then if kt == Ed25519 then Some(Ed25519Pure) else None
    else None
  }

  function ParseForVerify(v: View): Result<Parsed> {
    var parsed := ParseSpec(Get(v, "signature"));
    if parsed.Err? then parsed
    else if !KnownAlgorithm(parsed.value.algorithm) then Err(UnsupportedAlgorithm)
    else parsed
  }

  predicate DigestFormat(v: View) {
    Get(v, "digest") != "" && v.hasBody ==> "sha-256=" <= Lower(Get(v, "digest"))
  }

  function VerifyParsed(c: Crypto, v: View, parsed: Parsed, pub: PublicKey): Result<()> {
    var text := Canonical(v, parsed.headers);
    if text.Err? then Err(text.error)
    else
      var sig := c.decode(parsed.signature);
      if sig.None? then Err(BadBase64)
      else
        var scheme := SchemeFor(parsed.algorithm, pub.kt);
        if scheme.None? then Err(WrongKeyType)
        else if !c.verify(scheme.value, pub.key, text.value, sig.value) then Err(BadSignature)
        else if !DigestFormat(v) then Err(UnsupportedDigest)
        else Ok(())
  }

  function VerifyRequest(c: Crypto, v: View, pem: string): Result<()> {
    var parsed := ParseForVerify(v);
    if parsed.Err? then Err(parsed.error)
    else
      var pub := c.parse(pem);
      if pub.None? then Err(BadPem) else VerifyParsed(c, v, parsed.value, pub.value)
  }

  /** The algorithm names that go with a key type, and the check each stands for. */
  const MATRIX: set<(string, KeyType, Scheme)> := {
    ("", Rsa, RsaSha256), ("", Ed25519, Ed25519Pure), ("hs2019", Rsa, RsaSha256), ("hs2019", Ed25519, Ed25519Pure),
    ("rsa-sha256", Rsa, RsaSha256), ("rsa-sha512", Rsa, RsaSha512),
    ("ed25519", Ed25519, Ed25519Pure), ("ed25519-sha512", Ed25519, Ed25519Pure)}

  lemma SchemeIsMatrix(alg: string, kt: KeyType, s: Scheme)
    ensures SchemeFor(alg, kt) == Some(s) <==> (Lower(alg), kt, s) in MATRIX
  {}

  /** No digest, or one whose first eight characters are "sha-256=" in some case. */
  predicate Sha256OrNone(v: View) {
    "digest" in v.headers ==>
      var d := v.headers["digest"];
      d == "" || (|d| >= 8 && Lowered(d[..8], "sha-256="))
  }

  lemma DigestFormatIs(v: View)
    ensures DigestFormat(v) <==> v.hasBody ==> Sha256OrNone(v)
  {
    var d := Get(v, "digest");
    if |d| >= 8 {
      LoweredIs(d[..8], "sha-256=");
      assert Lower(d)[..8] == Lower(d[..8]);
    }
  }

  /** A request is accepted exactly when its own signing string verifies under a scheme of the key's own type. */
  lemma AcceptedIff(c: Crypto, v: View, pem: string)
    ensures VerifyRequest(c, v, pem).Ok? <==>
            var parsed := ParseSpec(Get(v, "signature")); var pub := c.parse(pem);
            && parsed.Ok? && pub.Some? && Complete(v, parsed.value.headers) && (v.hasBody ==> Sha256OrNone(v))
            && var sig := c.decode(parsed.value.signature);
               sig.Some? && exists s: Scheme :: (Lower(parsed.value.algorithm), pub.value.kt, s) in MATRIX &&
                              c.verify(s, pub.value.key, SigningString(v, parsed.value.headers), sig.value)
  {
    var parsed := ParseSpec(Get(v, "signature"));
    var pub := c.parse(pem);
    if parsed.Ok? && pub.Some? {
      AcceptedParsedIff(c, v, parsed.value, pub.value);
      DigestFormatIs(v);
      MatrixIsKnown(parsed.value.algorithm, pub.value.kt);
    }
  }

  /** The order of the checks. */
  function Rank(e: Error): nat {
    match e
    case NoSignatureHeader => 0
    case IncompleteSignatureHeader => 1
    case UnsupportedAlgorithm => 2
    case BadPem => 3
    case MissingSignedHeader(_) => 4
    case BadBase64 => 5
    case WrongKeyType => 6
    case BadSignature => 7
    case UnsupportedDigest => 8
    case NoPrivateKey => 9
    case CannotSign => 9
  }

  /** What each error says is wrong with a request. */
  ghost predicate Faulty(c: Crypto, v: View, pem: string, e: Error) {
    var header := Get(v, "signature");
    var pairs := FindAll(header);
    var parsed := ParseSpec(header);
    match e
    case NoSignatureHeader => header == ""
    case IncompleteSignatureHeader => !Given(pairs, "keyId") || !Given(pairs, "signature")
    case UnsupportedAlgorithm =>
      parsed.Ok? && forall kt, s: Scheme :: (Lower(parsed.value.algorithm), kt, s) !in MATRIX
    case BadPem => c.parse(pem).None?
    case MissingSignedHeader(name) => parsed.Ok? && FirstSilent(v, parsed.value.headers, name)
    case BadBase64 => parsed.Ok? && c.decode(parsed.value.signature).None?
    case WrongKeyType =>
      parsed.Ok? && c.parse(pem).Some? &&
      forall s: Scheme :: (Lower(parsed.value.algorithm), c.parse(pem).value.kt, s) !in MATRIX
    case BadSignature =>
      parsed.Ok? && c.parse(pem).Some? && c.decode(parsed.value.signature).Some? &&
      exists s: Scheme :: (Lower(parsed.value.algorithm), c.parse(pem).value.kt, s) in MATRIX &&
        !c.verify(s, c.parse(pem).value.key, SigningString(v, parsed.value.headers),
                  c.decode(parsed.value.signature).value)
    case UnsupportedDigest => v.hasBody && !Sha256OrNone(v)
    case NoPrivateKey => false
    case CannotSign => false
  }

  /** The first listed name under which the request says nothing is `key`, in lower case. */
  predicate FirstSilent(v: View, names: seq<string>, key: string) {
    exists i :: 0 <= i < |names| && Missing(v, names[i], key) && forall j :: 0 <= j < i ==> HasValue(v, names[j])
  }

  lemma FirstSilentIs(v: View, names: seq<string>, key: string)
    ensures FirstSilent(v, names, key) <==> Canonical(v, names) == Err(MissingSignedHeader(key))
  {
    if i: nat :| i < |names| && Missing(v, names[i], key) && forall j :: 0 <= j < i ==> HasValue(v, names[j]) {
      MissingHas(v, names[i], key);
      assert Complete(v, names[..i]);
      FirstMissingAt(v, names, i);
    }
    if !Complete(v, names) {
      var i := FirstIndex(v, names);
      FirstMissingAt(v, names, i);
      MissingHas(v, names[i], FirstMissing(v, names));
      forall j | 0 <= j < i ensures HasValue(v, names[j]) {
        assert HasValue(v, names[..i][j]);
      }
    }
  }

  /** One scheme at most fits an algorithm and a key type. */
  lemma SchemeOnly(alg: string, kt: KeyType, s: Scheme)
    ensures (Lower(alg), kt, s) in MATRIX <==> SchemeFor(alg, kt) == Some(s)
    ensures KnownAlgorithm(alg) <==> exists t: KeyType, u: Scheme :: (Lower(alg), t, u) in MATRIX
  {
    if KnownAlgorithm(alg) {
      var t := if Lower(alg) in {"ed25519", "ed25519-sha512"} then Ed25519 else Rsa;
      assert (Lower(alg), t, SchemeFor(alg, t).value) in MATRIX;
    }
  }

  lemma FaultyParse(c: Crypto, v: View, pem: string)
    ensures var parsed := ParseSpec(Get(v, "signature"));
            && (Faulty(c, v, pem, NoSignatureHeader) <==> parsed == Err(NoSignatureHeader))
            && (parsed != Err(NoSignatureHeader) ==>
                  (Faulty(c, v, pem, IncompleteSignatureHeader) <==> parsed == Err(IncompleteSignatureHeader)))
            && (parsed.Err? ==> parsed.error in {NoSignatureHeader, IncompleteSignatureHeader})
  {
    ParseIs(Get(v, "signature"));
  }

  lemma FaultyScheme(c: Crypto, v: View, pem: string, parsed: Parsed)
    requires ParseSpec(Get(v, "signature")) == Ok(parsed)
    ensures Faulty(c, v, pem, UnsupportedAlgorithm) <==> !KnownAlgorithm(parsed.algorithm)
    ensures c.parse(pem).Some? ==>
              (Faulty(c, v, pem, WrongKeyType) <==> SchemeFor(parsed.algorithm, c.parse(pem).value.kt).None?)
  {
    forall kt: KeyType, s: Scheme
      ensures (Lower(parsed.algorithm), kt, s) in MATRIX <==> SchemeFor(parsed.algorithm, kt) == Some(s)
    {
      SchemeOnly(parsed.algorithm, kt, s);
    }
    SchemeOnly(parsed.algorithm, Rsa, RsaSha256);
    if c.parse(pem).Some? && SchemeFor(parsed.algorithm, c.parse(pem).value.kt).Some? {
      var s := SchemeFor(parsed.algorithm, c.parse(pem).value.kt).value;
      assert (Lower(parsed.algorithm), c.parse(pem).value.kt, s) in MATRIX;
    }
  }

  lemma FaultySignature(c: Crypto, v: View, pem: string, parsed: Parsed, pub: PublicKey, sig: seq<Byte>, s: Scheme)
    requires ParseSpec(Get(v, "signature")) == Ok(parsed) && c.parse(pem) == Some(pub)
    requires c.decode(parsed.signature) == Some(sig) && SchemeFor(parsed.algorithm, pub.kt) == Some(s)
    ensures Faulty(c, v, pem, BadSignature) <==> !c.verify(s, pub.key, SigningString(v, parsed.headers), sig)
  {
    forall t: Scheme ensures (Lower(parsed.algorithm), pub.kt, t) in MATRIX <==> t == s {
      SchemeOnly(parsed.algorithm, pub.kt, t);
    }
  }

  /** `e` is wrong with the request, and nothing that is checked before it. */
  ghost predicate FirstFault(c: Crypto, v: View, pem: string, e: Error) {
    Faulty(c, v, pem, e) && forall f: Error :: Rank(f) < Rank(e) ==> !Faulty(c, v, pem, f)
  }

  /** The faults in terms of the checks themselves. */
  ghost predicate Faults(c: Crypto, v: View, pem: string, faulty: Error -> bool) {
    var parsed, pub := ParseSpec(Get(v, "signature")), c.parse(pem);
    && (faulty(NoSignatureHeader) <==> parsed == Err(NoSignatureHeader))
    && (parsed != Err(NoSignatureHeader) ==>
          (faulty(IncompleteSignatureHeader) <==> parsed == Err(IncompleteSignatureHeader)))
    && (parsed.Err? ==> parsed.error in {NoSignatureHeader, IncompleteSignatureHeader})
    && (faulty(BadPem) <==> pub.None?)
    && (faulty(UnsupportedDigest) <==> !DigestFormat(v))
    && !faulty(NoPrivateKey) && !faulty(CannotSign)
    && (parsed.Ok? ==> FaultsOf(c, v, pub, parsed.value, faulty))
  }

  ghost predicate FaultsOf(c: Crypto, v: View, pub: Option<PublicKey>, parsed: Parsed, faulty: Error -> bool) {
    var sig := c.decode(parsed.signature);
    && (faulty(UnsupportedAlgorithm) <==> !KnownAlgorithm(parsed.algorithm))
    && (forall x :: faulty(MissingSignedHeader(x)) <==> Canonical(v, parsed.headers) == Err(MissingSignedHeader(x)))
    && (faulty(BadBase64) <==> sig.None?)
    && (pub.Some? ==>
          var s := SchemeFor(parsed.algorithm, pub.value.kt);
          && (faulty(WrongKeyType) <==> s.None?)
          && (sig.Some? && s.Some? ==>
                (faulty(BadSignature) <==>
                   !c.verify(s.value, pub.value.key, SigningString(v, parsed.headers), sig.value))))
  }

  lemma DecidesRejection(c: Crypto, v: View, pem: string, faulty: Error -> bool)
    requires Faults(c, v, pem, faulty) && VerifyRequest(c, v, pem).Err?
    ensures var e := VerifyRequest(c, v, pem).error;
            faulty(e) && forall f: Error :: Rank(f) < Rank(e) ==> !faulty(f)
  {}

  lemma DecidesAcceptance(c: Crypto, v: View, pem: string, faulty: Error -> bool, f: Error)
    requires Faults(c, v, pem, faulty) && VerifyRequest(c, v, pem).Ok?
    ensures !faulty(f)
  {
    if f.MissingSignedHeader? {
      var names := ParseSpec(Get(v, "signature")).value.headers;
      assert faulty(f) <==> Canonical(v, names) == Err(MissingSignedHeader(f.name));
    }
  }

  lemma FaultsAre(c: Crypto, v: View, pem: string)
    ensures Faults(c, v, pem, e => Faulty(c, v, pem, e))
  {
    var parsed, pub := ParseSpec(Get(v, "signature")), c.parse(pem);
    FaultyParse(c, v, pem);
    DigestFormatIs(v);
    if parsed.Ok? {
      FaultsOfParsed(c, v, pem, parsed.value);
    }
  }

  lemma FaultsOfParsed(c: Crypto, v: View, pem: string, parsed: Parsed)
    requires ParseSpec(Get(v, "signature")) == Ok(parsed)
    ensures FaultsOf(c, v, c.parse(pem), parsed, e => Faulty(c, v, pem, e))
  {
    var pub, sig := c.parse(pem), c.decode(parsed.signature);
    FaultyScheme(c, v, pem, parsed);
    forall x
      ensures Faulty(c, v, pem, MissingSignedHeader(x)) <==>
              Canonical(v, parsed.headers) == Err(MissingSignedHeader(x))
    {
      FirstSilentIs(v, parsed.headers, x);
    }
    if pub.Some? && sig.Some? && SchemeFor(parsed.algorithm, pub.value.kt).Some? {
      FaultySignature(c, v, pem, parsed, pub.value, sig.value, SchemeFor(parsed.algorithm, pub.value.kt).value);
    }
  }

  /** The answer is the first fault, or there is none. */
  lemma AnswerIsFirstFault(c: Crypto, v: View, pem: string)
    ensures var r := VerifyRequest(c, v, pem);
            if r.Err? then FirstFault(c, v, pem, r.error) else forall f: Error :: !Faulty(c, v, pem, f)
  {
    var faulty := e => Faulty(c, v, pem, e);
    FaultsAre(c, v, pem);
    if VerifyRequest(c, v, pem).Err? {
      DecidesRejection(c, v, pem, faulty);
    } else {
      forall f: Error ensures !faulty(f) {
        DecidesAcceptance(c, v, pem, faulty, f);
      }
    }
  }

  /** A rejection names the first check that fails. */
  lemma VerifyRejection(c: Crypto, v: View, pem: string, e: Error)
    ensures VerifyRequest(c, v, pem) == Err(e) <==> FirstFault(c, v, pem, e)
  {
    AnswerIsFirstFault(c, v, pem);
    var r := VerifyRequest(c, v, pem);
    if r.Err? && FirstFault(c, v, pem, e) {
      assert Rank(e) == Rank(r.error);
      if e.MissingSignedHeader? {
        var names := ParseSpec(Get(v, "signature")).value.headers;
        FirstSilentIs(v, names, e.name);
        FirstSilentIs(v, names, r.error.name);
      }
    }
  }

  lemma MatrixIsKnown(alg: string, kt: KeyType)
    ensures (exists s: Scheme :: (Lower(alg), kt, s) in MATRIX) ==> KnownAlgorithm(alg)
  {}

  lemma AcceptedParsedIff(c: Crypto, v: View, parsed: Parsed, pub: PublicKey)
    ensures VerifyParsed(c, v, parsed, pub).Ok? <==>
            && Complete(v, parsed.headers) && DigestFormat(v)
            && var sig := c.decode(parsed.signature);
               sig.Some? && exists s: Scheme :: (Lower(parsed.algorithm), pub.kt, s) in MATRIX &&
                              c.verify(s, pub.key, SigningString(v, parsed.headers), sig.value)
  {
    forall s: Scheme
      ensures SchemeFor(parsed.algorithm, pub.kt) == Some(s) <==> (Lower(parsed.algorithm), pub.kt, s) in MATRIX
    {
      SchemeIsMatrix(parsed.algorithm, pub.kt, s);
    }
    var scheme := SchemeFor(parsed.algorithm, pub.kt);
    assert scheme.Some? ==> (Lower(parsed.algorithm), pub.kt, scheme.value) in MATRIX;
  }

  // ----- sign, deliver, verify -----

  /** base64 gives back what it encoded, and prints it without quotes and blanks. */
  ghost predicate Base64(c: Crypto) {
    forall b: seq<Byte> {:trigger c.encode(b)} :: c.decode(c.encode(b)) == Some(b) && QuoteFree(c.encode(b))
                                                  && NoSpace(c.encode(b)) && (b != [] ==> c.encode(b) != "")
  }

  function SchemeOf(kt: KeyType): Scheme {
    if kt == Ed25519 then Ed25519Pure else RsaSha256
  }

  /** `pub` is the public half: it accepts a signature of `key` for the text that was signed and for no other. */
  ghost predicate Matching(c: Crypto, key: PrivateKey, pub: PublicKey) {
    pub.kt == key.kt &&
    forall text: string, other: string
      {:trigger c.verify(SchemeOf(key.kt), pub.key, other, c.sign(key.kt, key.secret, text).value)} ::
      c.sign(key.kt, key.secret, text).Some? ==>
        (c.verify(SchemeOf(key.kt), pub.key, other, c.sign(key.kt, key.secret, text).value) <==> other == text)
  }

  ghost predicate NonEmptySignatures(c: Crypto) {
    forall kt: KeyType, secret: int, text: string :: c.sign(kt, secret, text) != Some([])
  }

  /** The sender's view of each signed value is the receiver's. `w` is the delivered request. */
  predicate Agrees(p: View, w: View, name: string) {
    var k := Lower(name);
    && (k == "(request-target)" ==> p.verb != "")
    && (k == "host" ==> SignedValue(p, "host") == w.host)
    && (k == "signature" ==> Get(p, "signature") == Get(w, "signature"))
  }

  lemma AgreesIff(c: Crypto, v: View, urlHost: string, now: string, key: PrivateKey, bodyDigest: string,
                  names: seq<string>, name: string)
    requires SignSpec(c, v, urlHost, now, Some(key), bodyDigest, names).result.Ok?
    ensures var p := Prepared(v, urlHost, now, bodyDigest);
            var w := Delivered(SignSpec(c, v, urlHost, now, Some(key), bodyDigest, names).view, urlHost);
            Agrees(p, w, name) <==> SignedValue(p, Lower(name)) == SignedValue(w, Lower(name))
  {
    var p := Prepared(v, urlHost, now, bodyDigest);
    var w := Delivered(SignSpec(c, v, urlHost, now, Some(key), bodyDigest, names).view, urlHost);
    var k := Lower(name);
    if k != "signature" && k != "host" {
      DeliveredGet(c, v, urlHost, now, key, bodyDigest, names, k);
    }
    SameViewIff(p, w, name);
  }

  lemma SameViewIff(p: View, w: View, name: string)
    requires w.uri == p.uri && w.verb == (if p.verb == "" then "GET" else p.verb) && "host" !in w.headers
    requires Lower(name) != "signature" && Lower(name) != "host" ==> Get(w, Lower(name)) == Get(p, Lower(name))
    ensures Agrees(p, w, name) <==> SignedValue(p, Lower(name)) == SignedValue(w, Lower(name))
  {
    if Lower(name) == "(request-target)" && p.verb == "" {
      assert |Lower(p.verb) + " " + p.uri| != |Lower(w.verb) + " " + w.uri|;
    }
  }

  lemma PrintedAlgorithm(kt: KeyType)
    ensures AlgorithmForKeyType(kt) != "" && QuoteFree(AlgorithmForKeyType(kt))
    ensures KnownAlgorithm(AlgorithmForKeyType(kt)) && SchemeFor(AlgorithmForKeyType(kt), kt) == Some(SchemeOf(kt))
  {
    assert Lower("ed25519") == "ed25519" && Lower("rsa-sha256") == "rsa-sha256";
  }

  lemma SameStringIff(p: View, w: View, names: seq<string>)
    requires OneLine(p, names) && OneLine(w, names)
    ensures SigningString(p, names) == SigningString(w, names) <==>
            forall i :: 0 <= i < |names| ==> SignedValue(p, Lower(names[i])) == SignedValue(w, Lower(names[i]))
  {
    if SigningString(p, names) == SigningString(w, names) {
      SigningStringInjective(p, w, names);
    }
    if forall i :: 0 <= i < |names| ==> SignedValue(p, Lower(names[i])) == SignedValue(w, Lower(names[i])) {
      SameValuesSameString(p, w, names);
    }
  }

  /** The receiver of a printed signature accepts exactly when it rebuilds the text that was signed. */
  lemma PrintedAccepted(c: Crypto, w: View, pem: string, key: PrivateKey, names: seq<string>, text: string)
    requires Base64(c) && NonEmptySignatures(c) && c.parse(pem).Some? && Matching(c, key, c.parse(pem).value)
    requires key.keyId != "" && QuoteFree(key.keyId) && names != []
    requires forall f :: f in names ==> PlainName(f) && QuoteFree(f)
    requires c.sign(key.kt, key.secret, text).Some?
    requires Get(w, "signature") ==
             PrintHeader(key.keyId, key.kt, names, c.encode(c.sign(key.kt, key.secret, text).value))
    ensures VerifyRequest(c, w, pem).Ok? <==> Complete(w, names) && SigningString(w, names) == text && DigestFormat(w)
  {
    var sig := c.sign(key.kt, key.secret, text).value;
    assert c.sign(key.kt, key.secret, text) != Some([]);
    assert c.decode(c.encode(sig)) == Some(sig);
    PrintParse(key.keyId, key.kt, names, c.encode(sig));
    PrintedAlgorithm(key.kt);
  }

  /**
    Sign, deliver, verify: with the matching key the receiver accepts exactly when it sees what was signed. That is so
    unless the method was left empty, a preset Host header is signed that is not the host sent, or an old Signature
    header is signed.
    */
  lemma RoundTrip(c: Crypto, v: View, urlHost: string, now: string, key: PrivateKey, bodyDigest: string,
                  names: seq<string>, pem: string)
    requires Base64(c) && NonEmptySignatures(c) && c.parse(pem).Some? && Matching(c, key, c.parse(pem).value)
    requires key.keyId != "" && QuoteFree(key.keyId) && names != []
    requires forall f :: f in names ==> PlainName(f) && QuoteFree(f)
    requires SignSpec(c, v, urlHost, now, Some(key), bodyDigest, names).result.Ok?
    requires OneLine(Prepared(v, urlHost, now, bodyDigest), names)
    requires OneLine(Delivered(SignSpec(c, v, urlHost, now, Some(key), bodyDigest, names).view, urlHost), names)
    ensures var p := Prepared(v, urlHost, now, bodyDigest);
            var w := Delivered(SignSpec(c, v, urlHost, now, Some(key), bodyDigest, names).view, urlHost);
            VerifyRequest(c, w, pem).Ok? <==>
              DigestFormat(w) && forall i :: 0 <= i < |names| ==> Agrees(p, w, names[i])
  {
    var p := Prepared(v, urlHost, now, bodyDigest);
    var w := Delivered(SignSpec(c, v, urlHost, now, Some(key), bodyDigest, names).view, urlHost);
    PrintedAccepted(c, w, pem, key, names, SigningString(p, names));
    SameStringIff(p, w, names);
    AgreesAllIff(c, v, urlHost, now, key, bodyDigest, names);
    SameValuesComplete(p, w, names);
  }

  lemma AgreesAllIff(c: Crypto, v: View, urlHost: string, now: string, key: PrivateKey, bodyDigest: string,
                     names: seq<string>)
    requires SignSpec(c, v, urlHost, now, Some(key), bodyDigest, names).result.Ok?
    ensures var p := Prepared(v, urlHost, now, bodyDigest);
            var w := Delivered(SignSpec(c, v, urlHost, now, Some(key), bodyDigest, names).view, urlHost);
            (forall i :: 0 <= i < |names| ==> Agrees(p, w, names[i])) <==>
            (forall i :: 0 <= i < |names| ==> SignedValue(p, Lower(names[i])) == SignedValue(w, Lower(names[i])))
  {
    var p := Prepared(v, urlHost, now, bodyDigest);
    var w := Delivered(SignSpec(c, v, urlHost, now, Some(key), bodyDigest, names).view, urlHost);
    forall i | 0 <= i < |names|
      ensures Agrees(p, w, names[i]) <==> SignedValue(p, Lower(names[i])) == SignedValue(w, Lower(names[i]))
    {
      AgreesIff(c, v, urlHost, now, key, bodyDigest, names, names[i]);
    }
  }

  lemma SameValuesComplete(p: View, w: View, names: seq<string>)
    requires Complete(p, names)
    ensures (forall i :: 0 <= i < |names| ==> SignedValue(p, Lower(names[i])) == SignedValue(w, Lower(names[i]))) ==>
              Complete(w, names)
  {
    if forall i :: 0 <= i < |names| ==> SignedValue(p, Lower(names[i])) == SignedValue(w, Lower(names[i])) {
      forall i | 0 <= i < |names| ensures HasValue(w, names[i]) {
        assert HasValue(p, names[i]);
      }
    }
  }

  /** Built the usual way: with a method, a host, no Host header of its own and no old signature. */
  predicate Fresh(v: View, urlHost: string) {
    v.verb != "" && Get(v, "host") == "" && v.host == urlHost != "" && "signature" !in v.headers
  }

  lemma FreshAgrees(c: Crypto, v: View, urlHost: string, now: string, key: PrivateKey, bodyDigest: string,
                    names: seq<string>, i: nat)
    requires Fresh(v, urlHost) && i < |names|
    requires SignSpec(c, v, urlHost, now, Some(key), bodyDigest, names).result.Ok?
    ensures var p := Prepared(v, urlHost, now, bodyDigest);
            var w := Delivered(SignSpec(c, v, urlHost, now, Some(key), bodyDigest, names).view, urlHost);
            Agrees(p, w, names[i]) && SignedValue(p, Lower(names[i])) == SignedValue(w, Lower(names[i]))
  {
    var p := Prepared(v, urlHost, now, bodyDigest);
    assert HasValue(p, names[i]);
    AgreesIff(c, v, urlHost, now, key, bodyDigest, names, names[i]);
  }

  /** A fresh request always verifies. */
  lemma FreshRequestVerifies(c: Crypto, v: View, urlHost: string, now: string, key: PrivateKey, body: seq<Byte>,
                             names: seq<string>, pem: string)
    requires Base64(c) && NonEmptySignatures(c) && c.parse(pem).Some? && Matching(c, key, c.parse(pem).value)
    requires key.keyId != "" && QuoteFree(key.keyId) && names != []
    requires forall f :: f in names ==> PlainName(f) && QuoteFree(f)
    requires SignSpec(c, v, urlHost, now, Some(key), Sha256Digest(c, body), names).result.Ok?
    requires OneLine(Prepared(v, urlHost, now, Sha256Digest(c, body)), names) && Fresh(v, urlHost)
    ensures var signed := SignSpec(c, v, urlHost, now, Some(key), Sha256Digest(c, body), names).view;
            VerifyRequest(c, Delivered(signed, urlHost), pem).Ok?
  {
    var digest := Sha256Digest(c, body);
    var p := Prepared(v, urlHost, now, digest);
    var w := Delivered(SignSpec(c, v, urlHost, now, Some(key), digest, names).view, urlHost);
    forall i | 0 <= i < |names|
      ensures Agrees(p, w, names[i]) && SignedValue(p, Lower(names[i])) == SignedValue(w, Lower(names[i]))
    {
      FreshAgrees(c, v, urlHost, now, key, digest, names, i);
    }
    RoundTrip(c, v, urlHost, now, key, digest, names, pem);
    DigestLower(c, body);
    DeliveredGet(c, v, urlHost, now, key, digest, names, "digest");
  }

  /** Signing and delivery leave every other header alone. */
  lemma DeliveredGet(c: Crypto, v: View, urlHost: string, now: string, key: PrivateKey, bodyDigest: string,
                     names: seq<string>, k: string)
    requires SignSpec(c, v, urlHost, now, Some(key), bodyDigest, names).result.Ok? && k != "signature" && k != "host"
    ensures Get(Delivered(SignSpec(c, v, urlHost, now, Some(key), bodyDigest, names).view, urlHost), k) ==
            Get(Prepared(v, urlHost, now, bodyDigest), k)
  {}

  lemma DigestLower(c: Crypto, body: seq<Byte>)
    ensures "sha-256=" <= Lower(Sha256Digest(c, body)) && Sha256Digest(c, body) != ""
  {
    var d := Sha256Digest(c, body);
    assert d[..8] == "SHA-256=";
    assert Lower(d)[..8] == "sha-256=";
  }
}
