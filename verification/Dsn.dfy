/**
  The keyword/value connection string (`internal/config/db_tls.go`), read back by the rules of "Keyword/Value Connection
  Strings" in the PostgreSQL libpq documentation.
  */
module Dsn {
  import opened Basics
  import opened Text
  import Layout

  /** A keyword and its value. */
  datatype Setting = Setting(key: string, value: string)

  datatype DbTls = DbTls(sslMode: string, sslRootCert: string)

  const VALID_SSL_MODES: set<string> := {"disable", "allow", "prefer", "require", "verify-ca", "verify-full"}

  /** isspace in the C locale. */
  predicate Space(c: char) {
    c == ' ' || '\t' <= c <= '\r'
  }

  predicate Special(c: char) {
    Space(c) || c == '\'' || c == '\\'
  }

  /** A value that stands without quotes. */
  predicate Plain(s: string) {
    s != "" && forall i :: 0 <= i < |s| ==> !Special(s[i])
  }

  // ----- writing -----

  function Escaped(s: string): string {
    if s == "" then "" else EscapedChar(s[0]) + Escaped(s[1..])
  }

  function EscapedChar(c: char): string {
    if c == '\\' || c == '\'' then ['\\', c] else [c]
  }

  function DsnQuote(s: string): string {
    if Plain(s) then s else ['\''] + (Escaped(s) + ['\''])
  }

  predicate IsUnixSocketPath(host: string) {
    host != "" && host[0] == '/'
  }

  /** strconv.Itoa. */
  function Itoa(n: int): (s: string)
    ensures Plain(s)
  {
    var digits := Layout.Pad(if n < 0 then -n else n, 1);
    assert forall i :: 0 <= i < |digits| ==> digits[i] in digits;
    if n < 0 then ['-'] + digits else digits
  }

  /** A port is printed in decimal without leading zeros. */
  lemma ItoaIs(n: nat)
    ensures Layout.DecimalValue(Itoa(n)) == n
    ensures n > 0 ==> Itoa(n)[0] != '0'
  {
    Layout.PadValue(n, 1);
    if n > 0 {
      LeadingDigit(n, 1);
    }
  }

  lemma {:induction false} LeadingDigit(n: nat, width: nat)
    requires width <= 1 && n > 0
    ensures Layout.Pad(n, width)[0] != '0'
    decreases n
  {
    if n >= 10 {
      LeadingDigit(n / 10, 0);
    }
  }

  /** `key=text` as it stands in the string. */
  datatype Part = Part(key: string, text: string)

  function Rendered(parts: seq<Part>): (r: seq<string>)
    ensures |r| == |parts|
  {
    if parts == [] then [] else [parts[0].key + (['='] + parts[0].text)] + Rendered(parts[1..])
  }

  function Parts(host: string, port: int, user: string, pass: string, dbname: string, tls: DbTls): seq<Part> {
    var t := if IsUnixSocketPath(host) then DbTls("disable", "") else tls;
    var parts := [Part("host", DsnQuote(host)), Part("port", Itoa(port)), Part("user", DsnQuote(user)),
                  Part("password", DsnQuote(pass)), Part("dbname", DsnQuote(dbname)), Part("sslmode", t.sslMode)];
    if t.sslRootCert != "" then parts + [Part("sslrootcert", DsnQuote(t.sslRootCert))] else parts
  }

  function BuildKeywordDsn(host: string, port: int, user: string, pass: string, dbname: string, tls: DbTls): string {
    Join(Rendered(Parts(host, port, user, pass, dbname, tls)), " ")
  }

  // ----- reading -----

  function SkipSpaces(s: string): (r: string)
    ensures |r| <= |s|
  {
    if s != "" && Space(s[0]) then SkipSpaces(s[1..]) else s
  }

  /** The length of the keyword at the start: up to `=` or white space. */
  function KeyRun(s: string): (n: nat)
    ensures n <= |s|
  {
    if s == "" || s[0] == '=' || Space(s[0]) then 0 else 1 + KeyRun(s[1..])
  }

  /** An unquoted value ends at white space; a backslash takes the next character as it is. */
  function ReadBare(s: string, sofar: string): (r: (string, string))
    ensures |r.1| <= |s|
    decreases |s|
  {
    if s == "" || Space(s[0]) then (sofar, s)
    else if s[0] == '\\' then if |s| == 1 then (sofar, "") else ReadBare(s[2..], sofar + [s[1]])
    else ReadBare(s[1..], sofar + [s[0]])
  }

  /** After an opening quote: to the closing one, backslashes as above. */
  function ReadQuoted(s: string, sofar: string): (r: Option<(string, string)>)
    ensures r.Some? ==> |r.value.1| <= |s|
    decreases |s|
  {
    if s == "" then None
    else if s[0] == '\'' then Some((sofar, s[1..]))
    else if s[0] == '\\' then if |s| == 1 then None else ReadQuoted(s[2..], sofar + [s[1]])
    else ReadQuoted(s[1..], sofar + [s[0]])
  }

  function ReadValue(s: string): (r: Option<(string, string)>)
    ensures r.Some? ==> |r.value.1| <= |s|
  {
    var v := SkipSpaces(s);
    if v != "" && v[0] == '\'' then ReadQuoted(v[1..], "") else Some(ReadBare(v, ""))
  }

  /** One `keyword = value` at the start, and what follows. */
  function ReadSetting(s: string): (r: Option<(Setting, string)>)
    ensures r.Some? ==> |r.value.1| < |s|
  {
    var k := KeyRun(s);
    var rest := SkipSpaces(s[k..]);
    if k == 0 || rest == "" || rest[0] != '=' then None
    else
      var v := ReadValue(rest[1..]);
      if v.None? then None else Some((Setting(s[..k], v.value.0), v.value.1))
  }

  function Parse(s: string): Option<seq<Setting>>
    decreases |s|
  {
    var start := SkipSpaces(s);
    if start == "" then Some([])
    else
      var one := ReadSetting(start);
      if one.None? then None
      else
        var more := Parse(one.value.1);
        if more.None? then None else Some([one.value.0] + more.value)
  }

  // ----- round trip -----

  lemma ReadEscapedChar(c: char, rest: string, sofar: string)
    ensures ReadQuoted(EscapedChar(c) + rest, sofar) == ReadQuoted(rest, sofar + [c])
  {
    DropPrefix(EscapedChar(c), rest);
  }

  lemma {:induction false} ReadEscaped(s: string, rest: string, sofar: string)
    ensures ReadQuoted(Escaped(s) + (['\''] + rest), sofar) == Some((sofar + s, rest))
  {
    var close := ['\''] + rest;
    if s == "" {
      assert Escaped(s) + close == close && close[1..] == rest && sofar + s == sofar;
    } else {
      Associates(EscapedChar(s[0]), Escaped(s[1..]), close);
      ReadEscapedChar(s[0], Escaped(s[1..]) + close, sofar);
      ReadEscaped(s[1..], rest, sofar + [s[0]]);
      HeadAndTail(s);
      Associates(sofar, [s[0]], s[1..]);
    }
  }

  lemma ReadBareChar(c: char, rest: string, sofar: string)
    requires !Special(c)
    ensures ReadBare([c] + rest, sofar) == ReadBare(rest, sofar + [c])
  {
    DropPrefix([c], rest);
  }

  lemma {:induction false} ReadPlain(s: string, rest: string, sofar: string)
    requires (forall i :: 0 <= i < |s| ==> !Special(s[i])) && (rest == "" || Space(rest[0]))
    ensures ReadBare(s + rest, sofar) == (sofar + s, rest)
  {
    if s == "" {
      assert s + rest == rest && sofar + s == sofar;
    } else {
      HeadAndTail(s);
      Associates([s[0]], s[1..], rest);
      ReadBareChar(s[0], s[1..] + rest, sofar);
      ReadPlain(s[1..], rest, sofar + [s[0]]);
      Associates(sofar, [s[0]], s[1..]);
    }
  }

  /** A quoted value is read back whole. */
  lemma ReadBack(s: string, rest: string)
    requires rest == "" || Space(rest[0])
    ensures ReadValue(DsnQuote(s) + rest) == Some((s, rest))
  {
    if Plain(s) {
      ReadPlain(s, rest, "");
      assert (s + rest)[0] == s[0] && "" + s == s;
    } else {
      var body := Escaped(s) + (['\''] + rest);
      Associates(['\''], Escaped(s) + ['\''], rest);
      Associates(Escaped(s), ['\''], rest);
      DropPrefix(['\''], body);
      ReadEscaped(s, rest, "");
      assert "" + s == s;
    }
  }

  predicate Key(k: string) {
    k != "" && forall i :: 0 <= i < |k| ==> k[i] != '=' && !Space(k[i])
  }

  lemma {:induction false} KeyRunOf(k: string, rest: string)
    requires (k == "" || Key(k)) && rest != "" && rest[0] == '='
    ensures KeyRun(k + rest) == |k|
  {
    if k == "" {
      assert k + rest == rest;
    } else {
      HeadAndTail(k);
      Associates([k[0]], k[1..], rest);
      DropPrefix([k[0]], k[1..] + rest);
      KeyRunOf(k[1..], rest);
    }
  }

  function Quoted(x: Setting): Part {
    Part(x.key, DsnQuote(x.value))
  }

  function Written(x: Setting): string {
    x.key + (['='] + DsnQuote(x.value))
  }

  lemma ReadWritten(x: Setting, rest: string)
    requires Key(x.key) && (rest == "" || Space(rest[0]))
    ensures ReadSetting(Written(x) + rest) == Some((x, rest)) && Written(x) + rest != ""
    ensures !Space((Written(x) + rest)[0])
  {
    var value := DsnQuote(x.value) + rest;
    Associates(x.key, ['='] + DsnQuote(x.value), rest);
    Associates(['='], DsnQuote(x.value), rest);
    var tail := ['='] + value;
    assert Written(x) + rest == x.key + tail;
    KeyRunOf(x.key, tail);
    DropPrefix(x.key, tail);
    DropPrefix(['='], value);
    ReadBack(x.value, rest);
    assert (x.key + tail)[0] == x.key[0];
  }

  lemma ParseWritten(x: Setting, rest: string)
    requires Key(x.key) && (rest == "" || Space(rest[0]))
    ensures Parse(Written(x) + rest) == var more := Parse(rest); if more.None? then None else Some([x] + more.value)
  {
    ReadWritten(x, rest);
  }

  lemma ParseBlank(s: string)
    ensures Parse(" " + s) == Parse(s)
  {
    DropPrefix(" ", s);
  }

  lemma ParseLast(x: Setting)
    requires Key(x.key)
    ensures Parse(Written(x)) == Some([x])
  {
    ParseWritten(x, "");
    assert Written(x) + "" == Written(x);
    assert Parse("") == Some([]) && [x] + [] == [x];
  }

  lemma ParseNext(x: Setting, rest: string)
    requires Key(x.key)
    ensures var more := Parse(rest);
            Parse(Written(x) + (" " + rest)) == if more.None? then None else Some([x] + more.value)
  {
    ParseWritten(x, " " + rest);
    ParseBlank(rest);
  }

  /** A list of settings, each quoted, is read back whole. */
  lemma {:induction false} ParseAll(xs: seq<Setting>, parts: seq<Part>)
    requires |parts| == |xs| && forall i :: 0 <= i < |xs| ==> Key(xs[i].key) && parts[i] == Quoted(xs[i])
    ensures Parse(Join(Rendered(parts), " ")) == Some(xs)
    decreases |xs|
  {
    if |xs| == 1 {
      ParseLast(xs[0]);
      assert xs == [xs[0]];
    } else if |xs| > 1 {
      ParseAll(xs[1..], parts[1..]);
      ParseNext(xs[0], Join(Rendered(parts[1..]), " "));
      assert Rendered(parts)[1..] == Rendered(parts[1..]);
      assert xs == [xs[0]] + xs[1..];
    }
  }

  /**
    The settings a connection string is built to carry: plaintext for sockets, and a root
    certificate only when given.
    */
  function Settings(host: string, port: int, user: string, pass: string, dbname: string, tls: DbTls): seq<Setting> {
    var common := [Setting("host", host), Setting("port", Itoa(port)), Setting("user", user), Setting("password", pass),
                   Setting("dbname", dbname)];
    if "/" <= host then common + [Setting("sslmode", "disable")]
    else if tls.sslRootCert == "" then common + [Setting("sslmode", tls.sslMode)]
    else common + [Setting("sslmode", tls.sslMode), Setting("sslrootcert", tls.sslRootCert)]
  }

  lemma ModesArePlain(mode: string)
    requires mode in VALID_SSL_MODES
    ensures Plain(mode)
  {}

  lemma PartsAreQuoted(host: string, port: int, user: string, pass: string, dbname: string, tls: DbTls)
    requires Plain(tls.sslMode)
    ensures var xs, parts := Settings(host, port, user, pass, dbname, tls), Parts(host, port, user, pass, dbname, tls);
            |parts| == |xs| && forall i :: 0 <= i < |xs| ==> parts[i] == Quoted(xs[i])
  {
    assert Plain("disable");
    assert Plain(Itoa(port));
  }

  lemma KeysAreKeys(xs: seq<Setting>)
    requires forall i :: 0 <= i < |xs| ==>
              xs[i].key in {"host", "port", "user", "password", "dbname", "sslmode", "sslrootcert"}
    ensures forall i :: 0 <= i < |xs| ==> Key(xs[i].key)
  {}

  lemma SettingKeys(host: string, port: int, user: string, pass: string, dbname: string, tls: DbTls)
    ensures var xs := Settings(host, port, user, pass, dbname, tls); forall i :: 0 <= i < |xs| ==> Key(xs[i].key)
  {
    KeysAreKeys(Settings(host, port, user, pass, dbname, tls));
  }

  /** The reader gets exactly the values the string was built from, and for a socket never anything but plaintext. */
  lemma DsnRoundTrip(host: string, port: int, user: string, pass: string, dbname: string, tls: DbTls)
    requires tls.sslMode in VALID_SSL_MODES
    ensures var dsn := BuildKeywordDsn(host, port, user, pass, dbname, tls);
            Parse(dsn) == Some(Settings(host, port, user, pass, dbname, tls))
  {
    ModesArePlain(tls.sslMode);
    PartsAreQuoted(host, port, user, pass, dbname, tls);
    SettingKeys(host, port, user, pass, dbname, tls);
    ParseAll(Settings(host, port, user, pass, dbname, tls), Parts(host, port, user, pass, dbname, tls));
  }
}
