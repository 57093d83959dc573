/**
  Database settings in a restore (`internal/backup/restore.go`): splitting list settings, and the ALTER DATABASE
  statement made of them, read back by the rules of SQL quoting.
  */
module GucList {
  import opened Basics
  import opened Text

  // ----- splitGUCList -----

  /** The loop's variables: whether inside quotes, the element begun, the elements finished. */
  datatype State = State(inQuote: bool, cur: string, out: seq<string>)

  predicate Blank(c: char) {
    c == ' ' || c == '\t'
  }

  /** A quote that stands for itself: doubled, inside quotes. */
  predicate Escape(s: string, inQuote: bool) {
    inQuote && |s| >= 2 && s[0] == '"' && s[1] == '"'
  }

  function Step(s: string, st: State): State
    requires s != ""
  {
    var c := s[0];
    if Escape(s, st.inQuote) then st.(cur := st.cur + ['"'])
    else if c == '"' then st.(inQuote := !st.inQuote)
    else if !st.inQuote && c == ',' then st.(cur := "", out := st.out + [TrimSpace(st.cur)])
    else if !st.inQuote && Blank(c) && st.cur == "" then st
    else st.(cur := st.cur + [c])
  }

  function Split(s: string, st: State): seq<string>
    decreases |s|
  {
    if s == "" then st.out + [TrimSpace(st.cur)]
    else Split(s[if Escape(s, st.inQuote) then 2 else 1..], Step(s, st))
  }

  function Elements(s: string): seq<string> {
    Split(s, State(false, "", []))
  }

  lemma SplitAt(s: string, i: nat, st: State)
    requires i < |s|
    ensures var next := if Escape(s[i..], st.inQuote) then i + 2 else i + 1;
            next <= |s| && Split(s[i..], st) == Split(s[next..], Step(s[i..], st))
    ensures Escape(s[i..], st.inQuote) <==> st.inQuote && s[i] == '"' && i + 1 < |s| && s[i + 1] == '"'
  {
    assert s[i..][1..] == s[i + 1..];
    assert i + 1 < |s| ==> s[i..][2..] == s[i + 2..] && s[i..][1] == s[i + 1];
  }

  method SplitGucList(s: string) returns (out: seq<string>)
    ensures out == Elements(s)
  {
    out := [];
    var cur := "";
    var inQuote := false;
    var i := 0;
    assert s[0..] == s;
    while i < |s|
      invariant 0 <= i <= |s|
      invariant Split(s[i..], State(inQuote, cur, out)) == Elements(s)
    {
      SplitAt(s, i, State(inQuote, cur, out));
      var c := s[i];
      if inQuote && c == '"' && i + 1 < |s| && s[i + 1] == '"' {
        cur := cur + ['"'];
        i := i + 1;
      } else if c == '"' {
        inQuote := !inQuote;
      } else if !inQuote && c == ',' {
        out := out + [TrimSpace(cur)];
        cur := "";
      } else if !inQuote && Blank(c) && cur == "" {
      } else {
        cur := cur + [c];
      }
      i := i + 1;
    }
    out := out + [TrimSpace(cur)];
  }

  // ----- quoting -----

  /** `s` between `q`s, with the `q`s in it doubled. */
  function Doubled(q: char, s: string): string {
    if s == "" then "" else (if s[0] == q then [q, q] else [s[0]]) + Doubled(q, s[1..])
  }

  function Quoted(q: char, s: string): string {
    [q] + (Doubled(q, s) + [q])
  }

  /** An element as a list setting holds it: quoted, or bare when it has neither quotes nor commas. */
  datatype Item = Item(text: string, quoted: bool)

  predicate Printable(x: Item) {
    x.quoted || ('"' !in x.text && ',' !in x.text)
  }

  function Print(x: Item): string {
    if x.quoted then Quoted('"', x.text) else x.text
  }

  /** Elements separated by a comma and blanks. */
  function PrintList(xs: seq<Item>, gap: string): string {
    if xs == [] then ""
    else if |xs| == 1 then Print(xs[0])
    else Print(xs[0]) + ([','] + (gap + PrintList(xs[1..], gap)))
  }

  function Texts(xs: seq<Item>): (r: seq<string>)
    ensures |r| == |xs| && forall i :: 0 <= i < |xs| ==> r[i] == TrimSpace(xs[i].text)
  {
    if xs == [] then [] else [TrimSpace(xs[0].text)] + Texts(xs[1..])
  }

  function Twice(q: char, c: char): string {
    if c == q then [q, q] else [c]
  }

  /** The first character of quoted text, apart. */
  lemma DoubledHead(q: char, text: string, rest: string)
    requires text != ""
    ensures Doubled(q, text) + rest == Twice(q, text[0]) + (Doubled(q, text[1..]) + rest)
  {
    var d := Doubled(q, text[1..]);
    assert Doubled(q, text) == Twice(q, text[0]) + d;
    Associates(Twice(q, text[0]), d, rest);
  }

  /** One character inside quotes, printed. */
  lemma SplitInside(c: char, rest: string, st: State)
    requires st.inQuote
    ensures Split(Twice('"', c) + rest, st) == Split(rest, st.(cur := st.cur + [c]))
  {
    DropPrefix(Twice('"', c), rest);
  }

  /** The closing quote. */
  lemma SplitClose(rest: string, st: State)
    requires st.inQuote && (rest == "" || rest[0] != '"')
    ensures Split(['"'] + rest, st) == Split(rest, st.(inQuote := false))
  {
    DropPrefix(['"'], rest);
  }

  lemma SplitOpen(rest: string, st: State)
    requires !st.inQuote
    ensures Split(['"'] + rest, st) == Split(rest, st.(inQuote := true))
  {
    DropPrefix(['"'], rest);
  }

  lemma SplitComma(rest: string, st: State)
    requires !st.inQuote
    ensures Split([','] + rest, st) == Split(rest, st.(cur := "", out := st.out + [TrimSpace(st.cur)]))
  {
    DropPrefix([','], rest);
  }

  /** One character outside quotes. */
  lemma SplitOutside(c: char, rest: string, st: State)
    requires !st.inQuote && c != '"' && c != ','
    ensures Split([c] + rest, st) == Split(rest, if Blank(c) && st.cur == "" then st else st.(cur := st.cur + [c]))
  {
    DropPrefix([c], rest);
  }

  lemma {:induction false} SplitQuoted(text: string, rest: string, st: State)
    requires st.inQuote && (rest == "" || rest[0] != '"')
    ensures Split(Doubled('"', text) + (['"'] + rest), st) == Split(rest, State(false, st.cur + text, st.out))
    decreases |text|
  {
    var close := ['"'] + rest;
    if text == "" {
      assert Doubled('"', text) + close == close && st.cur + text == st.cur;
      SplitClose(rest, st);
    } else {
      DoubledHead('"', text, close);
      SplitInside(text[0], Doubled('"', text[1..]) + close, st);
      SplitQuoted(text[1..], rest, st.(cur := st.cur + [text[0]]));
      HeadAndTail(text);
      Associates(st.cur, [text[0]], text[1..]);
    }
  }

  function DropBlanks(s: string): string {
    if s != "" && Blank(s[0]) then DropBlanks(s[1..]) else s
  }

  lemma {:induction false} TrimDropBlanks(s: string)
    ensures TrimSpace(DropBlanks(s)) == TrimSpace(s)
  {
    if s != "" && Blank(s[0]) {
      TrimDropBlanks(s[1..]);
    }
  }

  lemma {:induction false} SplitBare(text: string, rest: string, st: State)
    requires !st.inQuote && '"' !in text && ',' !in text
    ensures Split(text + rest, st) == Split(rest, st.(cur := if st.cur == "" then DropBlanks(text) else st.cur + text))
    decreases |text|
  {
    if text == "" {
      assert text + rest == rest && st.cur + text == st.cur;
    } else {
      var c, tail := text[0], text[1..];
      HeadAndTail(text);
      Associates([c], tail, rest);
      SplitOutside(c, tail + rest, st);
      if Blank(c) && st.cur == "" {
        SplitBare(tail, rest, st);
      } else {
        SplitBare(tail, rest, st.(cur := st.cur + [c]));
        Associates(st.cur, [c], tail);
        assert st.cur == "" ==> st.cur + text == text;
      }
    }
  }

  lemma {:induction false} SplitGap(gap: string, rest: string, st: State)
    requires !st.inQuote && st.cur == "" && forall i :: 0 <= i < |gap| ==> Blank(gap[i])
    ensures Split(gap + rest, st) == Split(rest, st)
  {
    if gap == "" {
      assert gap + rest == rest;
    } else {
      assert (gap + rest)[1..] == gap[1..] + rest;
      SplitGap(gap[1..], rest, st);
    }
  }

  /** What an element leaves in `cur`. */
  function Begun(x: Item): string {
    if x.quoted then x.text else DropBlanks(x.text)
  }

  /** One element, up to a comma or the end. */
  lemma SplitItem(x: Item, rest: string, st: State)
    requires Printable(x) && (rest == "" || rest[0] == ',') && !st.inQuote && st.cur == ""
    ensures Split(Print(x) + rest, st) == Split(rest, st.(cur := Begun(x)))
  {
    if x.quoted {
      var close := ['"'] + rest;
      Associates(['"'], Doubled('"', x.text) + ['"'], rest);
      Associates(Doubled('"', x.text), ['"'], rest);
      SplitOpen(Doubled('"', x.text) + close, st);
      SplitQuoted(x.text, rest, st.(inQuote := true));
      assert st.cur + x.text == x.text;
    } else {
      SplitBare(x.text, rest, st);
    }
  }

  lemma BegunTrims(x: Item)
    ensures TrimSpace(Begun(x)) == TrimSpace(x.text)
  {
    TrimDropBlanks(x.text);
  }

  lemma PrintedStep(x: Item, gap: string, rest: string, st: State)
    requires Printable(x) && !st.inQuote && st.cur == "" && forall i :: 0 <= i < |gap| ==> Blank(gap[i])
    ensures Split(Print(x) + ([','] + (gap + rest)), st) == Split(rest, st.(out := st.out + [TrimSpace(x.text)]))
  {
    SplitItem(x, [','] + (gap + rest), st);
    SplitComma(gap + rest, st.(cur := Begun(x)));
    BegunTrims(x);
    SplitGap(gap, rest, st.(out := st.out + [TrimSpace(x.text)]));
  }

  lemma PrintedLast(x: Item, st: State)
    requires Printable(x) && !st.inQuote && st.cur == ""
    ensures Split(Print(x), st) == st.out + [TrimSpace(x.text)]
  {
    SplitItem(x, "", st);
    assert Print(x) + "" == Print(x);
    BegunTrims(x);
  }

  lemma PrintedHead(xs: seq<Item>, gap: string, st: State)
    requires |xs| > 1 && Printable(xs[0]) && !st.inQuote && st.cur == "" && forall i :: 0 <= i < |gap| ==> Blank(gap[i])
    ensures var st' := st.(out := st.out + [TrimSpace(xs[0].text)]);
            Split(PrintList(xs, gap), st) == Split(PrintList(xs[1..], gap), st')
  {
    PrintedStep(xs[0], gap, PrintList(xs[1..], gap), st);
  }

  lemma TextsHead(out: seq<string>, xs: seq<Item>)
    requires xs != []
    ensures out + Texts(xs) == (out + [TrimSpace(xs[0].text)]) + Texts(xs[1..])
  {}

  lemma {:induction false} SplitPrintedOnto(xs: seq<Item>, gap: string, st: State)
    requires xs != [] && (forall i :: 0 <= i < |gap| ==> Blank(gap[i]))
    requires forall i :: 0 <= i < |xs| ==> Printable(xs[i])
    requires !st.inQuote && st.cur == ""
    ensures Split(PrintList(xs, gap), st) == st.out + Texts(xs)
    decreases |xs|
  {
    TextsHead(st.out, xs);
    if |xs| == 1 {
      PrintedLast(xs[0], st);
    } else {
      PrintedHead(xs, gap, st);
      SplitPrintedOnto(xs[1..], gap, st.(out := st.out + [TrimSpace(xs[0].text)]));
    }
  }

  /** Splitting a printed list gives its elements, trimmed. The code trims quoted elements too. */
  lemma SplitPrinted(xs: seq<Item>, gap: string)
    requires xs != [] && (forall i :: 0 <= i < |gap| ==> Blank(gap[i]))
    requires forall i :: 0 <= i < |xs| ==> Printable(xs[i])
    ensures Elements(PrintList(xs, gap)) == Texts(xs)
  {
    SplitPrintedOnto(xs, gap, State(false, "", []));
  }

  function AllQuoted(xs: seq<string>): (r: seq<Item>)
    ensures |r| == |xs|
  {
    seq(|xs|, i requires 0 <= i < |xs| => Item(xs[i], true))
  }

  /** The list comes back exactly when it is not empty and no element has outer white space. */
  lemma RoundTripIff(xs: seq<string>, gap: string)
    requires forall i :: 0 <= i < |gap| ==> Blank(gap[i])
    ensures Elements(PrintList(AllQuoted(xs), gap)) == xs <==> xs != [] && forall i :: 0 <= i < |xs| ==> Trimmed(xs[i])
  {
    if xs != [] {
      SplitPrinted(AllQuoted(xs), gap);
      forall i | 0 <= i < |xs| ensures Texts(AllQuoted(xs))[i] == xs[i] <==> Trimmed(xs[i]) {
        TrimmedIff(xs[i]);
      }
    }
  }

  // ----- ALTER DATABASE ... SET -----

  const LIST_QUOTED_SETTINGS: set<string> := {
    "search_path", "temp_tablespaces", "session_preload_libraries", "local_preload_libraries",
    "shared_preload_libraries", "unix_socket_directories"}

  function Literal(s: string): string {
    Quoted('\'', s)
  }

  /** pgx.Identifier.Sanitize: NUL dropped, quotes doubled. */
  function Ident(s: string): string {
    Quoted('"', WithoutNul(s))
  }

  function WithoutNul(s: string): (r: string)
    ensures '\0' !in r && ('\0' !in s ==> r == s)
  {
    if s == "" then "" else (if s[0] == '\0' then "" else [s[0]]) + WithoutNul(s[1..])
  }

  predicate NameChar(c: char, first: bool) {
    c == '_' || 'a' <= c <= 'z' || 'A' <= c <= 'Z' || (!first && (c == '.' || '0' <= c <= '9'))
  }

  predicate ValidName(name: string) {
    name != "" && forall i :: 0 <= i < |name| ==> NameChar(name[i], i == 0)
  }

  method ValidSettingName(name: string) returns (ok: bool)
    ensures ok == ValidName(name)
  {
    if name == "" {
      return false;
    }
    for i := 0 to |name|
      invariant forall j :: 0 <= j < i ==> NameChar(name[j], j == 0)
    {
      if !NameChar(name[i], i == 0) {
        return false;
      }
    }
    ok := true;
  }

  function Values(name: string, value: string): seq<string> {
    if Lower(name) in LIST_QUOTED_SETTINGS then Elements(value) else [value]
  }

  function Literals(values: seq<string>): (r: seq<string>)
    ensures |r| == |values|
  {
    seq(|values|, i requires 0 <= i < |values| => Literal(values[i]))
  }

  /** `name=value` cut at the first `=`. */
  predicate ValidSetting(setting: string) {
    var n := IndexOf(setting, '=');
    n < |setting| && ValidName(setting[..n]) && '\0' !in setting[n + 1..]
  }

  function Statement(db: string, name: string, values: seq<string>): string {
    "ALTER DATABASE " + (Ident(db) + (" SET " + (name + (" TO " + Join(Literals(values), ", ")))))
  }

  method QuoteAll(values: seq<string>) returns (quoted: seq<string>)
    ensures quoted == Literals(values)
  {
    quoted := [];
    for i := 0 to |values|
      invariant |quoted| == i && forall j :: 0 <= j < i ==> quoted[j] == Literal(values[j])
    {
      quoted := quoted + [Literal(values[i])];
    }
  }

  /** alterDatabaseSetSQL; `None` is the error "invalid database setting". */
  method AlterDatabaseSetSql(db: string, setting: string) returns (sql: Option<string>)
    ensures sql.Some? <==> ValidSetting(setting)
    ensures sql.Some? ==>
              var n := IndexOf(setting, '=');
              sql.value == Statement(db, setting[..n], Values(setting[..n], setting[n + 1..]))
  {
    var n := IndexOf(setting, '=');
    if n == |setting| {
      return None;
    }
    var name, value := setting[..n], setting[n + 1..];
    var ok := ValidSettingName(name);
    if !ok || '\0' in value {
      return None;
    }
    var values := [value];
    if Lower(name) in LIST_QUOTED_SETTINGS {
      values := SplitGucList(value);
    }
    var quoted := QuoteAll(values);
    sql := Some("ALTER DATABASE " + (Ident(db) + (" SET " + (name + (" TO " + Join(quoted, ", "))))));
  }

  // ----- reading SQL back -----

  /** After an opening `q`: the text up to the `q` that closes it, and what follows. */
  function ReadQuoted(q: char, s: string, sofar: string): Option<(string, string)>
    decreases |s|
  {
    if s == "" then None
    else if s[0] != q then ReadQuoted(q, s[1..], sofar + [s[0]])
    else if |s| >= 2 && s[1] == q then ReadQuoted(q, s[2..], sofar + [q])
    else Some((sofar, s[1..]))
  }

  lemma ReadInside(q: char, c: char, rest: string, sofar: string)
    ensures ReadQuoted(q, Twice(q, c) + rest, sofar) == ReadQuoted(q, rest, sofar + [c])
  {
    DropPrefix(Twice(q, c), rest);
  }

  lemma {:induction false} ReadDoubled(q: char, text: string, rest: string, sofar: string)
    requires rest == "" || rest[0] != q
    ensures ReadQuoted(q, Doubled(q, text) + ([q] + rest), sofar) == Some((sofar + text, rest))
    decreases |text|
  {
    var close := [q] + rest;
    if text == "" {
      assert Doubled(q, text) + close == close && close[1..] == rest && sofar + text == sofar;
    } else {
      DoubledHead(q, text, close);
      ReadInside(q, text[0], Doubled(q, text[1..]) + close, sofar);
      ReadDoubled(q, text[1..], rest, sofar + [text[0]]);
      HeadAndTail(text);
      Associates(sofar, [text[0]], text[1..]);
    }
  }

  /** Standard string literals separated by a comma and a blank, to the end of the statement. */
  function ReadLiterals(s: string): Option<seq<string>>
    decreases |s|
  {
    if s == "" || s[0] != '\'' then None
    else
      var r := ReadQuoted('\'', s[1..], "");
      if r.None? then None
      else if r.value.1 == "" then Some([r.value.0])
      else if |r.value.1| >= |s| || !(", " <= r.value.1) then None
      else
        var more := ReadLiterals(r.value.1[2..]);
        if more.None? then None else Some([r.value.0] + more.value)
  }

  /** A quoted text at the front is read back whole. */
  lemma ReadBack(q: char, text: string, rest: string)
    requires rest == "" || rest[0] != q
    ensures var s := Quoted(q, text) + rest; s != "" && s[0] == q && ReadQuoted(q, s[1..], "") == Some((text, rest))
  {
    var s := Quoted(q, text) + rest;
    Associates([q], Doubled(q, text) + [q], rest);
    Associates(Doubled(q, text), [q], rest);
    DropPrefix([q], Doubled(q, text) + ([q] + rest));
    ReadDoubled(q, text, rest, "");
    assert "" + text == text;
  }

  function LiteralList(values: seq<string>): string {
    if values == [] then ""
    else if |values| == 1 then Literal(values[0])
    else Literal(values[0]) + (", " + LiteralList(values[1..]))
  }

  lemma {:induction false} LiteralListIsJoin(values: seq<string>)
    ensures Join(Literals(values), ", ") == LiteralList(values)
  {
    if |values| > 1 {
      LiteralListIsJoin(values[1..]);
      assert Literals(values)[1..] == Literals(values[1..]);
    } else if |values| == 1 {
      assert Literals(values)[0] == Literal(values[0]);
    }
  }

  lemma ReadLast(text: string)
    ensures ReadLiterals(Literal(text)) == Some([text])
  {
    ReadBack('\'', text, "");
    assert Literal(text) + "" == Literal(text);
  }

  lemma ReadNext(text: string, rest: string)
    ensures var s := Literal(text) + (", " + rest);
            ReadLiterals(s) == var more := ReadLiterals(rest); if more.None? then None else Some([text] + more.value)
  {
    var tail := ", " + rest;
    ReadBack('\'', text, tail);
    DropPrefix(", ", rest);
    var s := Literal(text) + tail;
    assert |tail| < |s|;
  }

  lemma {:induction false} ReadLiteralList(values: seq<string>)
    requires values != []
    ensures ReadLiterals(LiteralList(values)) == Some(values)
    decreases |values|
  {
    if |values| == 1 {
      ReadLast(values[0]);
      assert values == [values[0]];
    } else {
      ReadLiteralList(values[1..]);
      ReadNext(values[0], LiteralList(values[1..]));
      HeadAndTail(values);
    }
  }

  datatype Alter = Alter(db: string, name: string, values: seq<string>)

  function AfterPrefix(prefix: string, s: string): Option<string> {
    if prefix <= s then Some(s[|prefix|..]) else None
  }

  /** Reads `ALTER DATABASE "db" SET name TO 'a', 'b'`. */
  function ReadStatement(s: string): Option<Alter> {
    var a := AfterPrefix("ALTER DATABASE \"", s);
    if a.None? then None
    else
      var db := ReadQuoted('"', a.value, "");
      if db.None? then None else ReadSet(db.value.0, db.value.1)
  }

  function ReadSet(db: string, s: string): Option<Alter> {
    var b := AfterPrefix(" SET ", s);
    if b.None? then None
    else
      var n := IndexOf(b.value, ' ');
      var d := AfterPrefix(" TO ", b.value[n..]);
      var values := if d.None? then None else ReadLiterals(d.value);
      if values.None? then None else Some(Alter(db, b.value[..n], values.value))
  }

  lemma AfterOwnPrefix(prefix: string, s: string)
    ensures AfterPrefix(prefix, prefix + s) == Some(s)
  {
    DropPrefix(prefix, s);
  }

  lemma {:induction false} IndexOfBlank(name: string, rest: string)
    requires ' ' !in name && rest != "" && rest[0] == ' '
    ensures IndexOf(name + rest, ' ') == |name|
  {
    if name == "" {
      assert name + rest == rest;
    } else {
      HeadAndTail(name);
      Associates([name[0]], name[1..], rest);
      assert (name + rest)[1..] == name[1..] + rest;
      assert name[0] in name && forall c :: c in name[1..] ==> c in name;
      IndexOfBlank(name[1..], rest);
    }
  }

  lemma ReadSetBack(db: string, name: string, values: seq<string>)
    requires ' ' !in name && values != []
    ensures ReadSet(db, " SET " + (name + (" TO " + LiteralList(values)))) == Some(Alter(db, name, values))
  {
    var list := LiteralList(values);
    var tail := " TO " + list;
    AfterOwnPrefix(" SET ", name + tail);
    IndexOfBlank(name, tail);
    DropPrefix(name, tail);
    assert (name + tail)[..|name|] == name;
    AfterOwnPrefix(" TO ", list);
    ReadLiteralList(values);
  }

  lemma ValidNameHasNoBlank(name: string)
    requires ValidName(name)
    ensures ' ' !in name
  {
    forall i | 0 <= i < |name| ensures name[i] != ' ' {
      assert NameChar(name[i], i == 0);
    }
  }

  /** The statement says what it was made of, whatever the strings hold. */
  lemma StatementReadsBack(db: string, name: string, values: seq<string>)
    requires ValidName(name) && values != []
    ensures ReadStatement(Statement(db, name, values)) == Some(Alter(WithoutNul(db), name, values))
  {
    ValidNameHasNoBlank(name);
    LiteralListIsJoin(values);
    var set_ := " SET " + (name + (" TO " + LiteralList(values)));
    ReadSetBack(WithoutNul(db), name, values);
    ReadBack('"', WithoutNul(db), set_);
    var body := Doubled('"', WithoutNul(db)) + (['"'] + set_);
    Associates(['"'], Doubled('"', WithoutNul(db)) + ['"'], set_);
    Associates(Doubled('"', WithoutNul(db)), ['"'], set_);
    assert "ALTER DATABASE " + (['"'] + body) == "ALTER DATABASE \"" + body;
    AfterOwnPrefix("ALTER DATABASE \"", body);
    DropPrefix(['"'], body);
  }

  lemma {:induction false} SplitNotEmpty(s: string, st: State)
    ensures Split(s, st) != []
    decreases |s|
  {
    if s == "" {
    } else {
      SplitNotEmpty(s[if Escape(s, st.inQuote) then 2 else 1..], Step(s, st));
    }
  }

  /** Every valid setting becomes a statement that sets the same name to its elements. */
  lemma SettingReadsBack(db: string, setting: string)
    requires ValidSetting(setting)
    ensures var n := IndexOf(setting, '='); var values := Values(setting[..n], setting[n + 1..]);
            ReadStatement(Statement(db, setting[..n], values)) == Some(Alter(WithoutNul(db), setting[..n], values))
  {
    var n := IndexOf(setting, '=');
    SplitNotEmpty(setting[n + 1..], State(false, "", []));
    StatementReadsBack(db, setting[..n], Values(setting[..n], setting[n + 1..]));
  }

  /**
    For a list setting printed element by element the statement has exactly the elements, if
    none has outer white space.
    */
  lemma ListSettingReadsBackIff(db: string, name: string, xs: seq<string>, gap: string)
    requires ValidName(name) && xs != []
    requires Lower(name) in {"search_path", "temp_tablespaces", "session_preload_libraries", "local_preload_libraries",
                             "shared_preload_libraries", "unix_socket_directories"}
    requires forall i :: 0 <= i < |gap| ==> Blank(gap[i])
    ensures ReadStatement(Statement(db, name, Values(name, PrintList(AllQuoted(xs), gap)))) ==
              Some(Alter(WithoutNul(db), name, xs))
            <==> forall i :: 0 <= i < |xs| ==> Trimmed(xs[i])
  {
    var value := PrintList(AllQuoted(xs), gap);
    SplitNotEmpty(value, State(false, "", []));
    StatementReadsBack(db, name, Values(name, value));
    RoundTripIff(xs, gap);
  }

  /** Every other setting is set to the one value it was given. */
  lemma PlainSettingReadsBack(db: string, name: string, value: string)
    requires ValidName(name)
    requires Lower(name) !in {"search_path", "temp_tablespaces", "session_preload_libraries", "local_preload_libraries",
                              "shared_preload_libraries", "unix_socket_directories"}
    ensures ReadStatement(Statement(db, name, Values(name, value))) == Some(Alter(WithoutNul(db), name, [value]))
  {
    NotListed(name, value);
    StatementReadsBack(db, name, [value]);
  }

  lemma NotListed(name: string, value: string)
    requires Lower(name) !in {"search_path", "temp_tablespaces", "session_preload_libraries", "local_preload_libraries",
                              "shared_preload_libraries", "unix_socket_directories"}
    ensures Values(name, value) == [value]
  {}
}
