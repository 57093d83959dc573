/**
  JSON-LD normalisation (`internal/activitypub/jsonld.go`).

  Go visits the keys of a map in a different order every time. A `Choice` fixes
  one order for every object of a document, so `Run(v, choice)` is one possible
  execution of normalizeValue.
  */
module JsonLd {
  import opened Basics

  /** A decoded JSON value. encoding/json decodes `-0` to a negative zero and prints it back as `-0`. */
  datatype Json =
    | Null
    | Bool(b: bool)
    | Number(n: real)
    | NegativeZero
    | String(s: string)
    | Array(items: seq<Json>)
    | Object(fields: map<string, Json>)

  /** reflect.DeepEqual: structural, with floats compared by `==`, for which -0 equals 0. */
  predicate DeepEqual(a: Json, b: Json) {
    match a
    case Number(n) => b == a || (b.NegativeZero? && n == 0.0)
    case NegativeZero => b == a || b == Number(0.0)
    case Array(xs) => b.Array? && |xs| == |b.items| && forall i :: 0 <= i < |xs| ==> DeepEqual(xs[i], b.items[i])
    case Object(m) => b.Object? && m.Keys == b.fields.Keys && forall k :: k in m ==> DeepEqual(m[k], b.fields[k])
    case _ => a == b
  }

  /** The value with every zero made positive. */
  function Unsigned(v: Json): Json {
    match v
    case NegativeZero => Number(0.0)
    case Array(xs) => Array(seq(|xs|, i requires 0 <= i < |xs| => Unsigned(xs[i])))
    case Object(m) => Object(map k | k in m :: Unsigned(m[k]))
    case _ => v
  }

  lemma {:induction false} DeepEqualIs(a: Json, b: Json)
    ensures DeepEqual(a, b) <==> Unsigned(a) == Unsigned(b)
    decreases a
  {
    match a
    case Array(xs) =>
      if b.Array? && |xs| == |b.items| {
        forall i | 0 <= i < |xs|
          ensures DeepEqual(xs[i], b.items[i]) <==> Unsigned(a).items[i] == Unsigned(b).items[i]
        {
          DeepEqualIs(xs[i], b.items[i]);
        }
      } else if b.Array? {
        assert |Unsigned(a).items| != |Unsigned(b).items|;
      }
    case Object(m) =>
      if b.Object? {
        assert Unsigned(a).fields.Keys == m.Keys && Unsigned(b).fields.Keys == b.fields.Keys;
        forall k | k in m && k in b.fields
          ensures DeepEqual(m[k], b.fields[k]) <==> Unsigned(a).fields[k] == Unsigned(b).fields[k]
        {
          DeepEqualIs(m[k], b.fields[k]);
        }
      }
    case _ =>
  }

  // ----- keys -----

  const AS_PREFIX := "https://www.w3.org/ns/activitystreams#"
  const SEC_PREFIX := "https://w3id.org/security#"

  /** The short names of canonicalTerms. */
  const SHORT_TERMS: set<string> := {
    "type", "actor", "object", "target", "to", "cc", "bcc", "id", "name", "summary", "content", "inReplyTo",
    "published", "updated", "sensitive", "attributedTo", "inbox", "outbox", "followers", "following", "endpoints",
    "sharedInbox", "preferredUsername", "publicKey", "publicKeyPem", "owner", "href", "url", "icon", "image", "tag",
    "attachment", "manuallyApprovesFollowers", "discoverable"}

  /** The terms canonicalTerms also lists with the prefix "as:". */
  const AS_TERMS: set<string> := SHORT_TERMS - {
    "id", "publicKey", "publicKeyPem", "owner", "href", "manuallyApprovesFollowers", "discoverable"}

  const SEC_TERMS: set<string> := {"publicKey", "publicKeyPem", "owner"}

  /** A lookup in canonicalTerms. */
  function CanonicalTerm(k: string): Option<string> {
    if k in SHORT_TERMS then Some(k)
    else if "as:" <= k && k[3..] in AS_TERMS then Some(k[3..])
    else if "sec:" <= k && k[4..] in SEC_TERMS then Some(k[4..])
    else None
  }

  function CanonicalKey(k: string): Option<string> {
    if CanonicalTerm(k).Some? then CanonicalTerm(k)
    else if AS_PREFIX < k then
      var local := k[|AS_PREFIX|..];
      if CanonicalTerm(local).Some? then CanonicalTerm(local) else Some(local)
    else if SEC_PREFIX < k then
      var local := k[|SEC_PREFIX|..];
      if CanonicalTerm("sec:" + local).Some? then CanonicalTerm("sec:" + local) else Some(local)
    else None
  }

  predicate Contains(s: string, sub: string) {
    exists i :: 0 <= i <= |s| && sub <= s[i..]
  }

  /** What happens to one field: dropped, copied as it is, or normalised and stored under a name. */
  datatype Slot = Drop | Raw(name: string) | Keep(name: string)

  function SlotOf(k: string, child: Json): Slot {
    if CanonicalKey(k).Some? then Keep(CanonicalKey(k).value)
    else if k == "@id" then Keep("id")
    else if k == "@type" then Keep("type")
    else if k == "@context" then
      if child.String? && Contains(child.s, "/chat/rooms/") then Raw("@context") else Drop
    else if k == "@value" || k == "@language" || k == "@graph" || k == "@list" then Drop
    else Keep(k)
  }

  function FlattenType(v: Json): string {
    match v
    case String(s) => s
    case Array(xs) => if |xs| > 0 && xs[0].String? then xs[0].s else ""
    case _ => ""
  }

  /** What is stored for a normalised child. */
  function Written(name: string, n: Json): Json {
    if name == "type" && FlattenType(n) != "" then String(FlattenType(n)) else n
  }

  lemma WrittenRespects(name: string, a: Json, b: Json)
    requires DeepEqual(a, b)
    ensures DeepEqual(Written(name, a), Written(name, b)) && FlattenType(a) == FlattenType(b)
    ensures name == "type" && FlattenType(a) != "" ==> Written(name, a) == Written(name, b)
  {
    if a.Array? && |a.items| > 0 {
      assert DeepEqual(a.items[0], b.items[0]);
    }
  }

  // ----- one execution -----

  datatype Choice = Choice(order: seq<string>, kids: map<string, Choice>, elems: seq<Choice>)

  ghost predicate Permutes(order: seq<string>, keys: set<string>) {
    && (forall i, j :: 0 <= i < j < |order| ==> order[i] != order[j])
    && (forall k :: k in order <==> k in keys)
  }

  /** The choice has an order for every object of the document. */
  ghost predicate Valid(v: Json, ch: Choice) {
    match v
    case Array(xs) => |ch.elems| == |xs| && forall i :: 0 <= i < |xs| ==> Valid(xs[i], ch.elems[i])
    case Object(m) =>
      Permutes(ch.order, m.Keys) && ch.kids.Keys == m.Keys && forall k :: k in m ==> Valid(m[k], ch.kids[k])
    case _ => true
  }

  function SetCanonical(out: map<string, Json>, name: string, val: Json): Option<map<string, Json>> {
    if name in out && !DeepEqual(out[name], val) then None else Some(out[name := val])
  }

  predicate IsValueObject(v: Json) { v.Object? && "@value" in v.fields }
  predicate IsReference(v: Json) { v.Object? && "@id" in v.fields && |v.fields| == 1 && v.fields["@id"].String? }
  /** An object whose fields are visited one by one. */
  predicate IsNode(v: Json) { v.Object? && !IsValueObject(v) && !IsReference(v) }

  // ----- the loop over the fields of one object -----

  /** What a field that is not dropped writes: a name and, unless its child conflicts, a value. */
  datatype Entry = Entry(name: string, value: Option<Json>)

  type Entries = map<string, Entry>

  /** The loop, after the visits in `order`; keys without an entry are dropped. */
  function Visit(es: Entries, order: seq<string>): Option<map<string, Json>> {
    if order == [] then Some(map[])
    else
      var k := order[|order| - 1];
      var out := Visit(es, order[..|order| - 1]);
      if out.None? || k !in es then out
      else if es[k].value.None? then None
      else SetCanonical(out.value, es[k].name, es[k].value.value)
  }

  /** The entries under `keys` have values, and those that share a name agree. */
  ghost predicate Agree(es: Entries, keys: set<string>) {
    && (forall k :: k in keys && k in es ==> es[k].value.Some?)
    && (forall j, k :: j in keys && k in keys && j in es && k in es && es[j].name == es[k].name ==>
          Unsigned(es[j].value.value) == Unsigned(es[k].value.value))
  }

  function Names(es: Entries): set<string> {
    set k | k in es :: es[k].name
  }

  ghost function Elements(order: seq<string>): set<string> {
    set k | k in order
  }

  /** Every visited entry has a value and agrees with what was written under its name. */
  ghost predicate Matches(es: Entries, order: seq<string>, out: map<string, Json>) {
    forall k :: k in order && k in es ==>
      es[k].value.Some? && es[k].name in out && Unsigned(out[es[k].name]) == Unsigned(es[k].value.value)
  }

  /** Everything that was written comes from a visited entry. */
  ghost predicate Sourced(es: Entries, order: seq<string>, out: map<string, Json>) {
    forall c :: c in out ==> exists k :: k in order && k in es && es[k].name == c && Some(out[c]) == es[k].value
  }

  lemma {:induction false} VisitMatches(es: Entries, order: seq<string>)
    requires Visit(es, order).Some?
    ensures Matches(es, order, Visit(es, order).value)
  {
    if order == [] {
    } else {
      var front, k := order[..|order| - 1], order[|order| - 1];
      VisitMatches(es, front);
      assert order == front + [k];
      var out := Visit(es, front).value;
      if k in es && es[k].name in out {
        DeepEqualIs(out[es[k].name], es[k].value.value);
      }
    }
  }

  lemma {:induction false} VisitSourced(es: Entries, order: seq<string>)
    requires Visit(es, order).Some?
    ensures Sourced(es, order, Visit(es, order).value)
  {
    if order == [] {
    } else {
      var front, k := order[..|order| - 1], order[|order| - 1];
      VisitSourced(es, front);
      assert order == front + [k];
      var was, out := Visit(es, front).value, Visit(es, order).value;
      forall c | c in out ensures exists j :: j in order && j in es && es[j].name == c && Some(out[c]) == es[j].value {
        if k in es && es[k].name == c {
          assert k in order;
        } else {
          var j :| j in front && j in es && es[j].name == c && Some(was[c]) == es[j].value;
          assert j in order;
        }
      }
    }
  }

  lemma {:induction false} AgreeVisits(es: Entries, order: seq<string>)
    requires Agree(es, Elements(order))
    ensures Visit(es, order).Some?
  {
    if order == [] {
    } else {
      var front, k := order[..|order| - 1], order[|order| - 1];
      assert order == front + [k];
      assert Agree(es, Elements(front));
      AgreeVisits(es, front);
      VisitSourced(es, front);
      var out := Visit(es, front).value;
      if k in es && es[k].name in out {
        var j :| j in front && j in es && es[j].name == es[k].name && Some(out[es[k].name]) == es[j].value;
        assert j in Elements(order) && k in Elements(order);
        DeepEqualIs(out[es[k].name], es[k].value.value);
      }
    }
  }

  /** The loop is still running exactly when the visited fields agree, whatever order they were visited in. */
  lemma VisitIsAgree(es: Entries, order: seq<string>)
    ensures Visit(es, order).Some? <==> Agree(es, Elements(order))
  {
    if Visit(es, order).Some? {
      VisitMatches(es, order);
    } else if Agree(es, Elements(order)) {
      AgreeVisits(es, order);
    }
  }

  /** The order-free result of the loop: a name that several fields write is taken from any of them. */
  ghost function Combine(es: Entries): Option<map<string, Json>> {
    if Agree(es, es.Keys) then
      Some(map c | c in Names(es) :: var k :| k in es && es[k].name == c; es[k].value.value)
    else None
  }

  /** Two sets of entries that differ at most in the sign of zeros. */
  ghost predicate Alike(es: Entries, fs: Entries) {
    && es.Keys == fs.Keys
    && forall k :: k in es ==>
         && es[k].name == fs[k].name && (es[k].value.Some? <==> fs[k].value.Some?)
         && (es[k].value.Some? ==> Unsigned(es[k].value.value) == Unsigned(fs[k].value.value))
  }

  lemma AlikeAgree(es: Entries, fs: Entries, keys: set<string>)
    requires Alike(es, fs) && keys >= es.Keys
    ensures Agree(es, keys) <==> Agree(fs, fs.Keys)
  {}

  lemma VisitIsCombine(es: Entries, order: seq<string>, fs: Entries)
    requires Alike(es, fs) && Elements(order) >= es.Keys
    ensures Visit(es, order).Some? <==> Combine(fs).Some?
    ensures Visit(es, order).Some? ==> Unsigned(Object(Visit(es, order).value)) == Unsigned(Object(Combine(fs).value))
  {
    VisitIsAgree(es, order);
    AlikeAgree(es, fs, Elements(order));
    if Visit(es, order).Some? {
      VisitMatches(es, order);
      VisitSourced(es, order);
      WrittenNames(es, order, Visit(es, order).value);
      SameFields(es, order, fs, Visit(es, order).value);
    }
  }

  lemma UnsignedObjects(out: map<string, Json>, normal: map<string, Json>)
    requires out.Keys == normal.Keys && forall c :: c in out ==> Unsigned(out[c]) == Unsigned(normal[c])
    ensures Unsigned(Object(out)) == Unsigned(Object(normal))
  {
    assert Unsigned(Object(out)).fields == Unsigned(Object(normal)).fields;
  }

  lemma CombineSourced(fs: Entries, c: string) returns (k: string)
    requires Agree(fs, fs.Keys) && c in Names(fs)
    ensures k in fs && fs[k].name == c && c in Combine(fs).value && Some(Combine(fs).value[c]) == fs[k].value
  {
    k :| k in fs && fs[k].name == c && Combine(fs).value[c] == fs[k].value.value;
  }

  lemma WrittenNames(es: Entries, order: seq<string>, out: map<string, Json>)
    requires Elements(order) >= es.Keys && Matches(es, order, out) && Sourced(es, order, out)
    ensures out.Keys == Names(es)
  {
    forall c | c in Names(es) ensures c in out {
      var k :| k in es && es[k].name == c;
      assert k in Elements(order);
    }
  }

  lemma NamesAlike(es: Entries, fs: Entries)
    requires Alike(es, fs)
    ensures Names(es) <= Names(fs)
  {
    forall c | c in Names(es) ensures c in Names(fs) {
      var k :| k in es && es[k].name == c;
      assert k in fs && fs[k].name == c;
    }
  }

  lemma CombineNames(fs: Entries)
    requires Agree(fs, fs.Keys)
    ensures Combine(fs).value.Keys == Names(fs)
  {}

  lemma SameField(es: Entries, order: seq<string>, fs: Entries, out: map<string, Json>, c: string)
    requires Alike(es, fs) && Elements(order) >= es.Keys && Agree(fs, fs.Keys)
    requires Matches(es, order, out) && c in out && c in Names(fs)
    ensures c in Combine(fs).value && Unsigned(out[c]) == Unsigned(Combine(fs).value[c])
  {
    var k := CombineSourced(fs, c);
    assert k in Elements(order);
  }

  lemma SameFields(es: Entries, order: seq<string>, fs: Entries, out: map<string, Json>)
    requires Alike(es, fs) && Elements(order) >= es.Keys && Agree(fs, fs.Keys)
    requires Matches(es, order, out) && out.Keys == Names(es)
    ensures Unsigned(Object(out)) == Unsigned(Object(Combine(fs).value))
  {
    NamesAlike(es, fs);
    NamesAlike(fs, es);
    CombineNames(fs);
    var normal := Combine(fs).value;
    assert out.Keys == normal.Keys;
    forall c | c in out.Keys ensures Unsigned(out[c]) == Unsigned(normal[c]) {
      SameField(es, order, fs, out, c);
    }
    UnsignedObjects(out, normal);
  }

  // ----- one execution, and the result without any order -----

  predicate Kept(k: string, child: Json) {
    !SlotOf(k, child).Drop?
  }

  /** What a field stores when its child normalises to `n`. */
  function EntryOf(k: string, child: Json, n: Option<Json>): Entry
    requires Kept(k, child)
  {
    match SlotOf(k, child)
    case Raw(name) => Entry(name, Some(child))
    case Keep(name) => Entry(name, if n.None? then None else Some(Written(name, n.value)))
  }

  /** normalizeValue under one choice of orders; `None` is ErrConflictingKeys. */
  ghost function Run(v: Json, ch: Choice): Option<Json>
    requires Valid(v, ch)
    decreases v, 1
  {
    match v
    case Array(xs) =>
      if forall i :: 0 <= i < |xs| ==> Run(xs[i], ch.elems[i]).Some?
      then Some(Array(seq(|xs|, i requires 0 <= i < |xs| => Run(xs[i], ch.elems[i]).value)))
      else None
    case Object(m) =>
      if IsValueObject(v) then Run(m["@value"], ch.kids["@value"])
      else if IsReference(v) then Some(m["@id"])
      else
        var out := Visit(RunEntries(m, ch, v), ch.order);
        if out.Some? then Some(Object(out.value)) else None
    case _ => Some(v)
  }

  ghost function RunEntries(m: map<string, Json>, ch: Choice, v: Json): Entries
    requires v == Object(m) && Valid(v, ch)
    decreases v, 0
  {
    map k | k in m && Kept(k, m[k]) :: EntryOf(k, m[k], Run(m[k], ch.kids[k]))
  }

  ghost function Normal(v: Json): Option<Json>
    decreases v, 1
  {
    match v
    case Array(xs) =>
      if forall i :: 0 <= i < |xs| ==> Normal(xs[i]).Some?
      then Some(Array(seq(|xs|, i requires 0 <= i < |xs| => Normal(xs[i]).value)))
      else None
    case Object(m) =>
      if IsValueObject(v) then Normal(m["@value"])
      else if IsReference(v) then Some(m["@id"])
      else
        var out := Combine(NormalEntries(m, v));
        if out.Some? then Some(Object(out.value)) else None
    case _ => Some(v)
  }

  ghost function NormalEntries(m: map<string, Json>, v: Json): Entries
    requires v == Object(m)
    decreases v, 0
  {
    map k | k in m && Kept(k, m[k]) :: EntryOf(k, m[k], Normal(m[k]))
  }

  lemma EntryAlike(k: string, child: Json, n: Option<Json>, m: Option<Json>)
    requires Kept(k, child) && (n.Some? <==> m.Some?) && (n.Some? ==> Unsigned(n.value) == Unsigned(m.value))
    ensures var e, f := EntryOf(k, child, n), EntryOf(k, child, m);
            && e.name == f.name && (e.value.Some? <==> f.value.Some?)
            && (e.value.Some? ==> Unsigned(e.value.value) == Unsigned(f.value.value))
  {
    if n.Some? {
      var name := SlotOf(k, child).name;
      DeepEqualIs(n.value, m.value);
      WrittenRespects(name, n.value, m.value);
      DeepEqualIs(Written(name, n.value), Written(name, m.value));
    }
  }

  // ----- the names and values of the result, spelling by spelling -----

  /** A prefixed spelling of the term `c`. */
  predicate Alias(k: string, c: string) {
    || (k == "as:" + c && c in {
          "type", "actor", "object", "target", "to", "cc", "bcc", "name", "summary", "content", "inReplyTo",
          "published", "updated", "sensitive", "attributedTo", "inbox", "outbox", "followers", "following",
          "endpoints", "sharedInbox", "preferredUsername", "url", "icon", "image", "tag", "attachment"})
    || (k == "sec:" + c && c in {"publicKey", "publicKeyPem", "owner"})
  }

  predicate IsAlias(k: string) {
    ("as:" <= k && Alias(k, k[3..])) || ("sec:" <= k && Alias(k, k[4..]))
  }

  /** A key that is stored under itself: no keyword, no prefixed term, no IRI of either vocabulary. */
  predicate StandsForItself(k: string) {
    && k !in {"@id", "@type", "@context", "@value", "@language", "@graph", "@list"}
    && !IsAlias(k)
    && !("https://www.w3.org/ns/activitystreams#" < k) && !("https://w3id.org/security#" < k)
  }

  /** The field `k` is stored under `c`. */
  predicate Spells(k: string, c: string) {
    || (k == "@id" && c == "id")
    || (k == "@type" && c == "type")
    || Alias(k, c)
    || InActivityStreams(k, c)
    || (c != "" && k == "https://w3id.org/security#" + c)
    || (k == c && StandsForItself(k))
  }

  predicate InActivityStreams(k: string, c: string) {
    var iri := "https://www.w3.org/ns/activitystreams#";
    iri < k && (Alias(k[|iri|..], c) || (k[|iri|..] == c && !IsAlias(c)))
  }

  /** An "@context" is kept as it is if it is the address of a chat room. */
  predicate RoomContext(k: string, child: Json, c: string) {
    k == c == "@context" && child.String? && exists i :: 0 <= i <= |child.s| && "/chat/rooms/" <= child.s[i..]
  }

  /** What is stored: a list of types becomes the first of them, if that is a string. */
  function StoredValue(c: string, n: Json): Json {
    if c == "type" && n.Array? && |n.items| > 0 && n.items[0].String? && n.items[0].s != "" then n.items[0] else n
  }

  lemma PrefixesDiffer(k: string)
    ensures "as:" <= k ==> !("sec:" <= k) && !(AS_PREFIX <= k) && !(SEC_PREFIX <= k)
    ensures "sec:" <= k ==> !(AS_PREFIX <= k) && !(SEC_PREFIX <= k)
    ensures AS_PREFIX <= k ==> !(SEC_PREFIX <= k)
    ensures "as:" <= k || "sec:" <= k || AS_PREFIX <= k || SEC_PREFIX <= k ==> k[0] != '@'
  {
    assert "as:" <= k ==> k[0] == "as:"[0] == 'a';
    assert "sec:" <= k ==> k[0] == "sec:"[0] == 's';
    assert AS_PREFIX <= k ==> k[0] == AS_PREFIX[0] == 'h' && k[9] == AS_PREFIX[9] == 'w';
    assert SEC_PREFIX <= k ==> k[0] == SEC_PREFIX[0] == 'h' && k[9] == SEC_PREFIX[9] == '3';
  }

  /** None of the short names is a keyword or has a prefix. */
  lemma ShortIsPlain(k: string)
    requires k in SHORT_TERMS
    ensures |k| > 0 && k[0] != '@' && !("as:" <= k) && !("sec:" <= k) && !(AS_PREFIX <= k) && !(SEC_PREFIX <= k)
  {
    assert |k| > 1 && k[0] != '@';
    assert |k| > 2 ==> k[2] != ':';
    assert |k| > 3 ==> k[3] != ':';
    assert |k| > 5 ==> k[5] != ':';
    assert AS_PREFIX[5] == ':' && SEC_PREFIX[5] == ':';
  }

  lemma PrefixedTerms(c: string)
    ensures c in AS_TERMS <==> Alias("as:" + c, c)
    ensures c in SEC_TERMS <==> Alias("sec:" + c, c)
  {
    assert ("as:" + c)[0] != ("sec:" + c)[0];
  }

  lemma TermIs(k: string, c: string)
    ensures CanonicalTerm(k) == Some(c) <==> (k == c && k in SHORT_TERMS) || Alias(k, c)
  {
    if k in SHORT_TERMS {
      ShortIsPlain(k);
    }
    PrefixesDiffer(k);
    PrefixedTerms(c);
    assert "as:" <= k ==> k == "as:" + k[3..];
    assert "sec:" <= k ==> k == "sec:" + k[4..];
    assert ("as:" + c)[3..] == c && ("sec:" + c)[4..] == c;
  }

  lemma AliasParts(k: string, c: string)
    requires Alias(k, c)
    ensures ("as:" <= k && k[3..] == c) || ("sec:" <= k && k[4..] == c)
  {
    assert ("as:" + c)[3..] == c && ("sec:" + c)[4..] == c;
  }

  lemma TermFound(k: string)
    ensures CanonicalTerm(k).Some? <==> k in SHORT_TERMS || IsAlias(k)
    ensures k in SHORT_TERMS ==> !IsAlias(k)
  {
    if k in SHORT_TERMS {
      ShortIsPlain(k);
    } else if CanonicalTerm(k).Some? {
      TermIs(k, CanonicalTerm(k).value);
      AliasParts(k, CanonicalTerm(k).value);
    } else if "as:" <= k && Alias(k, k[3..]) {
      TermIs(k, k[3..]);
    } else if "sec:" <= k {
      TermIs(k, k[4..]);
    }
  }

  /** Keys with neither prefix are in neither table. */
  lemma PrefixedIsNoTerm(k: string)
    requires AS_PREFIX <= k || SEC_PREFIX <= k
    ensures CanonicalTerm(k).None?
  {
    PrefixesDiffer(k);
    if k in SHORT_TERMS { ShortIsPlain(k); }
  }

  lemma TermInActivityStreams(k: string, c: string)
    requires AS_PREFIX < k
    ensures CanonicalKey(k) == Some(c) <==> InActivityStreams(k, c)
  {
    var local := k[|AS_PREFIX|..];
    PrefixedIsNoTerm(k);
    TermIs(local, c);
    TermFound(local);
  }

  lemma TermInSecurity(k: string, c: string)
    requires SEC_PREFIX < k
    ensures CanonicalKey(k) == Some(c) <==> k == SEC_PREFIX + c
  {
    var local := k[|SEC_PREFIX|..];
    PrefixedIsNoTerm(k);
    PrefixesDiffer(k);
    PrefixesDiffer("sec:" + local);
    if "sec:" + local in SHORT_TERMS { ShortIsPlain("sec:" + local); }
    assert ("sec:" + local)[4..] == local;
    assert k == SEC_PREFIX + local && (SEC_PREFIX + c)[|SEC_PREFIX|..] == c;
  }

  lemma NoPrefixes(k: string, c: string)
    ensures InActivityStreams(k, c) ==> AS_PREFIX < k
    ensures c != "" && k == SEC_PREFIX + c ==> SEC_PREFIX < k
    ensures k in SHORT_TERMS || Alias(k, c) ==> !(AS_PREFIX < k) && !(SEC_PREFIX < k)
  {
    PrefixesDiffer(k);
    if k in SHORT_TERMS { ShortIsPlain(k); }
  }

  lemma KeyIs(k: string, c: string)
    ensures CanonicalKey(k) == Some(c) <==>
              || (k == c && k in SHORT_TERMS) || Alias(k, c) || InActivityStreams(k, c)
              || (c != "" && k == SEC_PREFIX + c)
  {
    NoPrefixes(k, c);
    PrefixesDiffer(k);
    TermIs(k, c);
    if AS_PREFIX < k {
      TermInActivityStreams(k, c);
    } else if SEC_PREFIX < k {
      TermInSecurity(k, c);
    } else if CanonicalTerm(k).Some? {
      TermIs(k, CanonicalTerm(k).value);
    }
  }

  lemma KeywordIsNoKey(k: string)
    requires |k| > 0 && k[0] == '@'
    ensures CanonicalKey(k).None?
  {
    PrefixesDiffer(k);
    if k in SHORT_TERMS { ShortIsPlain(k); }
  }

  lemma ItselfIs(k: string)
    requires k !in {"@id", "@type", "@context", "@value", "@language", "@graph", "@list"}
    ensures StandsForItself(k) <==> CanonicalKey(k).None? || k in SHORT_TERMS
  {
    TermFound(k);
    PrefixesDiffer(k);
    if k in SHORT_TERMS { ShortIsPlain(k); }
    if AS_PREFIX < k {
      PrefixedIsNoTerm(k);
    } else if SEC_PREFIX < k {
      PrefixedIsNoTerm(k);
    }
  }

  lemma SlotIs(k: string, child: Json, c: string)
    ensures SlotOf(k, child) == Keep(c) <==> Spells(k, c)
    ensures SlotOf(k, child) == Raw(c) <==> RoomContext(k, child, c)
  {
    KeyIs(k, c);
    if k in {"@id", "@type", "@context", "@value", "@language", "@graph", "@list"} {
      KeywordIsNoKey(k);
    } else {
      ItselfIs(k);
      if k in SHORT_TERMS { ShortIsPlain(k); }
      KeyIs(k, k);
    }
  }

  /** A term is spelled by itself, by both IRIs, and by its prefixed form if it has one. */
  lemma TermSpellings(c: string)
    requires c in SHORT_TERMS
    ensures Spells(c, c) && Spells("https://www.w3.org/ns/activitystreams#" + c, c)
    ensures Spells("https://w3id.org/security#" + c, c)
    ensures c in AS_TERMS ==> Spells("as:" + c, c)
    ensures c in SEC_TERMS ==> Spells("sec:" + c, c)
  {
    ShortIsPlain(c);
    PrefixedTerms(c);
    var iri := "https://www.w3.org/ns/activitystreams#" + c;
    assert iri[|AS_PREFIX|..] == c;
    assert AS_PREFIX <= iri;
  }

  lemma StoredIsWritten(c: string, n: Json)
    ensures Written(c, n) == StoredValue(c, n)
  {}

  /** The field `k` of an object puts something under `c`. */
  predicate Stores(m: map<string, Json>, k: string, c: string) {
    k in m && (Spells(k, c) || RoomContext(k, m[k], c))
  }

  /** What it puts there, unless its child is rejected. */
  ghost function Stored(m: map<string, Json>, k: string, c: string): Option<Json>
    requires k in m
  {
    if !Spells(k, c) then Some(m[k])
    else if Normal(m[k]).None? then None
    else Some(StoredValue(c, Normal(m[k]).value))
  }

  lemma EntryStored(m: map<string, Json>, k: string, c: string)
    requires k in m
    ensures var es := NormalEntries(m, Object(m));
            && (k in es && es[k].name == c <==> Stores(m, k, c))
            && (Stores(m, k, c) ==> es[k].value == Stored(m, k, c))
  {
    SlotIs(k, m[k], c);
    if Normal(m[k]).Some? {
      StoredIsWritten(c, Normal(m[k]).value);
    }
    assert Kept(k, m[k]) <==> k in NormalEntries(m, Object(m));
  }

  /** An object that is neither an annotated value nor a reference. */
  predicate HasFields(m: map<string, Json>) {
    "@value" !in m && !(m.Keys == {"@id"} && m["@id"].String?)
  }

  lemma NodeIs(m: map<string, Json>)
    ensures IsNode(Object(m)) <==> HasFields(m)
  {
    if "@id" in m && |m| == 1 {
      SingleKey(m.Keys, "@id");
    }
    assert m.Keys == {"@id"} ==> |m.Keys| == 1;
    assert |m| == |m.Keys|;
  }

  lemma SingleKey(keys: set<string>, k: string)
    requires k in keys && |keys| == 1
    ensures keys == {k}
  {
    assert |keys - {k}| == 0;
    assert keys == (keys - {k}) + {k};
  }

  /** An object is accepted exactly when its fields are and those that share a name agree. */
  lemma AcceptedIff(m: map<string, Json>)
    requires HasFields(m)
    ensures Normal(Object(m)).Some? <==>
              && (forall k, c :: Stores(m, k, c) ==> Stored(m, k, c).Some?)
              && (forall j, k, c :: Stores(m, j, c) && Stores(m, k, c) ==>
                    DeepEqual(Stored(m, j, c).value, Stored(m, k, c).value))
  {
    NodeIs(m);
    var es := NormalEntries(m, Object(m));
    forall k | k in m ensures k in es ==> Stores(m, k, es[k].name) && es[k].value == Stored(m, k, es[k].name) {
      if k in es { EntryStored(m, k, es[k].name); }
    }
    forall k, c | Stores(m, k, c) ensures k in es && es[k].name == c && es[k].value == Stored(m, k, c) {
      EntryStored(m, k, c);
    }
    forall j, k | j in es && k in es && es[j].value.Some? && es[k].value.Some?
      ensures DeepEqual(es[j].value.value, es[k].value.value) <==>
              Unsigned(es[j].value.value) == Unsigned(es[k].value.value)
    {
      DeepEqualIs(es[j].value.value, es[k].value.value);
    }
  }

  /** The result has exactly the names its fields spell, each with the value of any field that spells it. */
  lemma NamesOfResult(m: map<string, Json>, c: string)
    requires HasFields(m) && Normal(Object(m)).Some?
    ensures Normal(Object(m)).value.Object?
    ensures c in Normal(Object(m)).value.fields <==> exists k :: Stores(m, k, c)
    ensures forall k :: Stores(m, k, c) ==>
              Stored(m, k, c).Some? && DeepEqual(Normal(Object(m)).value.fields[c], Stored(m, k, c).value)
  {
    NodeIs(m);
    var es := NormalEntries(m, Object(m));
    var out := Combine(es).value;
    CombineNames(es);
    forall k | Stores(m, k, c)
      ensures c in out && Stored(m, k, c).Some? && DeepEqual(out[c], Stored(m, k, c).value)
    {
      EntryStored(m, k, c);
      assert es[k].name == c;
      var j := CombineSourced(es, c);
      DeepEqualIs(out[c], Stored(m, k, c).value);
    }
    if c in out {
      var k := CombineSourced(es, c);
      EntryStored(m, k, c);
    }
  }

  /** Annotated values are their value, references their address, and lists are normalised item by item. */
  lemma OtherValues(v: Json)
    ensures v.Object? && "@value" in v.fields ==> Normal(v) == Normal(v.fields["@value"])
    ensures forall s :: v == Object(map["@id" := String(s)]) ==> Normal(v) == Some(String(s))
    ensures v.Array? && Normal(v).Some? ==>
              && Normal(v).value.Array? && |Normal(v).value.items| == |v.items|
              && forall i :: 0 <= i < |v.items| ==> Normal(v.items[i]) == Some(Normal(v).value.items[i])
    ensures v.Array? && Normal(v).None? ==> exists i :: 0 <= i < |v.items| && Normal(v.items[i]).None?
    ensures !v.Object? && !v.Array? ==> Normal(v) == Some(v)
  {}

  lemma TwoEntries(es: Entries, j: string, k: string, a: string, b: string, x: Json, y: Json)
    requires es.Keys == {j, k} && a != b && es[j] == Entry(a, Some(x)) && es[k] == Entry(b, Some(y))
    ensures Combine(es) == Some(map[a := x, b := y])
  {
    assert Agree(es, es.Keys);
    CombineNames(es);
    assert Names(es) == {a, b} by {
      assert j in es && k in es;
    }
    assert Combine(es).value == map[a := x, b := y];
  }

  lemma KeywordEntry(m: map<string, Json>, k: string)
    requires k in m && m[k].String? && (k == "@id" || k == "@type")
    ensures var es := NormalEntries(m, Object(m));
            k in es && es[k] == Entry(if k == "@id" then "id" else "type", Some(m[k]))
  {
    var c := if k == "@id" then "id" else "type";
    assert Spells(k, c);
    EntryStored(m, k, c);
  }

  /** `{"@id": ..., "@type": ...}` becomes `{"id": ..., "type": ...}`. */
  lemma KeywordExample(id: string, t: string)
    ensures var doc := Object(map["@id" := String(id), "@type" := String(t)]);
            Normal(doc) == Some(Object(map["id" := String(id), "type" := String(t)]))
  {
    var m := map["@id" := String(id), "@type" := String(t)];
    KeywordEntry(m, "@id");
    KeywordEntry(m, "@type");
    NodeIs(m);
    assert "@type" in m.Keys;
    TwoEntries(NormalEntries(m, Object(m)), "@id", "@type", "id", "type", String(id), String(t));
  }

  /**
    Whatever the order of the keys, at every level: the document is accepted or
    rejected the same way, and the result is the same up to DeepEqual.
    */
  lemma {:induction false} RunIsNormal(v: Json, ch: Choice)
    requires Valid(v, ch)
    ensures Run(v, ch).Some? <==> Normal(v).Some?
    ensures Run(v, ch).Some? ==> Unsigned(Run(v, ch).value) == Unsigned(Normal(v).value)
    decreases v
  {
    match v
    case Array(xs) =>
      forall i | 0 <= i < |xs|
        ensures Run(xs[i], ch.elems[i]).Some? <==> Normal(xs[i]).Some?
        ensures Run(xs[i], ch.elems[i]).Some? ==>
                  Unsigned(Run(xs[i], ch.elems[i]).value) == Unsigned(Normal(xs[i]).value)
      {
        RunIsNormal(xs[i], ch.elems[i]);
      }
      if Run(v, ch).Some? {
        assert Unsigned(Run(v, ch).value).items == Unsigned(Normal(v).value).items;
      }
    case Object(m) =>
      if IsValueObject(v) {
        RunIsNormal(m["@value"], ch.kids["@value"]);
      } else if IsNode(v) {
        EntriesAlike(m, ch, v);
        VisitIsCombine(RunEntries(m, ch, v), ch.order, NormalEntries(m, v));
      }
    case _ =>
  }

  lemma EntriesAlike(m: map<string, Json>, ch: Choice, v: Json)
    requires v == Object(m) && Valid(v, ch)
    ensures Alike(RunEntries(m, ch, v), NormalEntries(m, v))
    ensures Elements(ch.order) >= RunEntries(m, ch, v).Keys
    decreases v, 0
  {
    forall k | k in m && Kept(k, m[k])
      ensures var e, f := EntryOf(k, m[k], Run(m[k], ch.kids[k])), EntryOf(k, m[k], Normal(m[k]));
              && e.name == f.name && (e.value.Some? <==> f.value.Some?)
              && (e.value.Some? ==> Unsigned(e.value.value) == Unsigned(f.value.value))
    {
      RunIsNormal(m[k], ch.kids[k]);
      EntryAlike(k, m[k], Run(m[k], ch.kids[k]), Normal(m[k]));
    }
  }

  /** Normalisation is deterministic up to DeepEqual: two executions never disagree. */
  lemma TwoRunsAgree(v: Json, ch1: Choice, ch2: Choice)
    requires Valid(v, ch1) && Valid(v, ch2)
    ensures Run(v, ch1).Some? <==> Run(v, ch2).Some?
    ensures Run(v, ch1).Some? ==> DeepEqual(Run(v, ch1).value, Run(v, ch2).value)
  {
    RunIsNormal(v, ch1);
    RunIsNormal(v, ch2);
    if Run(v, ch1).Some? {
      DeepEqualIs(Run(v, ch1).value, Run(v, ch2).value);
    }
  }

  // ----- when the result is exactly the same -----

  /** The stored type string does not depend on how the rest of the child came out. */
  predicate Pinned(k: string, child: Json, n: Option<Json>) {
    SlotOf(k, child).Raw? || (SlotOf(k, child) == Keep("type") && n.Some? && FlattenType(n.value) != "")
  }

  /**
    No two fields that share a canonical name differ in the sign of a zero, in
    any part of the document that reaches the result.
    */
  ghost predicate Steady(v: Json) {
    match v
    case Array(xs) => forall i :: 0 <= i < |xs| ==> Steady(xs[i])
    case Object(m) =>
      if IsValueObject(v) then Steady(m["@value"])
      else if IsReference(v) then true
      else
        && (forall k :: k in m && Kept(k, m[k]) ==> Pinned(k, m[k], Normal(m[k])) || Steady(m[k]))
        && SameValues(NormalEntries(m, v))
    case _ => true
  }

  ghost predicate SameValues(es: Entries) {
    forall j, k :: j in es && k in es && es[j].name == es[k].name ==> es[j].value == es[k].value
  }

  lemma VisitNames(es: Entries, order: seq<string>)
    requires Visit(es, order).Some? && es.Keys <= Elements(order)
    ensures Visit(es, order).value.Keys == Names(es)
  {
    VisitMatches(es, order);
    VisitSourced(es, order);
    WrittenNames(es, order, Visit(es, order).value);
  }

  lemma ExactField(es: Entries, order: seq<string>, c: string)
    requires Agree(es, es.Keys) && SameValues(es) && Visit(es, order).Some? && c in Visit(es, order).value
    requires c in Names(es)
    ensures c in Combine(es).value && Visit(es, order).value[c] == Combine(es).value[c]
  {
    VisitSourced(es, order);
    var k := CombineSourced(es, c);
    var out := Visit(es, order).value;
    var j :| j in order && j in es && es[j].name == c && Some(out[c]) == es[j].value;
  }

  lemma VisitIsExact(es: Entries, order: seq<string>)
    requires Agree(es, es.Keys) && SameValues(es) && es.Keys <= Elements(order)
    ensures Visit(es, order) == Combine(es)
  {
    assert Visit(es, order).Some? by {
      AlikeAgree(es, es, Elements(order));
      AgreeVisits(es, order);
    }
    var out, normal := Visit(es, order).value, Combine(es).value;
    assert out.Keys == normal.Keys by {
      VisitNames(es, order);
      CombineNames(es);
    }
    forall c | c in out.Keys ensures out[c] == normal[c] {
      VisitNames(es, order);
      ExactField(es, order, c);
    }
    assert out == normal;
  }

  lemma PinnedEntry(k: string, child: Json, n: Option<Json>, m: Option<Json>)
    requires Kept(k, child) && Pinned(k, child, n) && (n.Some? <==> m.Some?)
    requires n.Some? ==> Unsigned(n.value) == Unsigned(m.value)
    ensures EntryOf(k, child, n) == EntryOf(k, child, m)
  {
    if n.Some? {
      DeepEqualIs(n.value, m.value);
      WrittenRespects(SlotOf(k, child).name, n.value, m.value);
    }
  }

  lemma {:induction false} SteadyRun(v: Json, ch: Choice)
    requires Valid(v, ch) && Steady(v) && Normal(v).Some?
    ensures Run(v, ch) == Normal(v)
    decreases v, 1
  {
    match v
    case Array(xs) =>
      forall i | 0 <= i < |xs| ensures Run(xs[i], ch.elems[i]) == Normal(xs[i]) {
        SteadyRun(xs[i], ch.elems[i]);
      }
      assert Run(v, ch).value.items == Normal(v).value.items;
    case Object(m) =>
      if IsValueObject(v) {
        SteadyRun(m["@value"], ch.kids["@value"]);
      } else if IsNode(v) {
        SteadyEntries(m, ch, v);
        VisitIsExact(NormalEntries(m, v), ch.order);
      }
    case _ =>
  }

  /** The entries do not depend on the choice when every field is pinned or steady. */
  lemma SteadyEntries(m: map<string, Json>, ch: Choice, v: Json)
    requires v == Object(m) && IsNode(v) && Valid(v, ch) && Normal(v).Some?
    requires forall k :: k in m && Kept(k, m[k]) ==> Pinned(k, m[k], Normal(m[k])) || Steady(m[k])
    ensures RunEntries(m, ch, v) == NormalEntries(m, v)
    decreases v, 0
  {
    forall k | k in m && Kept(k, m[k])
      ensures EntryOf(k, m[k], Run(m[k], ch.kids[k])) == EntryOf(k, m[k], Normal(m[k]))
    {
      RunIsNormal(m[k], ch.kids[k]);
      if Pinned(k, m[k], Normal(m[k])) {
        PinnedEntry(k, m[k], Normal(m[k]), Run(m[k], ch.kids[k]));
      } else {
        KeptNormal(m, v, k);
        SteadyRun(m[k], ch.kids[k]);
      }
    }
  }

  /** In an accepted object every kept child was accepted. */
  lemma KeptNormal(m: map<string, Json>, v: Json, k: string)
    requires v == Object(m) && IsNode(v) && Normal(v).Some? && k in m && SlotOf(k, m[k]).Keep?
    ensures Normal(m[k]).Some?
  {
    var es := NormalEntries(m, v);
    assert Agree(es, es.Keys);
    assert k in es && es[k].value.Some?;
  }

  ghost function AnyOrder(keys: set<string>): (order: seq<string>)
    ensures Permutes(order, keys)
  {
    if keys == {} then []
    else
      var k :| k in keys;
      AnyOrder(keys - {k}) + [k]
  }

  /** An order in which `k` comes last. */
  ghost function Last(keys: set<string>, k: string): (order: seq<string>)
    requires k in keys
    ensures Permutes(order, keys) && order != [] && order[|order| - 1] == k
  {
    AnyOrder(keys - {k}) + [k]
  }

  ghost function AnyChoice(v: Json): (ch: Choice)
    ensures Valid(v, ch)
  {
    match v
    case Array(xs) => Choice([], map[], seq(|xs|, i requires 0 <= i < |xs| => AnyChoice(xs[i])))
    case Object(m) => Choice(AnyOrder(m.Keys), map k | k in m :: AnyChoice(m[k]), [])
    case _ => Choice([], map[], [])
  }

  lemma LastWins(es: Entries, order: seq<string>)
    requires Visit(es, order).Some? && order != [] && order[|order| - 1] in es
    ensures var k := order[|order| - 1];
            es[k].name in Visit(es, order).value && Some(Visit(es, order).value[es[k].name]) == es[k].value
  {}

  /** Two executions whose last visited field stores different values under one name. */
  lemma LastDiffers(m: map<string, Json>, v: Json, a: Choice, b: Choice)
    requires v == Object(m) && IsNode(v) && Valid(v, a) && Valid(v, b) && Normal(v).Some?
    requires a.order != [] && b.order != []
    requires var j, k := a.order[|a.order| - 1], b.order[|b.order| - 1];
             && Kept(j, m[j]) && Kept(k, m[k])
             && RunEntries(m, a, v)[j].name == RunEntries(m, b, v)[k].name
             && RunEntries(m, a, v)[j].value != RunEntries(m, b, v)[k].value
    ensures Run(v, a) != Run(v, b)
  {
    LastStored(m, v, a);
    LastStored(m, v, b);
  }

  /** What the last visited field stores is in the result. */
  lemma LastStored(m: map<string, Json>, v: Json, a: Choice)
    requires v == Object(m) && IsNode(v) && Valid(v, a) && Normal(v).Some? && a.order != []
    requires Kept(a.order[|a.order| - 1], m[a.order[|a.order| - 1]])
    ensures var r, e := Run(v, a), RunEntries(m, a, v)[a.order[|a.order| - 1]];
            r.Some? && r.value.Object? && e.name in r.value.fields && Some(r.value.fields[e.name]) == e.value
  {
    RunIsNormal(v, a);
    LastWins(RunEntries(m, a, v), a.order);
  }

  lemma {:induction false} UnsteadyRuns(v: Json) returns (a: Choice, b: Choice)
    requires !Steady(v) && Normal(v).Some?
    ensures Valid(v, a) && Valid(v, b) && Run(v, a) != Run(v, b)
    decreases v
  {
    match v
    case Array(xs) =>
      var i :| 0 <= i < |xs| && !Steady(xs[i]);
      var x, y := UnsteadyRuns(xs[i]);
      a, b := ItemDiffers(xs, v, i, x, y);
    case Object(m) =>
      if IsValueObject(v) {
        var x, y := UnsteadyRuns(m["@value"]);
        a, b := ValueDiffers(m, v, x, y);
      } else if k :| k in m && Kept(k, m[k]) && !Pinned(k, m[k], Normal(m[k])) && !Steady(m[k]) {
        KeptNormal(m, v, k);
        var x, y := UnsteadyRuns(m[k]);
        a, b := ChildDiffers(m, v, k, x, y);
      } else {
        a, b := FieldsDiffer(m, v);
      }
  }

  lemma ValueDiffers(m: map<string, Json>, v: Json, x: Choice, y: Choice) returns (a: Choice, b: Choice)
    requires v == Object(m) && IsValueObject(v)
    requires Valid(m["@value"], x) && Valid(m["@value"], y) && Run(m["@value"], x) != Run(m["@value"], y)
    ensures Valid(v, a) && Valid(v, b) && Run(v, a) != Run(v, b)
  {
    a := AnyChoice(v);
    a, b := a.(kids := a.kids["@value" := x]), a.(kids := a.kids["@value" := y]);
  }

  lemma ItemDiffers(xs: seq<Json>, v: Json, i: nat, x: Choice, y: Choice) returns (a: Choice, b: Choice)
    requires v == Array(xs) && Normal(v).Some? && i < |xs|
    requires Valid(xs[i], x) && Valid(xs[i], y) && Run(xs[i], x) != Run(xs[i], y)
    ensures Valid(v, a) && Valid(v, b) && Run(v, a) != Run(v, b)
  {
    a := AnyChoice(v);
    a, b := a.(elems := a.elems[i := x]), a.(elems := a.elems[i := y]);
    RunIsNormal(v, a);
    RunIsNormal(v, b);
    assert Run(v, a).value.items[i] == Run(xs[i], a.elems[i]).value;
    assert Run(v, b).value.items[i] == Run(xs[i], b.elems[i]).value;
    RunIsNormal(xs[i], x);
    RunIsNormal(xs[i], y);
  }

  /** A child that can come out in two ways, visited last. */
  lemma ChildDiffers(m: map<string, Json>, v: Json, k: string, x: Choice, y: Choice) returns (a: Choice, b: Choice)
    requires v == Object(m) && IsNode(v) && Normal(v).Some?
    requires k in m && Kept(k, m[k]) && !Pinned(k, m[k], Normal(m[k])) && Normal(m[k]).Some?
    requires Valid(m[k], x) && Valid(m[k], y) && Run(m[k], x) != Run(m[k], y)
    ensures Valid(v, a) && Valid(v, b) && Run(v, a) != Run(v, b)
  {
    a := KidLast(m, v, k, x);
    b := KidLast(m, v, k, y);
    LastDiffers(m, v, a, b);
  }

  /** An execution that gives the child `k` the choice `x` and visits it last. */
  lemma KidLast(m: map<string, Json>, v: Json, k: string, x: Choice) returns (a: Choice)
    requires v == Object(m) && IsNode(v) && k in m && Kept(k, m[k]) && !Pinned(k, m[k], Normal(m[k]))
    requires Normal(m[k]).Some?
    requires Valid(m[k], x)
    ensures Valid(v, a) && a.order != [] && a.order[|a.order| - 1] == k
    ensures RunEntries(m, a, v)[k] == Entry(SlotOf(k, m[k]).name, Run(m[k], x))
  {
    a := AnyChoice(v);
    a := a.(kids := a.kids[k := x], order := Last(m.Keys, k));
    RunIsNormal(m[k], x);
    UnpinnedEntry(k, m[k], Normal(m[k]), Run(m[k], x).value);
  }

  /** Two fields of one name with different values, each visited last once. */
  lemma FieldsDiffer(m: map<string, Json>, v: Json) returns (a: Choice, b: Choice)
    requires v == Object(m) && IsNode(v) && Normal(v).Some?
    requires forall k :: k in m && Kept(k, m[k]) ==> Pinned(k, m[k], Normal(m[k])) || Steady(m[k])
    requires !SameValues(NormalEntries(m, v))
    ensures Valid(v, a) && Valid(v, b) && Run(v, a) != Run(v, b)
  {
    var es := NormalEntries(m, v);
    var j, k :| j in es && k in es && es[j].name == es[k].name && es[j].value != es[k].value;
    a := EndingIn(m, v, j);
    b := EndingIn(m, v, k);
    LastDiffers(m, v, a, b);
  }

  /** An execution that visits `k` last and stores the normal entries. */
  lemma EndingIn(m: map<string, Json>, v: Json, k: string) returns (a: Choice)
    requires v == Object(m) && IsNode(v) && Normal(v).Some? && k in m
    requires forall k :: k in m && Kept(k, m[k]) ==> Pinned(k, m[k], Normal(m[k])) || Steady(m[k])
    ensures Valid(v, a) && a.order != [] && a.order[|a.order| - 1] == k
    ensures RunEntries(m, a, v) == NormalEntries(m, v)
  {
    a := AnyChoice(v).(order := Last(m.Keys, k));
    SteadyEntries(m, a, v);
  }

  lemma UnpinnedEntry(k: string, child: Json, n: Option<Json>, r: Json)
    requires Kept(k, child) && !Pinned(k, child, n) && n.Some? && Unsigned(n.value) == Unsigned(r)
    ensures EntryOf(k, child, Some(r)).value == Some(r)
  {
    DeepEqualIs(n.value, r);
    WrittenRespects(SlotOf(k, child).name, n.value, r);
  }

  /**
    Exactly when normalisation is deterministic: for an accepted document, all
    executions give the same value if and only if the document is steady.
    */
  lemma DeterministicIffSteady(v: Json)
    requires Normal(v).Some?
    ensures Steady(v) <==> forall a, b :: Valid(v, a) && Valid(v, b) ==> Run(v, a) == Run(v, b)
  {
    if Steady(v) {
      forall a, b | Valid(v, a) && Valid(v, b) ensures Run(v, a) == Run(v, b) {
        SteadyRun(v, a);
        SteadyRun(v, b);
      }
    } else {
      var a, b := UnsteadyRuns(v);
    }
  }

  predicate HasNegativeZero(v: Json) {
    match v
    case NegativeZero => true
    case Array(xs) => exists i :: 0 <= i < |xs| && HasNegativeZero(xs[i])
    case Object(m) => exists k :: k in m && HasNegativeZero(m[k])
    case _ => false
  }

  lemma {:induction false} UnsignedIsSame(v: Json)
    requires !HasNegativeZero(v)
    ensures Unsigned(v) == v
  {
    match v
    case Array(xs) =>
      forall i | 0 <= i < |xs| ensures Unsigned(xs[i]) == xs[i] { UnsignedIsSame(xs[i]); }
      assert Unsigned(v).items == xs;
    case Object(m) =>
      forall k | k in m ensures Unsigned(m[k]) == m[k] { UnsignedIsSame(m[k]); }
      assert Unsigned(v).fields == m;
    case _ =>
  }

  /** An accepted document that does not contain `-0` has one result. */
  lemma {:induction false} NoNegativeZeroIsSteady(v: Json)
    requires !HasNegativeZero(v) && Normal(v).Some?
    ensures Steady(v) && !HasNegativeZero(Normal(v).value)
    decreases v, 1
  {
    match v
    case Array(xs) =>
      forall i | 0 <= i < |xs| ensures Steady(xs[i]) && !HasNegativeZero(Normal(xs[i]).value) {
        NoNegativeZeroIsSteady(xs[i]);
      }
    case Object(m) =>
      if IsValueObject(v) {
        NoNegativeZeroIsSteady(m["@value"]);
      } else if IsNode(v) {
        forall k | k in m && Kept(k, m[k])
          ensures Pinned(k, m[k], Normal(m[k])) || Steady(m[k])
          ensures var e := NormalEntries(m, v)[k]; e.value.Some? && !HasNegativeZero(e.value.value)
        {
          PositiveEntry(m, v, k);
        }
        PositiveCombine(NormalEntries(m, v));
      }
    case _ =>
  }

  /** Entries without `-0` that agree are equal, and what they combine to has no `-0` either. */
  lemma PositiveCombine(es: Entries)
    requires Combine(es).Some? && forall k :: k in es ==> es[k].value.Some? && !HasNegativeZero(es[k].value.value)
    ensures SameValues(es) && forall c :: c in Combine(es).value ==> !HasNegativeZero(Combine(es).value[c])
  {
    forall j, k | j in es && k in es && es[j].name == es[k].name ensures es[j].value == es[k].value {
      UnsignedIsSame(es[j].value.value);
      UnsignedIsSame(es[k].value.value);
    }
    var out := Combine(es).value;
    forall c | c in out ensures !HasNegativeZero(out[c]) {
      var k := CombineSourced(es, c);
    }
  }

  lemma PositiveEntry(m: map<string, Json>, v: Json, k: string)
    requires v == Object(m) && !HasNegativeZero(v) && IsNode(v) && Normal(v).Some? && k in m && Kept(k, m[k])
    ensures Pinned(k, m[k], Normal(m[k])) || Steady(m[k])
    ensures var e := NormalEntries(m, v)[k]; e.value.Some? && !HasNegativeZero(e.value.value)
    decreases v, 0
  {
    if SlotOf(k, m[k]).Keep? {
      KeptNormal(m, v, k);
      NoNegativeZeroIsSteady(m[k]);
    }
  }

  lemma ActorSlots(child: Json)
    ensures SlotOf("actor", child) == Keep("actor") && SlotOf("as:actor", child) == Keep("actor")
  {
    assert "as:actor"[3..] == "actor";
  }

  const SIGNED_ZEROS: map<string, Json> := map["actor" := Number(0.0), "as:actor" := NegativeZero]

  lemma SignedZeroEntries()
    ensures IsNode(Object(SIGNED_ZEROS))
    ensures NormalEntries(SIGNED_ZEROS, Object(SIGNED_ZEROS)) ==
              map["actor" := Entry("actor", Some(Number(0.0))), "as:actor" := Entry("actor", Some(NegativeZero))]
  {
    ActorSlots(SIGNED_ZEROS["actor"]);
    ActorSlots(SIGNED_ZEROS["as:actor"]);
    var es := NormalEntries(SIGNED_ZEROS, Object(SIGNED_ZEROS));
    assert es.Keys == {"actor", "as:actor"};
  }

  lemma SignedZeroUnsteady()
    ensures Normal(Object(SIGNED_ZEROS)).Some? && !Steady(Object(SIGNED_ZEROS))
  {
    SignedZeroEntries();
    var es := NormalEntries(SIGNED_ZEROS, Object(SIGNED_ZEROS));
    assert es["actor"].name == es["as:actor"].name && es["actor"].value != es["as:actor"].value;
    assert Unsigned(es["actor"].value.value) == Unsigned(es["as:actor"].value.value);
    assert Agree(es, es.Keys);
  }

  /** `{"actor": 0, "as:actor": -0}` is accepted and has two results. */
  lemma SignedZeroExample()
    ensures exists a, b :: Valid(Object(SIGNED_ZEROS), a) && Valid(Object(SIGNED_ZEROS), b)
                           && Run(Object(SIGNED_ZEROS), a) != Run(Object(SIGNED_ZEROS), b)
  {
    SignedZeroUnsteady();
    var a, b := UnsteadyRuns(Object(SIGNED_ZEROS));
  }

  // ----- the code -----

  lemma {:induction false} VisitFrame(es: Entries, fs: Entries, order: seq<string>)
    requires forall k :: k in order ==> (k in es <==> k in fs) && (k in es ==> es[k] == fs[k])
    ensures Visit(es, order) == Visit(fs, order)
  {
    if order != [] { VisitFrame(es, fs, order[..|order| - 1]); }
  }

  lemma {:induction false} VisitStopped(es: Entries, order: seq<string>, more: seq<string>)
    requires Visit(es, order).None?
    ensures Visit(es, order + more).None?
  {
    if more == [] {
      assert order + more == order;
    } else {
      VisitStopped(es, order, more[..|more| - 1]);
      assert (order + more)[..|order + more| - 1] == order + more[..|more| - 1];
    }
  }

  lemma PermutesConcat(order: seq<string>, rest: seq<string>, keys: set<string>)
    requires Permutes(order, keys - Elements(rest)) && Permutes(rest, Elements(rest)) && Elements(rest) <= keys
    ensures Permutes(order + rest, keys)
  {
    forall i, j | 0 <= i < j < |order + rest| ensures (order + rest)[i] != (order + rest)[j] {
      if i < |order| <= j {
        assert order[i] in order && rest[j - |order|] in rest;
      }
    }
  }

  /**
    normalizeValue. Every execution is `Run` for some choice of orders, so the
    lemmas about `Run` hold for it.
    */
  method NormalizeValue(v: Json) returns (r: Option<Json>, ghost ch: Choice)
    ensures Valid(v, ch) && r == Run(v, ch)
    decreases v, 1
  {
    ch := AnyChoice(v);
    match v
    case Array(xs) =>
      var out: seq<Json> := [];
      for i := 0 to |xs|
        invariant Valid(v, ch) && |out| == i
        invariant forall j :: 0 <= j < i ==> Run(xs[j], ch.elems[j]) == Some(out[j])
      {
        var item;
        ghost var c;
        item, c := NormalizeValue(xs[i]);
        ch := ch.(elems := ch.elems[i := c]);
        if item.None? {
          assert Run(xs[i], ch.elems[i]).None?;
          r := None;
          return;
        }
        out := out + [item.value];
      }
      r := Some(Array(out));
      assert Run(v, ch).value.items == out;
    case Object(m) =>
      if "@value" in m {
        ghost var c;
        r, c := NormalizeValue(m["@value"]);
        ch := ch.(kids := ch.kids["@value" := c]);
      } else if "@id" in m && |m| == 1 && m["@id"].String? {
        r := Some(m["@id"]);
      } else {
        var out;
        out, ch := NormalizeFields(m, v);
        r := if out.Some? then Some(Object(out.value)) else None;
      }
    case _ =>
      r := Some(v);
  }

  /** The body of the loop over the fields, up to the write; `None` when the field is dropped. */
  method NormalizeField(k: string, child: Json) returns (e: Option<Entry>, ghost c: Choice)
    ensures Valid(child, c)
    ensures e == if Kept(k, child) then Some(EntryOf(k, child, Run(child, c))) else None
    decreases child, 2
  {
    c := AnyChoice(child);
    var slot := SlotOf(k, child);
    if slot.Drop? {
      e := None;
    } else if slot.Raw? {
      e := Some(Entry(slot.name, Some(child)));
    } else {
      var n;
      n, c := NormalizeValue(child);
      e := Some(Entry(slot.name, if n.None? then None else Some(Written(slot.name, n.value))));
    }
  }

  /** The choice `c` for the child `k`, everything else as it was. */
  ghost function WithKid(m: map<string, Json>, v: Json, ch: Choice, k: string, c: Choice): (r: Choice)
    requires v == Object(m) && Valid(v, ch) && k in m && Valid(m[k], c)
    ensures Valid(v, r)
    ensures forall j :: j in RunEntries(m, r, v) && j != k ==> RunEntries(m, r, v)[j] == RunEntries(m, ch, v)[j]
    ensures k in RunEntries(m, r, v) ==> RunEntries(m, r, v)[k] == EntryOf(k, m[k], Run(m[k], c))
    ensures RunEntries(m, r, v).Keys == RunEntries(m, ch, v).Keys
  {
    ch.(kids := ch.kids[k := c])
  }

  /** What the loop writes for one field. */
  function Next(out: map<string, Json>, e: Option<Entry>): Option<map<string, Json>> {
    if e.None? then Some(out)
    else if e.value.value.None? then None
    else SetCanonical(out, e.value.name, e.value.value.value)
  }

  /** The loop has visited all but `todo`, in the order `visited`. */
  ghost predicate Reached(m: map<string, Json>, v: Json, ch: Choice, visited: seq<string>, todo: set<string>,
                          out: Option<map<string, Json>>)
    requires v == Object(m)
  {
    && todo <= m.Keys && Valid(v, ch) && Permutes(visited, m.Keys - todo)
    && Visit(RunEntries(m, ch, v), visited) == out
  }

  /** The loop of normalizeValue over the fields of an object. */
  method NormalizeFields(m: map<string, Json>, v: Json) returns (r: Option<map<string, Json>>, ghost ch: Choice)
    requires v == Object(m) && IsNode(v)
    ensures Valid(v, ch) && r == Visit(RunEntries(m, ch, v), ch.order)
    decreases v, 0
  {
    ch := AnyChoice(v);
    var out: map<string, Json> := map[];
    var todo := m.Keys;
    ghost var visited: seq<string> := [];
    while todo != {}
      invariant Reached(m, v, ch, visited, todo, Some(out))
    {
      var k :| k in todo;
      var e;
      ghost var c;
      e, c := NormalizeField(k, m[k]);
      ch := Advance(m, v, ch, visited, todo, out, k, c, e);
      todo, visited := todo - {k}, visited + [k];
      var next := Next(out, e);
      if next.None? {
        ch := Completed(m, v, ch, visited, todo);
        r := None;
        return;
      }
      out := next.value;
    }
    ch := Finished(m, v, ch, visited, out);
    r := Some(out);
  }

  lemma Finished(m: map<string, Json>, v: Json, ch0: Choice, visited: seq<string>, out: map<string, Json>)
    returns (ch: Choice)
    requires v == Object(m) && Reached(m, v, ch0, visited, {}, Some(out))
    ensures Valid(v, ch) && Visit(RunEntries(m, ch, v), ch.order) == Some(out)
  {
    assert m.Keys - {} == m.Keys;
    ch := ch0.(order := visited);
    assert RunEntries(m, ch, v) == RunEntries(m, ch0, v);
  }

  lemma PermutesSnoc(visited: seq<string>, keys: set<string>, todo: set<string>, k: string)
    requires Permutes(visited, keys - todo) && k in todo && todo <= keys
    ensures Permutes(visited + [k], keys - (todo - {k}))
  {}

  lemma Advance(m: map<string, Json>, v: Json, ch0: Choice, visited: seq<string>, todo: set<string>,
                out: map<string, Json>, k: string, c: Choice, e: Option<Entry>) returns (ch: Choice)
    requires v == Object(m) && Reached(m, v, ch0, visited, todo, Some(out)) && k in todo
    requires Valid(m[k], c) && e == if Kept(k, m[k]) then Some(EntryOf(k, m[k], Run(m[k], c))) else None
    ensures Reached(m, v, ch, visited + [k], todo - {k}, Next(out, e))
  {
    ch := WithKid(m, v, ch0, k, c);
    var es := RunEntries(m, ch, v);
    PermutesSnoc(visited, m.Keys, todo, k);
    VisitFrame(RunEntries(m, ch0, v), es, visited);
    assert (visited + [k])[..|visited|] == visited;
  }

  /** After a conflict: any order for the fields that were not visited completes the execution. */
  lemma Completed(m: map<string, Json>, v: Json, ch0: Choice, order: seq<string>, todo: set<string>)
    returns (ch: Choice)
    requires v == Object(m) && Valid(v, ch0) && todo <= m.Keys && Permutes(order, m.Keys - todo)
    requires Visit(RunEntries(m, ch0, v), order).None?
    ensures Valid(v, ch) && Visit(RunEntries(m, ch, v), ch.order).None?
  {
    var rest := AnyOrder(todo);
    VisitStopped(RunEntries(m, ch0, v), order, rest);
    assert Elements(rest) == todo;
    PermutesConcat(order, rest, m.Keys);
    ch := ch0.(order := order + rest);
    assert RunEntries(m, ch, v) == RunEntries(m, ch0, v);
  }

  /**
    Normalize on a decoded document: it fails exactly when two spellings of a name conflict,
    whatever orders Go picks.
    */
  method Normalize(v: Json) returns (r: Option<Json>)
    ensures r.Some? <==> Normal(v).Some?
    ensures r.Some? ==> DeepEqual(r.value, Normal(v).value)
    ensures Steady(v) ==> r == Normal(v)
  {
    ghost var ch;
    r, ch := NormalizeValue(v);
    RunIsNormal(v, ch);
    if r.Some? {
      DeepEqualIs(r.value, Normal(v).value);
      if Steady(v) {
        SteadyRun(v, ch);
      }
    }
  }

  /** Normalising one document twice. */
  method NormalizeTwice(v: Json) returns (a: Option<Json>, b: Option<Json>)
    ensures a.Some? <==> b.Some?
    ensures a.Some? ==> DeepEqual(a.value, b.value)
    ensures Steady(v) ==> a == b == Normal(v)
  {
    ghost var x;
    ghost var y;
    a, x := NormalizeValue(v);
    b, y := NormalizeValue(v);
    TwoRunsAgree(v, x, y);
    RunIsNormal(v, x);
    if Normal(v).Some? && Steady(v) {
      SteadyRun(v, x);
      SteadyRun(v, y);
    }
  }
}
