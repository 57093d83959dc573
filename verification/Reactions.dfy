/**
  Reaction counts of notes (`internal/entity/note.go`): merging buffered deltas into note objects that a list may name
  many times, and packing counts under their normal keys. Counts are read as JSON numbers; they are reals here, and
  rounding of floating point is left out. int64 arithmetic wraps.
  */
module Reactions {
  import opened Basics
  import opened Sums

  /** A reactions column: no bytes, bytes that are no object of numbers, or an object. */
  datatype Json = NoBytes | Malformed | Counts(m: map<string, real>)

  type Delta = map<string, int>

  const TWO_63: int := 0x8000_0000_0000_0000
  const TWO_64: int := 0x1_0000_0000_0000_0000

  function Wrap(x: int): (r: int)
    ensures -TWO_63 <= r < TWO_63
    ensures -TWO_63 <= x < TWO_63 ==> r == x
  {
    (x + TWO_63) % TWO_64 - TWO_63
  }

  lemma WrapAdd(x: int, y: int)
    ensures Wrap(Wrap(x) + y) == Wrap(x + y)
  {
    var q := (x + TWO_63) / TWO_64;
    assert Wrap(x) + y == x + y - q * TWO_64;
    ModShift(x + y + TWO_63, -q);
  }

  lemma ModShift(x: int, q: int)
    ensures (x + q * TWO_64) % TWO_64 == x % TWO_64
  {
    var d := x / TWO_64;
    assert x + q * TWO_64 == (d + q) * TWO_64 + x % TWO_64;
  }

  /** int64(v) drops the fraction; what is out of range becomes the least value, as on amd64. */
  function Int64(v: real): int {
    var t := if v >= 0.0 then v.Floor else -((-v).Floor);
    if -TWO_63 <= t < TWO_63 then t else -TWO_63
  }

  /** The fraction is dropped towards zero. */
  lemma Int64Is(v: real)
    requires -(TWO_63 as real) <= v < TWO_63 as real
    ensures v >= 0.0 ==> Int64(v) as real <= v < Int64(v) as real + 1.0
    ensures v <= 0.0 ==> Int64(v) as real - 1.0 < v <= Int64(v) as real
  {}

  predicate Whole(v: real) {
    Int64(v) as real == v
  }

  // ----- merging -----

  function Decoded(j: Json): map<string, int> {
    if j.Counts? then map k | k in j.m :: Int64(j.m[k]) else map[]
  }

  function After(base: map<string, int>, d: Delta, k: string): int
    requires k in d
  {
    Wrap((if k in base then base[k] else 0) + d[k])
  }

  /** Touched keys get their delta and go when they end at zero or below; the others stay. */
  function Merged(base: map<string, int>, d: Delta): map<string, int> {
    map k | k in base.Keys + d.Keys && (k in d ==> After(base, d, k) > 0) ::
      if k in d then After(base, d, k) else base[k]
  }

  function Encoded(m: map<string, int>): Json {
    Counts(map k | k in m :: m[k] as real)
  }

  function MergedJson(j: Json, d: Delta): Json {
    if d == map[] then j else Encoded(Merged(Decoded(j), d))
  }

  method Decode(m: map<string, real>) returns (base: map<string, int>)
    ensures base == Decoded(Counts(m))
  {
    base := map[];
    var todo := m.Keys;
    while todo != {}
      invariant todo <= m.Keys && base.Keys == m.Keys - todo
      invariant forall k :: k in base ==> base[k] == Int64(m[k])
      decreases |todo|
    {
      var k :| k in todo;
      base := base[k := Int64(m[k])];
      todo := todo - {k};
    }
  }

  /** The second loop, in whatever order the map is visited. */
  method AddDeltas(base: map<string, int>, d: Delta) returns (r: map<string, int>)
    ensures r == Merged(base, d)
  {
    r := base;
    var todo := d.Keys;
    while todo != {}
      invariant todo <= d.Keys
      invariant forall k :: k in todo || k !in d ==> (k in r <==> k in base) && (k in r ==> r[k] == base[k])
      invariant forall k :: k in d && k !in todo ==>
                (k in r <==> After(base, d, k) > 0) && (k in r ==> r[k] == After(base, d, k))
      decreases |todo|
    {
      var k :| k in todo;
      var sum := Wrap((if k in r then r[k] else 0) + d[k]);
      r := r[k := sum];
      if sum <= 0 {
        r := r - {k};
      }
      todo := todo - {k};
    }
    SameMap(r, Merged(base, d));
  }

  lemma SameMap(r: map<string, int>, s: map<string, int>)
    requires forall k :: k in r <==> k in s
    requires forall k :: k in r ==> r[k] == s[k]
    ensures r == s
  {}

  method MergeReactionsJson(j: Json, buffered: Delta) returns (r: Json)
    ensures r == MergedJson(j, buffered)
  {
    if buffered == map[] {
      return j;
    }
    var base: map<string, int> := map[];
    if j.Counts? {
      base := Decode(j.m);
    }
    var reactions := AddDeltas(base, buffered);
    if reactions == map[] {
      return Counts(map[]);
    }
    r := Encoded(reactions);
  }

  /** For whole counts and sums in range, key by key: add, drop what is not positive, keep what is not touched. */
  lemma MergedCount(m: map<string, real>, d: Delta, k: string)
    requires d != map[] && (k in m ==> Whole(m[k]))
    requires k in d ==> -TWO_63 <= (if k in m then Int64(m[k]) else 0) + d[k] < TWO_63
    ensures var r := MergedJson(Counts(m), d).m;
            var sum := (if k in m then m[k] else 0.0) + (if k in d then d[k] as real else 0.0);
            if k in d then (k in r <==> sum > 0.0) && (k in r ==> r[k] == sum)
            else (k in r <==> k in m) && (k in r ==> r[k] == m[k])
  {
    var base := Decoded(Counts(m));
    assert k in m ==> base[k] == Int64(m[k]);
  }

  /** Adding is why each object may be merged once only. */
  lemma MergingTwiceDiffers(k: string)
    ensures var d := map[k := 1]; MergedJson(MergedJson(NoBytes, d), d) != MergedJson(NoBytes, d)
  {
    var d := map[k := 1];
    var once := Merged(map[], d);
    assert once[k] == 1;
    var j := MergedJson(NoBytes, d);
    assert j.m[k] == 1.0 && Int64(1.0) == 1;
    assert Decoded(j)[k] == 1;
    assert MergedJson(j, d).m[k] == 2.0;
  }

  /** A note object; `reactions` is the field the merge rewrites. */
  class Note {
    const id: string
    const renote: Note?
    const reply: Note?
    var reactions: Json
  }

  function Objects(notes: seq<Note?>): set<Note> {
    set n: Note | n in notes
  }

  function WithRelations(n: Note?): seq<Note?> {
    if n == null then []
    else [n] + (if n.renote == null then [] else [n.renote]) + (if n.reply == null then [] else [n.reply])
  }

  function Flat(notes: seq<Note?>): seq<Note?> {
    if notes == [] then [] else Flat(notes[..|notes| - 1]) + WithRelations(notes[|notes| - 1])
  }

  /** flattenNotesPlusRelations. */
  method FlattenNotesPlusRelations(notes: seq<Note?>) returns (flat: seq<Note?>)
    ensures flat == Flat(notes)
  {
    flat := [];
    for i := 0 to |notes|
      invariant flat == Flat(notes[..i])
    {
      assert notes[..i + 1][..i] == notes[..i];
      flat := flat + WithRelations(notes[i]);
    }
    assert notes[..|notes|] == notes;
  }

  predicate Near(n: Note?, x: Note?) {
    n != null && (x == n || x == n.renote || x == n.reply)
  }

  lemma WithRelationsHas(n: Note?, x: Note?)
    ensures x in WithRelations(n) <==> x != null && Near(n, x)
  {}

  /** The notes of the list, what they renote and what they reply to, and nothing else. */
  lemma {:induction false} FlatHasExactly(notes: seq<Note?>, x: Note?)
    ensures x in Flat(notes) <==> x != null && exists i :: 0 <= i < |notes| && Near(notes[i], x)
  {
    if notes == [] {
    } else {
      var init, last := notes[..|notes| - 1], notes[|notes| - 1];
      FlatHasExactly(init, x);
      WithRelationsHas(last, x);
      if x in Flat(init) {
        var i :| 0 <= i < |init| && Near(init[i], x);
        assert Near(notes[i], x);
      }
      if x != null && exists i :: 0 <= i < |notes| && Near(notes[i], x) {
        var i :| 0 <= i < |notes| && Near(notes[i], x);
        assert i < |init| ==> Near(init[i], x);
      }
    }
  }

  /** The ids asked for: each once, in order of first appearance, none empty. */
  function Ids(notes: seq<Note?>): (ids: seq<string>)
    ensures forall x :: x in ids <==> x != "" && exists n: Note :: n in notes && n.id == x
    ensures forall i, j :: 0 <= i < j < |ids| ==> ids[i] != ids[j]
  {
    if notes == [] then []
    else
      var n := notes[|notes| - 1];
      var ids := Ids(notes[..|notes| - 1]);
      assert notes == notes[..|notes| - 1] + [n];
      if n == null || n.id == "" || n.id in ids then ids else ids + [n.id]
  }

  method CollectIds(notes: seq<Note?>) returns (ids: seq<string>)
    ensures ids == Ids(notes)
  {
    ids := [];
    var seen: set<string> := {};
    for i := 0 to |notes|
      invariant ids == Ids(notes[..i]) && seen == set x | x in ids
    {
      assert notes[..i + 1][..i] == notes[..i];
      var n := notes[i];
      if n != null && n.id != "" && n.id !in seen {
        seen := seen + {n.id};
        ids := ids + [n.id];
      }
    }
    assert notes[..|notes|] == notes;
  }

  type Reader = seq<string> -> Option<map<string, Delta>>

  /** The deltas the merge works with; none when there is no reader, no id or no answer. */
  function Deltas(reader: Option<Reader>, ids: seq<string>): map<string, Delta> {
    if reader.None? || ids == [] then map[]
    else
      var d := reader.value(ids);
      if d.None? then map[] else d.value
  }

  function Applied(j: Json, id: string, deltas: map<string, Delta>): Json {
    if id in deltas then MergedJson(j, deltas[id]) else j
  }

  /** However often an object is listed and whatever the objects share, its delta is applied once. */
  method MergeBufferedReactions(notes: seq<Note?>, reader: Option<Reader>)
    modifies Objects(notes)
    ensures forall n: Note :: n in notes ==> n.reactions == Applied(old(n.reactions), n.id, Deltas(reader, Ids(notes)))
  {
    if reader.None? || |notes| == 0 {
      return;
    }
    var ids := CollectIds(notes);
    if |ids| == 0 {
      return;
    }
    var answer := reader.value(ids);
    if answer.None? || answer.value == map[] {
      return;
    }
    var deltas := answer.value;
    var applied: set<Note> := {};
    for i := 0 to |notes|
      invariant applied == Objects(notes[..i])
      invariant forall n: Note :: n in notes ==>
                  n.reactions == if n in applied then Applied(old(n.reactions), n.id, deltas) else old(n.reactions)
    {
      assert notes[..i + 1] == notes[..i] + [notes[i]];
      var n := notes[i];
      if n != null && n !in applied {
        applied := applied + {n};
        if n.id in deltas && deltas[n.id] != map[] {
          n.reactions := MergeReactionsJson(n.reactions, deltas[n.id]);
        }
      }
    }
    assert notes[..|notes|] == notes;
  }

  // ----- normal keys -----

  const LEGACIES: map<string, string> := map[
    "like" := "\U{1F44D}", "love" := "\U{2764}", "laugh" := "\U{1F606}", "hmm" := "\U{1F914}",
    "surprise" := "\U{1F62E}", "congrats" := "\U{1F389}", "angry" := "\U{1F4A2}", "confused" := "\U{1F625}",
    "rip" := "\U{1F607}", "pudding" := "\U{1F36E}", "star" := "\U{2B50}"]

  predicate NameChar(c: char) {
    '0' <= c <= '9' || 'A' <= c <= 'Z' || 'a' <= c <= 'z' || c == '_' || c == '+' || c == '-'
  }

  /** `^:([\w+\-]+):$`. */
  predicate LocalEmoji(key: string) {
    |key| >= 3 && key[0] == ':' && key[|key| - 1] == ':' && forall i :: 1 <= i < |key| - 1 ==> NameChar(key[i])
  }

  function NormalizeReactionKey(key: string): string {
    if LocalEmoji(key) then key[..|key| - 1] + "@.:" else key
  }

  /** normalizeReactionWithLegacy. */
  function Norm(raw: string): string {
    NormalizeReactionKey(if raw in LEGACIES then LEGACIES[raw] else raw)
  }

  /** The text reactions of old count as their emoji. */
  lemma LegacyKeys()
    ensures Norm("like") == "\U{1F44D}" && Norm("love") == "\U{2764}" && Norm("laugh") == "\U{1F606}"
    ensures Norm("hmm") == "\U{1F914}" && Norm("surprise") == "\U{1F62E}" && Norm("congrats") == "\U{1F389}"
    ensures Norm("angry") == "\U{1F4A2}" && Norm("confused") == "\U{1F625}" && Norm("rip") == "\U{1F607}"
    ensures Norm("pudding") == "\U{1F36E}" && Norm("star") == "\U{2B50}"
  {}

  predicate EmojiName(name: string) {
    name != "" && forall i :: 0 <= i < |name| ==>
                    'a' <= name[i] <= 'z' || 'A' <= name[i] <= 'Z' || '0' <= name[i] <= '9' || name[i] in "_+-"
  }

  /** A local custom emoji gets the local host. */
  lemma CustomKeys(name: string)
    requires EmojiName(name)
    ensures Norm(":" + name + ":") == ":" + name + "@.:"
  {
    var key := ":" + name + ":";
    forall i | 1 <= i < |key| - 1 ensures NameChar(key[i]) {
      assert key[i] == name[i - 1];
    }
    ColonIsNoLegacy(key);
    assert key[..|key| - 1] == ":" + name;
  }

  /** All other keys stay as they are: emoji, and custom emoji of other servers. */
  lemma OtherKeys(key: string)
    requires key !in {"like", "love", "laugh", "hmm", "surprise", "congrats", "angry", "confused", "rip", "pudding",
                      "star"}
    requires forall name :: EmojiName(name) ==> key != ":" + name + ":"
    ensures Norm(key) == key
  {
    if LocalEmoji(key) {
      var name := NameBetween(key);
    }
  }

  lemma NameBetween(key: string) returns (name: string)
    requires LocalEmoji(key)
    ensures EmojiName(name) && key == ":" + name + ":"
  {
    name := key[1..|key| - 1];
    forall i | 0 <= i < |name| ensures NameChar(name[i]) {
      assert name[i] == key[i + 1];
    }
  }

  /** A normal key is its own normal key. */
  lemma NormIdempotent(raw: string)
    ensures Norm(Norm(raw)) == Norm(raw)
  {
    var u := if raw in LEGACIES then LEGACIES[raw] else raw;
    if raw in LEGACIES {
      assert |u| == 1 && u[0] > '\U{80}';
      ShortIsNoLegacy(u);
    } else if LocalEmoji(u) {
      var n := Norm(raw);
      assert n[|n| - 3] == '@' && n[0] == ':';
      ColonIsNoLegacy(n);
    }
  }

  lemma ShortIsNoLegacy(u: string)
    requires |u| == 1
    ensures u !in LEGACIES
  {}

  lemma ColonIsNoLegacy(n: string)
    requires n != "" && n[0] == ':'
    ensures n !in LEGACIES
  {}

  // ----- packing -----

  function Value<K>(m: map<K, real>): K -> real {
    k => if k in m then m[k] else 0.0
  }

  function Part<K>(m: map<K, real>): K -> int {
    k => if k in m then Int64(m[k]) else 0
  }

  function Fraction<K>(m: map<K, real>): K -> real {
    k => if k in m then m[k] - Int64(m[k]) as real else 0.0
  }

  function Image<K>(norm: K -> K, keys: set<K>): set<K> {
    set k | k in keys :: norm(k)
  }

  /** The keys of `keys` that pack under `c`. */
  function Group<K>(norm: K -> K, keys: set<K>, c: K): set<K> {
    set k | k in keys && norm(k) == c
  }

  /** The count that packs under `c`. */
  ghost function CountOf<K>(norm: K -> K, m: map<K, real>, keys: set<K>, c: K): real {
    RealSum(Value(m), Group(norm, keys, c))
  }

  /** The sum of the whole parts of the raw counts. */
  ghost function Total<K>(m: map<K, real>, keys: set<K>): int {
    Wrap(Sum(Part(m), keys))
  }

  ghost function Together<K>(m: map<K, real>): real {
    RealSum(Value(m), m.Keys)
  }

  /** Every normal key of `keys`, and no other, has the sum of the counts that share it. */
  ghost predicate IsPacked<K>(norm: K -> K, m: map<K, real>, keys: set<K>, p: map<K, real>) {
    p.Keys == Image(norm, keys) && forall c :: c in p ==> p[c] == CountOf(norm, m, keys, c)
  }

  lemma PackedUnique<K>(norm: K -> K, m: map<K, real>, keys: set<K>, p: map<K, real>, q: map<K, real>)
    requires IsPacked(norm, m, keys, p) && IsPacked(norm, m, keys, q)
    ensures p == q
  {
    assert p.Keys == q.Keys;
    assert forall c :: c in p ==> p[c] == q[c];
  }

  function Plus<K>(m: map<K, real>, c: K, v: real): map<K, real> {
    m[c := (if c in m then m[c] else 0.0) + v]
  }

  lemma GroupAdd<K>(norm: K -> K, keys: set<K>, k: K, c: K)
    requires k !in keys
    ensures Group(norm, keys + {k}, c) == if norm(k) == c then Group(norm, keys, c) + {k} else Group(norm, keys, c)
  {}

  lemma ImageAdd<K>(norm: K -> K, keys: set<K>, k: K)
    ensures Image(norm, keys + {k}) == Image(norm, keys) + {norm(k)}
  {}

  lemma CountAdd<K>(norm: K -> K, m: map<K, real>, keys: set<K>, k: K, c: K)
    requires k in m && k !in keys
    ensures CountOf(norm, m, keys + {k}, c) == CountOf(norm, m, keys, c) + (if norm(k) == c then m[k] else 0.0)
    ensures c !in Image(norm, keys) ==> CountOf(norm, m, keys, c) == 0.0
  {
    GroupAdd(norm, keys, k, c);
    if norm(k) == c {
      RealSumAdd(Value(m), Group(norm, keys, c), k);
    }
    if c !in Image(norm, keys) {
      assert Group(norm, keys, c) == {};
    }
  }

  /** One more key. */
  lemma PackedAdd<K>(norm: K -> K, m: map<K, real>, keys: set<K>, k: K, p: map<K, real>)
    requires k in m && k !in keys && IsPacked(norm, m, keys, p)
    ensures IsPacked(norm, m, keys + {k}, Plus(p, norm(k), m[k]))
  {
    var more, plus := keys + {k}, Plus(p, norm(k), m[k]);
    ImageAdd(norm, keys, k);
    forall c | c in plus ensures plus[c] == CountOf(norm, m, more, c) {
      CountAdd(norm, m, keys, k, c);
    }
  }

  lemma TotalAdd<K>(m: map<K, real>, keys: set<K>, k: K)
    requires k in m && k !in keys
    ensures Total(m, keys + {k}) == Wrap(Total(m, keys) + Int64(m[k]))
  {
    SumAdd(Part(m), keys, k);
    WrapAdd(Sum(Part(m), keys), Int64(m[k]));
  }

  lemma NothingPacked<K>(norm: K -> K, m: map<K, real>)
    ensures Total(m, {}) == 0 && IsPacked(norm, m, {}, map[])
  {}

  /** What packReactions returns for a column, up to the order of keys. */
  ghost predicate PacksTo(norm: string -> string, raw: Json, packed: Json, total: int) {
    match raw
    case NoBytes => packed == Counts(map[]) && total == 0
    case Malformed => packed == raw && total == 0
    case Counts(m) => packed.Counts? && IsPacked(norm, m, m.Keys, packed.m) && total == Total(m, m.Keys)
  }

  /** packReactions, in whatever order the map is visited. */
  method PackReactions(norm: string -> string, raw: Json) returns (packed: Json, total: int)
    ensures PacksTo(norm, raw, packed, total)
  {
    if raw.NoBytes? {
      return Counts(map[]), 0;
    }
    if raw.Malformed? {
      return raw, 0;
    }
    var normalized;
    normalized, total := Pack(norm, raw.m);
    packed := Counts(normalized);
  }

  lemma PackStep<K>(norm: K -> K, m: map<K, real>, keys: set<K>, k: K, v: real, total: int, p: map<K, real>)
    requires k in m && v == m[k] && k !in keys && total == Total(m, keys) && IsPacked(norm, m, keys, p)
    ensures Wrap(total + Int64(v)) == Total(m, keys + {k}) && IsPacked(norm, m, keys + {k}, Plus(p, norm(k), v))
  {
    TotalAdd(m, keys, k);
    PackedAdd(norm, m, keys, k, p);
  }

  method Pack<K(==)>(norm: K -> K, m: map<K, real>) returns (normalized: map<K, real>, total: int)
    ensures IsPacked(norm, m, m.Keys, normalized) && total == Total(m, m.Keys)
  {
    total, normalized := 0, map[];
    NothingPacked(norm, m);
    var todo := m.Keys;
    ghost var done: set<K> := {};
    while todo != {}
      invariant todo <= m.Keys && done == m.Keys - todo
      invariant total == Total(m, done) && IsPacked(norm, m, done, normalized)
      decreases |todo|
    {
      var k :| k in todo;
      total, normalized := PackOne(norm, m, done, k, m[k], total, normalized);
      todo, done := todo - {k}, done + {k};
    }
    assert done == m.Keys;
  }

  method PackOne<K(==)>(norm: K -> K, ghost m: map<K, real>, ghost done: set<K>, k: K, v: real, total: int,
                        p: map<K, real>)
    returns (total': int, p': map<K, real>)
    requires k in m && v == m[k] && k !in done && total == Total(m, done) && IsPacked(norm, m, done, p)
    ensures total' == Total(m, done + {k}) && IsPacked(norm, m, done + {k}, p')
  {
    PackStep(norm, m, done, k, v, total, p);
    total' := Wrap(total + Int64(v));
    p' := Plus(p, norm(k), v);
  }

  /** Adding to one entry adds to the sum. */
  lemma PlusSum<K>(before: map<K, real>, c: K, v: real)
    ensures Together(Plus(before, c, v)) == Together(before) + v
  {
    var after := Plus(before, c, v);
    var others := before.Keys - {c};
    RealSumSame(Value(before), Value(after), others);
    RealSumAdd(Value(after), others, c);
    assert after.Keys == others + {c};
    if c in before {
      RealSumAdd(Value(before), others, c);
      assert before.Keys == others + {c};
    } else {
      assert before.Keys == others;
    }
  }

  lemma {:induction false} SomePacking<K>(norm: K -> K, m: map<K, real>, keys: set<K>) returns (p: map<K, real>)
    requires keys <= m.Keys
    ensures IsPacked(norm, m, keys, p) && Together(p) == RealSum(Value(m), keys)
    decreases |keys|
  {
    p := map[];
    if keys == {} {
    } else {
      var k :| k in keys;
      var rest := keys - {k};
      var q := SomePacking(norm, m, rest);
      PackedAdd(norm, m, rest, k, q);
      assert rest + {k} == keys;
      p := Plus(q, norm(k), m[k]);
      PlusSum(q, norm(k), m[k]);
      RealSumAdd(Value(m), rest, k);
    }
  }

  /** Folding keys together conserves the sum of the counts. */
  lemma PackingConserves<K>(norm: K -> K, m: map<K, real>, p: map<K, real>)
    requires IsPacked(norm, m, m.Keys, p)
    ensures Together(p) == Together(m)
  {
    var q := SomePacking(norm, m, m.Keys);
    PackedUnique(norm, m, m.Keys, p, q);
  }

  /** The total is the sum of the packed counts exactly when the fractions of the raw counts add up to nothing. */
  lemma TotalIsSumIff(norm: string -> string, m: map<string, real>, packed: Json, total: int)
    requires -TWO_63 <= Sum(Part(m), m.Keys) < TWO_63 && PacksTo(norm, Counts(m), packed, total)
    ensures total as real == Together(packed.m) <==> RealSum(Fraction(m), m.Keys) == 0.0
  {
    PackingConserves(norm, m, packed.m);
    SumSplits(Value(m), Part(m), Fraction(m), m.Keys);
  }

  lemma {:induction false} NoFractions<K>(m: map<K, real>, keys: set<K>)
    requires keys <= m.Keys && forall k :: k in keys ==> Whole(m[k])
    ensures RealSum(Fraction(m), keys) == 0.0
    decreases |keys|
  {
    if keys == {} {
    } else {
      var k :| k in keys;
      RealSumRemove(Fraction(m), keys, k);
      NoFractions(m, keys - {k});
    }
  }

  /** For whole counts the total, the raw counts and the packed counts all come to the same sum. */
  lemma WholeCountsAddUp(norm: string -> string, m: map<string, real>, packed: Json, total: int)
    requires -TWO_63 <= Sum(Part(m), m.Keys) < TWO_63 && forall k :: k in m ==> Whole(m[k])
    requires PacksTo(norm, Counts(m), packed, total)
    ensures total as real == Together(m) == Together(packed.m)
  {
    NoFractions(m, m.Keys);
    TotalIsSumIff(norm, m, packed, total);
    PackingConserves(norm, m, packed.m);
  }

  /** Two halves that meet under one key count once packed and not in the total. */
  lemma HalvesAreNotTotalled(norm: string -> string, a: string, b: string, packed: Json, total: int)
    requires a != b && norm(a) == norm(b) && PacksTo(norm, Counts(map[a := 1.5, b := 1.5]), packed, total)
    ensures total == 2 && packed == Counts(map[norm(a) := 3.0])
  {
    var m := map[a := 1.5, b := 1.5];
    assert {} + {a} == {a} && {a} + {b} == m.Keys;
    TotalAdd(m, {}, a);
    TotalAdd(m, {a}, b);
    assert Int64(1.5) == 1;
    PackedAdd(norm, m, {}, a, map[]);
    PackedAdd(norm, m, {a}, b, Plus(map[], norm(a), 1.5));
    PackedUnique(norm, m, m.Keys, packed.m, Plus(Plus(map[], norm(a), 1.5), norm(b), 1.5));
  }

  /** Packed keys are normal, so packing again changes nothing. */
  lemma PackingTwice(m: map<string, real>, p: map<string, real>)
    requires IsPacked(Norm, m, m.Keys, p)
    ensures IsPacked(Norm, p, p.Keys, p)
  {
    forall c | c in p ensures Norm(c) == c {
      var k :| k in m && Norm(k) == c;
      NormIdempotent(k);
    }
    NormalIsFixed(Norm, p);
  }

  lemma NormalIsFixed<K>(norm: K -> K, p: map<K, real>)
    requires forall c :: c in p ==> norm(c) == c
    ensures IsPacked(norm, p, p.Keys, p)
  {
    forall c | c in p ensures p[c] == CountOf(norm, p, p.Keys, c) {
      assert Group(norm, p.Keys, c) == {c};
      RealSumRemove(Value(p), {c}, c);
      assert {c} - {c} == {};
    }
  }
}
