/**
  The remote-host backfill: BackfillHostColumnBatch
  (`internal/maintenance/host_backfill.go`) driven to completion by the loop of
  `internal/cli/backfill/remote_host.go`.

  The column that pagination runs on can be the very column that is rewritten,
  so rows move ahead of the cursor or behind it while the run goes on. The
  database sorts by its collation, the driver compares cursors byte by byte; the
  two orders are kept apart.
  */
module HostBackfill {
  import opened Basics
  import opened Text

  /** `key` is the keyset column; `group` holds the other columns of the unique constraint. */
  datatype Row = Row(key: string, group: string, host: Option<string>)

  type Rows = map<nat, Row>

  /**
    A column of a table: whether it is its own keyset column, whether a unique
    constraint covers it, the normaliser, and the collation.
    */
  datatype Column = Column(hostKeyed: bool, unique: bool, norm: string -> string, less: (string, string) -> bool)

  ghost predicate StrictOrder(less: (string, string) -> bool) {
    && (forall x :: !less(x, x))
    && (forall x, y, z {:trigger less(x, y), less(y, z)} :: less(x, y) && less(y, z) ==> less(x, z))
    && (forall x, y {:trigger less(x, y), less(y, x)} :: less(x, y) || x == y || less(y, x))
    && (forall x :: x != "" ==> less("", x))
  }

  ghost predicate Idempotent(c: Column) {
    forall h {:trigger c.norm(c.norm(h))} :: c.norm(c.norm(h)) == c.norm(h)
  }

  ghost predicate Sound(c: Column) {
    Idempotent(c) && StrictOrder(c.less)
  }

  /** Two rows that may not hold the same host. */
  predicate SameScope(c: Column, r: Row, q: Row) {
    c.hostKeyed || (c.unique && r.group == q.group)
  }

  ghost predicate Valid(c: Column, rows: Rows) {
    && (c.hostKeyed ==> forall a :: a in rows ==> rows[a].host == Some(rows[a].key))
    && (forall a, b :: a in rows && b in rows && a != b ==> rows[a].key != rows[b].key)
    && (forall a, b :: a in rows && b in rows && a != b && SameScope(c, rows[a], rows[b]) && rows[a].host.Some? ==>
          rows[a].host != rows[b].host)
  }

  /** Another row in the uniqueness group of `a` holds `host`. */
  predicate Held(c: Column, rows: Rows, a: nat, host: string)
    requires a in rows
  {
    exists b :: b in rows && b != a && SameScope(c, rows[a], rows[b]) && rows[b].host == Some(host)
  }

  /** The run looks at this row at all. */
  predicate Scanned(r: Row) {
    r.key != "" && r.host.Some? && r.host.value != ""
  }

  /** Normalised, or its normal form is taken. */
  predicate Settled(c: Column, rows: Rows, a: nat)
    requires a in rows && rows[a].host.Some?
  {
    c.norm(rows[a].host.value) == rows[a].host.value || Held(c, rows, a, c.norm(rows[a].host.value))
  }

  ghost predicate AllSettled(c: Column, rows: Rows) {
    forall a :: a in rows && Scanned(rows[a]) ==> Settled(c, rows, a)
  }

  function Rewritten(c: Column, rows: Rows, a: nat, host: string): Rows
    requires a in rows
  {
    rows[a := Row(if c.hostKeyed then host else rows[a].key, rows[a].group, Some(host))]
  }

  lemma RewriteKeepsValid(c: Column, rows: Rows, a: nat, host: string)
    requires Valid(c, rows) && a in rows && !Held(c, rows, a, host)
    ensures Valid(c, Rewritten(c, rows, a, host))
  {}

  /** A row that is settled stays settled: what holds its normal form is normalised and never rewritten. */
  lemma RewriteKeepsSettled(c: Column, rows: Rows, a: nat, b: nat)
    requires Idempotent(c) && a in rows && b in rows && rows[a].host.Some? && rows[b].host.Some?
    requires c.norm(rows[a].host.value) != rows[a].host.value
    requires Settled(c, rows, b) && a != b
    ensures Settled(c, Rewritten(c, rows, a, c.norm(rows[a].host.value)), b)
  {
    var n := c.norm(rows[b].host.value);
    if Held(c, rows, b, n) {
      var d :| d in rows && d != b && SameScope(c, rows[b], rows[d]) && rows[d].host == Some(n);
      assert d != a;
      var rows' := Rewritten(c, rows, a, c.norm(rows[a].host.value));
      assert d in rows' && rows'[d] == rows[d];
    }
  }

  /** One row of the SELECT. */
  datatype Selected = Selected(row: nat, key: string, host: string)

  function RowsOf(page: seq<Selected>): set<nat> {
    set i | 0 <= i < |page| :: page[i].row
  }

  /** The rows the WHERE clause admits. */
  function Candidates(c: Column, rows: Rows, from: string): set<nat> {
    set a | a in rows && Scanned(rows[a]) && c.less(from, rows[a].key)
  }

  /** The first candidates in key order, as they are stored. */
  ghost predicate IsPage(c: Column, rows: Rows, from: string, page: seq<Selected>) {
    && (forall i :: 0 <= i < |page| ==> page[i].row in rows && page[i].row in Candidates(c, rows, from)
                                        && rows[page[i].row].key == page[i].key
                                        && rows[page[i].row].host == Some(page[i].host))
    && (forall i, j :: 0 <= i < j < |page| ==> c.less(page[i].key, page[j].key))
    && (if page == [] then Candidates(c, rows, from) == {}
        else forall a :: a in Candidates(c, rows, from) - RowsOf(page) ==> c.less(page[|page| - 1].key, rows[a].key))
  }

  /** The first of the rows in key order. */
  predicate IsLeast(c: Column, rows: Rows, todo: set<nat>, m: nat)
    requires todo <= rows.Keys
  {
    m in todo && forall a :: a in todo && a != m ==> c.less(rows[m].key, rows[a].key)
  }

  lemma {:induction false} LeastKey(c: Column, rows: Rows, todo: set<nat>) returns (m: nat)
    requires StrictOrder(c.less) && todo != {} && todo <= rows.Keys
    requires forall a, b :: a in todo && b in todo && a != b ==> rows[a].key != rows[b].key
    ensures IsLeast(c, rows, todo, m)
    decreases |todo|
  {
    m :| m in todo;
    if todo == {m} {
    } else {
      var n := LeastKey(c, rows, todo - {m});
      assert c.less(rows[n].key, rows[m].key) || c.less(rows[m].key, rows[n].key);
      if c.less(rows[n].key, rows[m].key) {
        m := n;
      }
    }
  }

  /** A page under construction: `todo` are the candidates not on it yet, all of them later. */
  ghost predicate PageSoFar(c: Column, rows: Rows, all: set<nat>, todo: set<nat>, page: seq<Selected>) {
    && todo <= all && all - RowsOf(page) <= todo
    && (forall i :: 0 <= i < |page| ==> page[i].row in all && page[i].row in rows
                                        && rows[page[i].row].key == page[i].key
                                        && rows[page[i].row].host == Some(page[i].host))
    && (forall i, j :: 0 <= i < j < |page| ==> c.less(page[i].key, page[j].key))
    && (page != [] ==> forall a :: a in todo && a in rows ==> c.less(page[|page| - 1].key, rows[a].key))
  }

  lemma RowsOfSnoc(page: seq<Selected>, s: Selected)
    ensures RowsOf(page + [s]) == RowsOf(page) + {s.row}
  {
    var more := page + [s];
    forall a | a in RowsOf(page) ensures a in RowsOf(more) {
      var i :| 0 <= i < |page| && page[i].row == a;
      assert more[i].row == a;
    }
    assert more[|page|].row == s.row;
  }

  lemma PageSnoc(c: Column, rows: Rows, all: set<nat>, todo: set<nat>, page: seq<Selected>, a: nat)
    requires Sound(c) && PageSoFar(c, rows, all, todo, page) && all <= rows.Keys && a in todo && rows[a].host.Some?
    requires todo <= rows.Keys && IsLeast(c, rows, todo, a)
    ensures PageSoFar(c, rows, all, todo - {a}, page + [Selected(a, rows[a].key, rows[a].host.value)])
  {
    var s := Selected(a, rows[a].key, rows[a].host.value);
    RowsOfSnoc(page, s);
    var more := page + [s];
    forall i, j | 0 <= i < j < |more| ensures c.less(more[i].key, more[j].key) {
      if j == |page| {
        var last := page[|page| - 1].key;
        assert c.less(last, s.key);
        assert i < |page| - 1 ==> c.less(page[i].key, last);
      }
    }
  }

  lemma {:induction false} RowsOfSize(page: seq<Selected>)
    requires forall i, j :: 0 <= i < j < |page| ==> page[i].row != page[j].row
    ensures |RowsOf(page)| == |page|
  {
    if page == [] {
      assert RowsOf(page) == {};
    } else {
      var init, last := page[..|page| - 1], page[|page| - 1];
      RowsOfSize(init);
      RowsOfSnoc(init, last);
      assert page == init + [last] && last.row !in RowsOf(init);
    }
  }

  function Min(a: nat, b: nat): nat {
    if a < b then a else b
  }

  /** The candidates up to a key. */
  function UpTo(c: Column, rows: Rows, from: string, key: string): set<nat> {
    set a | a in Candidates(c, rows, from) && !c.less(key, rows[a].key)
  }

  /** A page of `limit` rows after `from` ends at this key. */
  ghost predicate IsPageEnd(c: Column, rows: Rows, from: string, limit: nat, key: string) {
    && (exists a :: a in Candidates(c, rows, from) && rows[a].key == key)
    && |UpTo(c, rows, from, key)| == Min(limit, |Candidates(c, rows, from)|)
  }

  /** A page has one end. */
  lemma PageEndUnique(c: Column, rows: Rows, from: string, limit: nat, key: string, other: string)
    requires Sound(c) && IsPageEnd(c, rows, from, limit, key) && IsPageEnd(c, rows, from, limit, other)
    ensures key == other
  {
    if c.less(key, other) {
      UpToGrows(c, rows, from, key, other);
    } else if c.less(other, key) {
      UpToGrows(c, rows, from, other, key);
    }
  }

  lemma UpToGrows(c: Column, rows: Rows, from: string, key: string, later: string)
    requires Sound(c) && c.less(key, later) && exists a :: a in Candidates(c, rows, from) && rows[a].key == later
    ensures |UpTo(c, rows, from, key)| < |UpTo(c, rows, from, later)|
  {
    var a :| a in Candidates(c, rows, from) && rows[a].key == later;
    var small, large := UpTo(c, rows, from, key), UpTo(c, rows, from, later);
    assert small <= large;
    assert a in large && a !in small;
    SubsetSize(small + {a}, large);
  }

  lemma FullPageEnds(c: Column, rows: Rows, from: string, limit: nat, page: seq<Selected>)
    requires Sound(c) && Valid(c, rows) && IsPage(c, rows, from, page) && page != []
    requires |page| == Min(limit, |Candidates(c, rows, from)|)
    ensures IsPageEnd(c, rows, from, limit, page[|page| - 1].key)
  {
    var last := page[|page| - 1];
    PageDistinct(c, rows, from, page);
    RowsOfSize(page);
    forall a ensures a in UpTo(c, rows, from, last.key) <==> a in RowsOf(page) {
      if a in RowsOf(page) {
        var i :| 0 <= i < |page| && page[i].row == a;
        assert i < |page| - 1 ==> c.less(page[i].key, last.key);
      }
    }
    assert UpTo(c, rows, from, last.key) == RowsOf(page);
    assert last.row in Candidates(c, rows, from) && rows[last.row].key == last.key;
  }

  /** Page after page from the start: consecutive cursors of a run whose keys do not move. */
  ghost predicate Chain(c: Column, rows: Rows, limit: nat, ends: seq<string>) {
    ends != [] && ends[0] == "" && forall i :: 0 < i < |ends| ==> IsPageEnd(c, rows, ends[i - 1], limit, ends[i])
  }

  /** All of them, to the last page. */
  ghost predicate FullChain(c: Column, rows: Rows, limit: nat, ends: seq<string>) {
    Chain(c, rows, limit, ends) && Candidates(c, rows, ends[|ends| - 1]) == {}
  }

  predicate ByteOrdered(ends: seq<string>) {
    forall i :: 0 < i < |ends| ==> Less(ends[i - 1], ends[i])
  }

  lemma {:induction false} ChainIsPrefix(c: Column, rows: Rows, limit: nat, ends: seq<string>, full: seq<string>)
    requires Sound(c) && Chain(c, rows, limit, ends) && FullChain(c, rows, limit, full)
    ensures |ends| <= |full| && ends == full[..|ends|]
  {
    if |ends| == 1 {
      assert ends == [""] && full[..1] == [""];
    } else {
      var n := |ends| - 1;
      ChainIsPrefix(c, rows, limit, ends[..n], full);
      assert ends[n - 1] == full[n - 1];
      assert IsPageEnd(c, rows, ends[n - 1], limit, ends[n]);
      assert n < |full|;
      assert IsPageEnd(c, rows, full[n - 1], limit, full[n]);
      PageEndUnique(c, rows, ends[n - 1], limit, ends[n], full[n]);
      assert ends == ends[..n] + [ends[n]] && full[..n + 1] == full[..n] + [full[n]];
    }
  }

  /** The candidates in two parts, one before the other. */
  ghost predicate Parts(c: Column, rows: Rows, from: string, todo: set<nat>, done: set<nat>) {
    && Candidates(c, rows, from) == todo + done && todo !! done
    && forall a, b :: a in done && b in todo && a in rows && b in rows ==> c.less(rows[a].key, rows[b].key)
  }

  lemma PartsNext(c: Column, rows: Rows, from: string, todo: set<nat>, done: set<nat>) returns (m: nat)
    requires Sound(c) && Valid(c, rows) && Parts(c, rows, from, todo, done) && todo != {}
    ensures m in todo && m in rows && Parts(c, rows, from, todo - {m}, done + {m})
    ensures UpTo(c, rows, from, rows[m].key) == done + {m}
    ensures |done + {m}| == |done| + 1 && |todo - {m}| < |todo|
  {
    m := LeastKey(c, rows, todo);
  }

  /** A cursor's page exists as long as there are candidates. */
  lemma {:induction false} SomePageEnd(c: Column, rows: Rows, from: string, limit: nat, todo: set<nat>, done: set<nat>)
    returns (key: string)
    requires Sound(c) && Valid(c, rows) && Parts(c, rows, from, todo, done) && todo != {} && |done| < limit
    ensures IsPageEnd(c, rows, from, limit, key)
    decreases |todo|
  {
    var m := PartsNext(c, rows, from, todo, done);
    var rest := todo - {m};
    if |done| + 1 < limit && rest != {} {
      key := SomePageEnd(c, rows, from, limit, rest, done + {m});
    } else {
      key := rows[m].key;
      EndsHere(c, rows, from, limit, todo, done, m);
    }
  }

  lemma EndsHere(c: Column, rows: Rows, from: string, limit: nat, todo: set<nat>, done: set<nat>, m: nat)
    requires Candidates(c, rows, from) == todo + done && todo !! done && m in todo && m in rows
    requires UpTo(c, rows, from, rows[m].key) == done + {m} && |done| < limit && (todo == {m} || |done| + 1 == limit)
    ensures IsPageEnd(c, rows, from, limit, rows[m].key)
  {
    SubsetSize(done + {m}, Candidates(c, rows, from));
    assert todo == {m} ==> Candidates(c, rows, from) == done + {m};
  }

  lemma FewerAfter(c: Column, rows: Rows, from: string, limit: nat, key: string)
    requires Sound(c) && IsPageEnd(c, rows, from, limit, key)
    ensures |Candidates(c, rows, key)| < |Candidates(c, rows, from)|
  {
    var a :| a in Candidates(c, rows, from) && rows[a].key == key;
    var rest := Candidates(c, rows, key);
    assert a !in rest && rest <= Candidates(c, rows, from);
    SubsetSize(rest + {a}, Candidates(c, rows, from));
  }

  lemma {:induction false} ExtendChain(c: Column, rows: Rows, limit: nat, ends: seq<string>) returns (full: seq<string>)
    requires Sound(c) && Valid(c, rows) && limit > 0 && Chain(c, rows, limit, ends)
    ensures FullChain(c, rows, limit, full)
    decreases |Candidates(c, rows, ends[|ends| - 1])|
  {
    var from := ends[|ends| - 1];
    if Candidates(c, rows, from) == {} {
      full := ends;
    } else {
      var key := SomePageEnd(c, rows, from, limit, Candidates(c, rows, from), {});
      FewerAfter(c, rows, from, limit, key);
      ChainSnoc(c, rows, limit, ends, key);
      full := ExtendChain(c, rows, limit, ends + [key]);
    }
  }

  /** The page ends of a table are there to be looked at before a run. */
  lemma FullChainExists(c: Column, rows: Rows, limit: nat) returns (full: seq<string>)
    requires Sound(c) && Valid(c, rows) && limit > 0
    ensures FullChain(c, rows, limit, full)
  {
    full := ExtendChain(c, rows, limit, [""]);
  }

  /** Every row at or before the cursor that the run looks at is settled. */
  ghost predicate SettledUpTo(c: Column, rows: Rows, cursor: string) {
    forall a :: a in rows && Scanned(rows[a]) && !c.less(cursor, rows[a].key) ==> Settled(c, rows, a)
  }

  /** The row has a host and is settled. */
  predicate Fine(c: Column, rows: Rows, a: nat) {
    a in rows && rows[a].host.Some? && Settled(c, rows, a)
  }

  function Changed(before: Rows, after: Rows): set<nat> {
    set a | a in before && a in after && after[a] != before[a]
  }

  /** Only rows that are not settled change, each to its normal form, and settled rows stay settled. */
  ghost predicate Repairs(c: Column, before: Rows, after: Rows) {
    && before.Keys == after.Keys
    && (forall a :: Fine(c, before, a) ==> Fine(c, after, a))
    && forall a :: a in Changed(before, after) ==>
         && Scanned(before[a]) && !Fine(c, before, a)
         && after[a] == Rewritten(c, before, a, c.norm(before[a].host.value))[a]
         && after[a].host == Some(c.norm(before[a].host.value))
  }

  /** The keys a run can ever meet. */
  ghost predicate KeysWithin(c: Column, rows: Rows, keys: set<string>) {
    forall a :: a in rows ==> rows[a].key in keys && (rows[a].host.Some? ==> c.norm(rows[a].host.value) in keys)
  }

  /** How many of the first `n` rows of the page are not in normal form. */
  function OffCount(c: Column, page: seq<Selected>, n: nat): nat
    requires n <= |page|
  {
    if n == 0 then 0
    else OffCount(c, page, n - 1) + if c.norm(page[n - 1].host) != page[n - 1].host then 1 else 0
  }

  /** Which they are. */
  function OffRows(c: Column, page: seq<Selected>, n: nat): set<nat>
    requires n <= |page|
  {
    set j | 0 <= j < n && c.norm(page[j].host) != page[j].host :: page[j].row
  }

  /** The rows of the table after `from` and up to `key` that are not in normal form. */
  function OffUpTo(c: Column, rows: Rows, from: string, key: string): set<nat> {
    set a | a in UpTo(c, rows, from, key) && c.norm(rows[a].host.value) != rows[a].host.value
  }

  /**
    The counters after `n` rows of the page: every row that is not in normal form is
    either rewritten or counted as a conflict.
    */
  ghost predicate Tallied(c: Column, before: Rows, rows: Rows, page: seq<Selected>, n: nat, res: BatchResult) {
    && n <= |page| && res.scanned == n && (n > 0 ==> res.lastKey == page[n - 1].key)
    && res.updated == |Changed(before, rows)|
    && res.updated + res.conflicts == OffCount(c, page, n)
  }

  lemma OffRowsNext(c: Column, page: seq<Selected>, n: nat)
    requires n < |page|
    ensures OffRows(c, page, n + 1) ==
            OffRows(c, page, n) + if c.norm(page[n].host) != page[n].host then {page[n].row} else {}
  {
    var was, now := OffRows(c, page, n), OffRows(c, page, n + 1);
    forall a | a in was ensures a in now {
      var j :| 0 <= j < n && c.norm(page[j].host) != page[j].host && page[j].row == a;
    }
    forall a | a in now ensures a in was || (c.norm(page[n].host) != page[n].host && a == page[n].row) {
      var j :| 0 <= j < n + 1 && c.norm(page[j].host) != page[j].host && page[j].row == a;
      assert j < n || j == n;
    }
  }

  lemma {:induction false} OffCountIs(c: Column, page: seq<Selected>, n: nat)
    requires n <= |page| && forall i, j :: 0 <= i < j < n ==> page[i].row != page[j].row
    ensures |OffRows(c, page, n)| == OffCount(c, page, n)
  {
    if n == 0 {
      assert OffRows(c, page, 0) == {};
    } else {
      OffCountIs(c, page, n - 1);
      OffRowsNext(c, page, n - 1);
      assert page[n - 1].row !in OffRows(c, page, n - 1);
    }
  }

  lemma OffIs(c: Column, rows: Rows, from: string, page: seq<Selected>)
    requires Sound(c) && IsPage(c, rows, from, page) && page != []
    ensures OffRows(c, page, |page|) == OffUpTo(c, rows, from, page[|page| - 1].key)
  {
    var last := page[|page| - 1];
    forall a | a in OffUpTo(c, rows, from, last.key) ensures a in OffRows(c, page, |page|) {
      assert a in RowsOf(page);
      var j :| 0 <= j < |page| && page[j].row == a;
    }
    forall a | a in OffRows(c, page, |page|) ensures a in OffUpTo(c, rows, from, last.key) {
      var j :| 0 <= j < |page| && c.norm(page[j].host) != page[j].host && page[j].row == a;
      assert j < |page| - 1 ==> c.less(page[j].key, last.key);
    }
  }

  datatype BatchResult = BatchResult(scanned: nat, updated: nat, conflicts: nat, lastKey: string)

  datatype UpdateResult = Updated | UniqueViolation | OtherError

  datatype RunResult = Completed | Stalled | Failed

  class HostTable {
    var rows: Rows
    const c: Column
    /** No query fails, a violated unique constraint aside. */
    const queriesWork: bool

    constructor (c: Column, rows: Rows, queriesWork: bool)
      ensures this.c == c && this.rows == rows && this.queriesWork == queriesWork
    {
      this.c, this.rows, this.queriesWork := c, rows, queriesWork;
    }

    /** UPDATE ... SET host = ? WHERE key = ? AND host = ?, for a row that still is as it was read. */
    method Update(a: nat, host: string) returns (r: UpdateResult)
      requires a in rows && Valid(c, rows)
      modifies this
      ensures Valid(c, rows)
      ensures r.Updated? ==> rows == Rewritten(c, old(rows), a, host)
      ensures r.UniqueViolation? ==> rows == old(rows) && Held(c, rows, a, host)
      ensures rows == old(rows) || (!Held(c, old(rows), a, host) && rows == Rewritten(c, old(rows), a, host))
      ensures Held(c, old(rows), a, host) ==> !r.Updated? && rows == old(rows)
      ensures queriesWork ==> !r.OtherError?
    {
      var broken: bool := *;
      broken := broken && !queriesWork;
      var applied: bool := *;
      if Held(c, rows, a, host) {
        return if broken then OtherError else UniqueViolation;
      }
      if !broken || applied {
        RewriteKeepsValid(c, rows, a, host);
        rows := Rewritten(c, rows, a, host);
      }
      r := if broken then OtherError else Updated;
    }

    /** The SELECT of one batch. */
    method Select(from: string, limit: nat) returns (page: seq<Selected>)
      requires Sound(c) && Valid(c, rows) && limit > 0
      ensures IsPage(c, rows, from, page) && |page| == Min(limit, |Candidates(c, rows, from)|)
    {
      page := [];
      var todo := Candidates(c, rows, from);
      while |page| < limit && todo != {}
        invariant |page| <= limit && PageSoFar(c, rows, Candidates(c, rows, from), todo, page)
        invariant |page| + |todo| == |Candidates(c, rows, from)|
        decreases todo
      {
        ghost var least := LeastKey(c, rows, todo);
        var a :| a in todo && IsLeast(c, rows, todo, a);
        PageSnoc(c, rows, Candidates(c, rows, from), todo, page, a);
        page, todo := page + [Selected(a, rows[a].key, rows[a].host.value)], todo - {a};
      }
    }

    /** The loop of BackfillHostColumnBatch over the rows it read. `stop` is an error that ends it early. */
    method RepairPage(page: seq<Selected>) returns (res: BatchResult, stop: bool)
      requires Idempotent(c) && Valid(c, rows)
      requires forall i :: 0 <= i < |page| ==> page[i].row in rows && Scanned(rows[page[i].row])
                                               && rows[page[i].row].host == Some(page[i].host)
      requires forall i, j :: 0 <= i < |page| && 0 <= j < |page| && i != j ==> page[i].row != page[j].row
      modifies this
      ensures Valid(c, rows) && Repairs(c, old(rows), rows)
      ensures !stop ==> InBatch(c, old(rows), rows, page, |page|)
      ensures !stop ==> Tallied(c, old(rows), rows, page, |page|, res)
      ensures queriesWork ==> !stop
    {
      res, stop := BatchResult(0, 0, 0, ""), false;
      StartBatch(c, rows, page);
      for i := 0 to |page|
        invariant InBatch(c, old(rows), rows, page, i)
        invariant Tallied(c, old(rows), rows, page, i, res)
        invariant !stop
      {
        res, stop := RepairRow(page, old(rows), i, res);
        if stop {
          return;
        }
      }
    }

    /** One turn of the loop. */
    method RepairRow(page: seq<Selected>, ghost before: Rows, i: nat, sofar: BatchResult)
      returns (res: BatchResult, stop: bool)
      requires Idempotent(c) && i < |page| && InBatch(c, before, rows, page, i)
      requires page[i].row in before && Scanned(before[page[i].row]) && before[page[i].row].host == Some(page[i].host)
      requires forall j :: 0 <= j < |page| && j != i ==> page[j].row != page[i].row
      requires Tallied(c, before, rows, page, i, sofar)
      modifies this
      ensures Valid(c, rows) && Repairs(c, before, rows)
      ensures !stop ==> InBatch(c, before, rows, page, i + 1) && Tallied(c, before, rows, page, i + 1, res)
      ensures queriesWork ==> !stop
    {
      res, stop := sofar.(scanned := sofar.scanned + 1, lastKey := page[i].key), false;
      if c.norm(page[i].host) == page[i].host {
        NormalRow(c, before, rows, page, i);
        return;
      }
      var u := Repair(page[i], before, page, i);
      if u.UniqueViolation? {
        res := res.(conflicts := res.conflicts + 1);
      } else if u.Updated? {
        res := res.(updated := res.updated + 1);
      } else {
        stop := true;
      }
    }

    /** Rewrite the `i`-th row of the page, which is not normalised. */
    method Repair(s: Selected, ghost before: Rows, ghost page: seq<Selected>, ghost i: nat) returns (u: UpdateResult)
      requires Idempotent(c) && i < |page| && s == page[i] && InBatch(c, before, rows, page, i)
      requires s.row in before && Scanned(before[s.row]) && before[s.row].host == Some(s.host)
      requires c.norm(s.host) != s.host
      requires forall j :: 0 <= j < |page| && j != i ==> page[j].row != page[i].row
      modifies this
      ensures Valid(c, rows) && Repairs(c, before, rows)
      ensures u.Updated? || u.UniqueViolation? ==> InBatch(c, before, rows, page, i + 1)
      ensures u.UniqueViolation? ==> rows == old(rows)
      ensures u.Updated? ==> |Changed(before, rows)| == |Changed(before, old(rows))| + 1
      ensures queriesWork ==> !u.OtherError?
    {
      ghost var was := rows;
      u := Update(s.row, c.norm(s.host));
      if rows != was {
        RewriteStep(c, before, was, page, i, rows);
        ChangedOne(c, before, was, rows, s.row);
      }
    }

    /** The same loop with dryRun: nothing is written, so no conflict is found. */
    method CountPage(page: seq<Selected>) returns (res: BatchResult)
      ensures res.scanned == |page| && (page != [] ==> res.lastKey == page[|page| - 1].key)
      ensures res.conflicts == 0 && res.updated == OffCount(c, page, |page|)
    {
      res := BatchResult(0, 0, 0, "");
      for i := 0 to |page|
        invariant res.scanned == i && res.conflicts == 0
        invariant i > 0 ==> res.lastKey == page[i - 1].key
        invariant res.updated == OffCount(c, page, i)
      {
        res := res.(scanned := res.scanned + 1, lastKey := page[i].key);
        if c.norm(page[i].host) != page[i].host {
          res := res.(updated := res.updated + 1);
        }
      }
    }

    /** The page of a batch, with what its end says about the table. */
    method Page(from: string, limit: nat) returns (page: seq<Selected>)
      requires Sound(c) && Valid(c, rows) && limit > 0
      ensures IsPage(c, rows, from, page)
      ensures forall i, j :: 0 <= i < |page| && 0 <= j < |page| && i != j ==> page[i].row != page[j].row
      ensures page != [] ==> IsPageEnd(c, rows, from, limit, page[|page| - 1].key)
      ensures page != [] ==> OffCount(c, page, |page|) == |OffUpTo(c, rows, from, page[|page| - 1].key)|
    {
      page := Select(from, limit);
      PageDistinct(c, rows, from, page);
      if page != [] {
        FullPageEnds(c, rows, from, limit, page);
        OffCountIs(c, page, |page|);
        OffIs(c, rows, from, page);
      }
    }

    /** BackfillHostColumnBatch: read a page after `from`, then repair it, or only count with `dryRun`. */
    method Batch(from: string, batchSize: int, dryRun: bool) returns (res: BatchResult, stop: bool)
      requires Sound(c) && Valid(c, rows)
      modifies this
      ensures Valid(c, rows) && Repairs(c, old(rows), rows)
      ensures dryRun ==> rows == old(rows) && res.conflicts == 0
      ensures !stop && res.scanned == 0 ==> Candidates(c, old(rows), from) == {} && rows == old(rows)
      ensures !stop && res.scanned > 0 ==>
                c.less(from, res.lastKey) && exists a :: a in old(rows) && old(rows)[a].key == res.lastKey
      ensures !stop && res.scanned > 0 && !dryRun && SettledUpTo(c, old(rows), from) ==>
                SettledUpTo(c, rows, res.lastKey)
      ensures !stop && !dryRun ==> res.updated == |Changed(old(rows), rows)|
      // updates and conflicts together are the rows of the page out of normal form; a dry run counts the same
      ensures !stop && res.scanned > 0 ==> res.updated + res.conflicts == |OffUpTo(c, old(rows), from, res.lastKey)|
      // the batch ends where a page of this size ends, and touches nothing beyond it
      ensures !stop && res.scanned > 0 ==> IsPageEnd(c, old(rows), from, Limit(batchSize), res.lastKey)
      ensures Limit(batchSize) == if batchSize > 0 then batchSize else 1000
      ensures !stop ==> Untouched(c, old(rows), rows, if res.scanned > 0 then res.lastKey else from)
      ensures queriesWork ==> !stop
    {
      var readable: bool := *;
      if !readable && !queriesWork {
        return BatchResult(0, 0, 0, ""), true;
      }
      var page := Page(from, Limit(batchSize));
      if dryRun {
        res := CountPage(page);
        return res, false;
      }
      res, stop := RepairPage(page);
      if page == [] && !stop {
        EmptyPage(c, old(rows), rows, page);
      } else if !stop {
        if SettledUpTo(c, old(rows), from) {
          BatchDone(c, old(rows), rows, from, page);
        }
        PageUntouched(c, old(rows), rows, from, page);
      }
    }

    /**
      The driver: batches from `fromKey = ""` until one finds nothing. `cursors` are the
      cursors it used; when it stalls, `cursor` is the last of them and `next` the batch end
      that did not come after it byte by byte.
      */
    method Backfill(batchSize: int)
      returns (r: RunResult, updated: nat, cursor: string, next: string, ghost cursors: seq<string>)
      requires Sound(c) && Valid(c, rows)
      modifies this
      ensures Valid(c, rows) && Repairs(c, old(rows), rows)
      ensures r == Completed ==> AllSettled(c, rows)
      ensures r == Completed ==> updated == |Changed(old(rows), rows)|
      // without failing queries the run completes or stalls, and it completes when the two orders agree
      ensures queriesWork ==> r != Failed
      ensures queriesWork && OrdersAgree(c, AllKeys(c, old(rows))) ==> r == Completed
      // where the keys do not move it completes exactly when the ends of all pages are in byte order
      ensures queriesWork && !c.hostKeyed ==>
                forall full: seq<string> :: FullChain(c, old(rows), Limit(batchSize), full) ==>
                  (r == Completed <==> ByteOrdered(full))
      ensures BothOrders(c, cursors)
      ensures r == Stalled ==>
                cursors != [] && cursor == cursors[|cursors| - 1] && c.less(cursor, next) && !Less(cursor, next)
      ensures r == Stalled && !c.hostKeyed ==> Chain(c, old(rows), Limit(batchSize), cursors + [next])
      ensures r == Stalled ==> Untouched(c, old(rows), rows, next)
    {
      ghost var start, limit := rows, Limit(batchSize);
      r, updated, cursor, next, cursors := Drive(batchSize);
      if r == Completed {
        CompletedRun(c, start, limit, cursors);
      } else if r == Stalled {
        StalledRun(c, start, limit, cursors, next);
      }
    }

    /** The driver's loop, and where it stood when it ended. */
    method Drive(batchSize: int)
      returns (r: RunResult, updated: nat, cursor: string, next: string, ghost cursors: seq<string>)
      requires Sound(c) && Valid(c, rows)
      modifies this
      ensures Ended(c, old(rows), rows, Limit(batchSize), AllKeys(c, old(rows)), cursors, r, updated, next)
      ensures cursor == cursors[|cursors| - 1]
      ensures queriesWork ==> r != Failed
    {
      updated, cursor, next, cursors := 0, "", "", [""];
      ghost var start, keys := rows, AllKeys(c, rows);
      RepairsRefl(c, rows);
      EmptyCursor(c, rows);
      while true
        invariant Driving(c, start, rows, Limit(batchSize), keys, cursors, updated) && cursors[|cursors| - 1] == cursor
        decreases Ahead(c, keys, cursor)
      {
        var ended;
        ended, r, updated, next := Turn(batchSize, start, keys, cursor, updated, cursors);
        if ended {
          return;
        }
        cursor, cursors := next, cursors + [next];
      }
    }

    /** One turn of the loop. */
    method Turn(batchSize: int, ghost start: Rows, ghost keys: set<string>, cursor: string, sofar: nat,
                ghost cursors: seq<string>)
      returns (ended: bool, r: RunResult, updated: nat, next: string)
      requires Sound(c) && Driving(c, start, rows, Limit(batchSize), keys, cursors, sofar)
      requires cursor == cursors[|cursors| - 1]
      modifies this
      ensures ended ==> Ended(c, start, rows, Limit(batchSize), keys, cursors, r, updated, next)
      ensures !ended ==> Driving(c, start, rows, Limit(batchSize), keys, cursors + [next], updated)
                         && Ahead(c, keys, next) < Ahead(c, keys, cursor)
      ensures queriesWork && ended ==> r != Failed
    {
      var res, stop := Next(batchSize, start, keys, cursor, sofar);
      ended, r, updated, next := true, Failed, sofar + res.updated, res.lastKey;
      if stop {
      } else if res.scanned == 0 {
        r, updated := Completed, sofar;
      } else if !Less(cursor, next) {
        r := Stalled;
      } else {
        ended := false;
        PassedNext(c, start, Limit(batchSize), keys, cursors, next);
      }
    }

    /** One batch of the run. */
    method Next(batchSize: int, ghost start: Rows, ghost keys: set<string>, cursor: string, ghost updated: nat)
      returns (res: BatchResult, stop: bool)
      requires Sound(c) && Along(c, start, rows, keys, cursor, updated)
      modifies this
      ensures Valid(c, rows) && Repairs(c, start, rows)
      ensures !stop && res.scanned == 0 ==> AllSettled(c, rows) && updated == |Changed(start, rows)|
      ensures !stop && res.scanned == 0 && !c.hostKeyed ==> Candidates(c, start, cursor) == {}
      ensures !stop && res.scanned > 0 ==>
                && Along(c, start, rows, keys, res.lastKey, updated + res.updated)
                && c.less(cursor, res.lastKey) && Ahead(c, keys, res.lastKey) < Ahead(c, keys, cursor)
                && res.lastKey in keys && res.lastKey != ""
      ensures !stop && res.scanned > 0 && !c.hostKeyed ==> IsPageEnd(c, start, cursor, Limit(batchSize), res.lastKey)
      ensures queriesWork ==> !stop
    {
      res, stop := Batch(cursor, batchSize, false);
      RepairsTrans(c, start, old(rows), rows);
      RepairsKeys(c, old(rows), rows, keys);
      if !stop && !c.hostKeyed {
        SameAhead(c, start, old(rows), cursor);
      }
      if !stop && res.scanned == 0 {
        NothingAhead(c, rows, cursor);
      } else if !stop {
        Progress(c, old(rows), keys, cursor, res.lastKey);
        UntouchedTrans(c, start, old(rows), rows, cursor, res.lastKey);
      }
    }

    /** A second run after a completed one changes nothing. */
    method RunTwice(batchSize: int) returns (r: RunResult, ghost after: Rows, ghost r2: RunResult, again: nat)
      requires Sound(c) && Valid(c, rows)
      modifies this
      ensures r == Completed ==> AllSettled(c, after) && rows == after && (r2 == Completed ==> again == 0)
    {
      var u, second, cursor, next;
      ghost var cs;
      r, u, cursor, next, cs := Backfill(batchSize);
      after := rows;
      second, again, cursor, next, cs := Backfill(batchSize);
      r2 := second;
      if r == Completed {
        NothingToRepair(c, after, rows);
      }
    }
  }

  /** The state of a run between two batches. */
  ghost predicate Along(c: Column, start: Rows, rows: Rows, keys: set<string>, cursor: string, updated: nat) {
    && Valid(c, rows) && Repairs(c, start, rows) && KeysWithin(c, rows, keys)
    && SettledUpTo(c, rows, cursor) && updated == |Changed(start, rows)| && Untouched(c, start, rows, cursor)
  }

  function Limit(batchSize: int): nat {
    if batchSize <= 0 then 1000 else batchSize
  }

  /** Rows beyond the cursor are as they were. */
  ghost predicate Untouched(c: Column, start: Rows, rows: Rows, cursor: string) {
    start.Keys == rows.Keys && forall a :: a in start && c.less(cursor, start[a].key) ==> rows[a] == start[a]
  }

  lemma PageUntouched(c: Column, before: Rows, rows: Rows, from: string, page: seq<Selected>)
    requires Sound(c) && IsPage(c, before, from, page) && page != [] && InBatch(c, before, rows, page, |page|)
    ensures Untouched(c, before, rows, page[|page| - 1].key)
  {
    var last := page[|page| - 1].key;
    forall i | 0 <= i < |page| ensures !c.less(last, before[page[i].row].key) {
      assert i < |page| - 1 ==> c.less(page[i].key, last);
    }
    forall a | a in before && c.less(last, before[a].key) ensures rows[a] == before[a] {
      assert a !in RowsOf(page);
    }
  }

  lemma UntouchedTrans(c: Column, start: Rows, before: Rows, rows: Rows, cursor: string, last: string)
    requires Sound(c) && c.less(cursor, last) && Untouched(c, start, before, cursor) && Untouched(c, before, rows, last)
    ensures Untouched(c, start, rows, last)
  {
    forall a | a in start && c.less(last, start[a].key) ensures rows[a] == start[a] {
      assert c.less(cursor, start[a].key);
      assert before[a] == start[a];
    }
  }

  /** Where keys do not move, what is ahead of the cursor is what was there at the start. */
  lemma SameAhead(c: Column, start: Rows, rows: Rows, cursor: string)
    requires !c.hostKeyed && Repairs(c, start, rows) && Untouched(c, start, rows, cursor)
    ensures Candidates(c, rows, cursor) == Candidates(c, start, cursor)
    ensures forall limit: nat, key: string :: IsPageEnd(c, rows, cursor, limit, key) ==>
              IsPageEnd(c, start, cursor, limit, key)
  {
    forall a | a in rows ensures rows[a].key == start[a].key {
      assert rows[a] != start[a] ==> a in Changed(start, rows);
    }
    forall a ensures a in Candidates(c, rows, cursor) <==> a in Candidates(c, start, cursor) {}
    forall key: string ensures UpTo(c, rows, cursor, key) == UpTo(c, start, cursor, key) {}
  }

  /** The collation orders these keys as their bytes do. */
  ghost predicate OrdersAgree(c: Column, keys: set<string>) {
    forall x, y :: x in keys && y in keys && c.less(x, y) ==> Less(x, y)
  }

  /** The cursors of a run so far. */
  ghost predicate Passed(c: Column, start: Rows, limit: nat, keys: set<string>, cursors: seq<string>) {
    && cursors != [] && BothOrders(c, cursors)
    && (cursors[|cursors| - 1] == "" || cursors[|cursors| - 1] in keys)
    && (!c.hostKeyed ==> Chain(c, start, limit, cursors))
  }

  lemma PassedNext(c: Column, start: Rows, limit: nat, keys: set<string>, cursors: seq<string>, next: string)
    requires Passed(c, start, limit, keys, cursors) && next in keys
    requires c.less(cursors[|cursors| - 1], next) && Less(cursors[|cursors| - 1], next)
    requires !c.hostKeyed ==> IsPageEnd(c, start, cursors[|cursors| - 1], limit, next)
    ensures Passed(c, start, limit, keys, cursors + [next])
  {
    BothOrdersSnoc(c, cursors, next);
    if !c.hostKeyed {
      ChainSnoc(c, start, limit, cursors, next);
    }
  }

  /** A run between two batches, with its cursors. */
  ghost predicate Driving(c: Column, start: Rows, rows: Rows, limit: nat, keys: set<string>, cursors: seq<string>,
                          updated: nat) {
    Passed(c, start, limit, keys, cursors) && Along(c, start, rows, keys, cursors[|cursors| - 1], updated)
  }

  /** A run that has ended, and why. */
  ghost predicate Ended(c: Column, start: Rows, rows: Rows, limit: nat, keys: set<string>, cursors: seq<string>,
                        r: RunResult,
                        updated: nat, next: string) {
    && Passed(c, start, limit, keys, cursors) && Valid(c, rows) && Repairs(c, start, rows)
    && var cursor := cursors[|cursors| - 1];
       match r
       case Completed =>
         && AllSettled(c, rows) && updated == |Changed(start, rows)|
         && (!c.hostKeyed ==> Candidates(c, start, cursor) == {})
       case Stalled =>
         && c.less(cursor, next) && !Less(cursor, next) && next in keys && next != ""
         && Untouched(c, start, rows, next) && (!c.hostKeyed ==> IsPageEnd(c, start, cursor, limit, next))
       case Failed => true
  }

  /** What a run that found nothing more says about the page ends. */
  lemma CompletedRun(c: Column, start: Rows, limit: nat, cursors: seq<string>)
    requires Sound(c) && cursors != [] && BothOrders(c, cursors)
    requires !c.hostKeyed ==> Chain(c, start, limit, cursors) && Candidates(c, start, cursors[|cursors| - 1]) == {}
    ensures !c.hostKeyed ==> forall full: seq<string> :: FullChain(c, start, limit, full) ==> ByteOrdered(full)
  {
    if !c.hostKeyed {
      forall full: seq<string> | FullChain(c, start, limit, full) ensures ByteOrdered(full) {
        ChainIsPrefix(c, start, limit, cursors, full);
        ChainIsPrefix(c, start, limit, full, cursors);
        assert full == cursors;
      }
    }
  }

  lemma ChainSnoc(c: Column, rows: Rows, limit: nat, ends: seq<string>, next: string)
    requires Chain(c, rows, limit, ends) && IsPageEnd(c, rows, ends[|ends| - 1], limit, next)
    ensures Chain(c, rows, limit, ends + [next])
  {
    var more := ends + [next];
    forall i | 0 < i < |more| ensures IsPageEnd(c, rows, more[i - 1], limit, more[i]) {
      assert i < |ends| ==> more[i - 1] == ends[i - 1] && more[i] == ends[i];
    }
  }

  /** What a run that stalled says about them. */
  lemma StalledRun(c: Column, start: Rows, limit: nat, cursors: seq<string>, next: string)
    requires Sound(c) && cursors != [] && !Less(cursors[|cursors| - 1], next)
    requires !c.hostKeyed ==>
               Chain(c, start, limit, cursors) && IsPageEnd(c, start, cursors[|cursors| - 1], limit, next)
    ensures !c.hostKeyed ==> Chain(c, start, limit, cursors + [next])
    ensures !c.hostKeyed ==> forall full: seq<string> :: FullChain(c, start, limit, full) ==> !ByteOrdered(full)
  {
    if !c.hostKeyed {
      ChainSnoc(c, start, limit, cursors, next);
      var more, n := cursors + [next], |cursors|;
      forall full: seq<string> | FullChain(c, start, limit, full) ensures !ByteOrdered(full) {
        ChainIsPrefix(c, start, limit, more, full);
        assert full[n - 1] == more[n - 1] && full[n] == more[n];
      }
    }
  }

  /** Consecutive batch ends ascend in the collation and in the byte order. */
  ghost predicate BothOrders(c: Column, cursors: seq<string>) {
    forall i :: 0 < i < |cursors| ==> c.less(cursors[i - 1], cursors[i]) && Less(cursors[i - 1], cursors[i])
  }

  lemma BothOrdersSnoc(c: Column, cursors: seq<string>, next: string)
    requires cursors != [] && BothOrders(c, cursors)
    requires c.less(cursors[|cursors| - 1], next) && Less(cursors[|cursors| - 1], next)
    ensures BothOrders(c, cursors + [next])
  {}

  /** Part-way through a batch: the first `i` rows of the page are settled, the others are as they were read. */
  ghost predicate InBatch(c: Column, before: Rows, rows: Rows, page: seq<Selected>, i: nat) {
    && i <= |page| && Valid(c, rows) && Repairs(c, before, rows)
    && (forall j :: i <= j < |page| ==> page[j].row in before && rows[page[j].row] == before[page[j].row])
    && (forall j :: 0 <= j < i ==> Fine(c, rows, page[j].row))
    && Changed(before, rows) <= RowsOf(page)
  }

  lemma EmptyPage(c: Column, before: Rows, rows: Rows, page: seq<Selected>)
    requires page == [] && InBatch(c, before, rows, page, 0)
    ensures rows == before
  {
    assert RowsOf(page) == {};
    forall a | a in before ensures rows[a] == before[a] {
      assert a !in Changed(before, rows);
    }
  }

  /** Rewriting a row that is not normalised to a normal form that is free. */
  ghost predicate Rewrites(c: Column, rows: Rows, a: nat, rows': Rows) {
    && a in rows && rows[a].host.Some? && c.norm(rows[a].host.value) != rows[a].host.value
    && !Held(c, rows, a, c.norm(rows[a].host.value))
    && rows' == Rewritten(c, rows, a, c.norm(rows[a].host.value))
  }

  lemma RewriteKeepsFine(c: Column, rows: Rows, a: nat, rows': Rows)
    requires Idempotent(c) && Rewrites(c, rows, a, rows')
    ensures forall b :: Fine(c, rows, b) ==> Fine(c, rows', b)
    ensures Fine(c, rows', a)
  {
    forall b | Fine(c, rows, b) ensures Fine(c, rows', b) {
      if b != a { RewriteKeepsSettled(c, rows, a, b); }
    }
  }

  lemma RewriteRepairs(c: Column, before: Rows, rows: Rows, a: nat, rows': Rows)
    requires Idempotent(c) && Rewrites(c, rows, a, rows') && Repairs(c, before, rows)
    requires a in before && rows[a] == before[a] && Scanned(before[a])
    ensures Repairs(c, before, rows') && Fine(c, rows', a)
  {
    RewriteKeepsFine(c, rows, a, rows');
    assert !Fine(c, before, a);
  }

  lemma ChangedOne(c: Column, before: Rows, rows: Rows, rows': Rows, a: nat)
    requires Rewrites(c, rows, a, rows') && before.Keys == rows.Keys && rows[a] == before[a]
    ensures |Changed(before, rows')| == |Changed(before, rows)| + 1
  {
    assert Changed(before, rows') == Changed(before, rows) + {a};
  }

  lemma RewriteStep(c: Column, before: Rows, rows: Rows, page: seq<Selected>, i: nat, rows': Rows)
    requires Idempotent(c) && InBatch(c, before, rows, page, i) && i < |page|
    requires forall j :: 0 <= j < |page| && j != i ==> page[j].row != page[i].row
    requires Rewrites(c, rows, page[i].row, rows') && Scanned(before[page[i].row])
    ensures InBatch(c, before, rows', page, i + 1)
  {
    var a := page[i].row;
    RewriteKeepsValid(c, rows, a, c.norm(rows[a].host.value));
    RewriteKeepsFine(c, rows, a, rows');
    RewriteRepairs(c, before, rows, a, rows');
    forall b | b in Changed(before, rows') ensures b in RowsOf(page) {
      assert b != a ==> b in Changed(before, rows);
    }
  }

  lemma StartBatch(c: Column, rows: Rows, page: seq<Selected>)
    requires Valid(c, rows) && forall i :: 0 <= i < |page| ==> page[i].row in rows
    ensures InBatch(c, rows, rows, page, 0) && Changed(rows, rows) == {}
  {
    RepairsRefl(c, rows);
  }

  /** A row that is normalised already needs nothing. */
  lemma NormalRow(c: Column, before: Rows, rows: Rows, page: seq<Selected>, i: nat)
    requires InBatch(c, before, rows, page, i) && i < |page|
    requires before[page[i].row].host == Some(page[i].host) && c.norm(page[i].host) == page[i].host
    ensures InBatch(c, before, rows, page, i + 1)
  {
    assert Fine(c, rows, page[i].row);
  }

  /** After the last row of the page the cursor may move to its key. */
  lemma BatchDone(c: Column, before: Rows, rows: Rows, from: string, page: seq<Selected>)
    requires Idempotent(c) && page != [] && IsPage(c, before, from, page)
    requires InBatch(c, before, rows, page, |page|) && SettledUpTo(c, before, from)
    ensures SettledUpTo(c, rows, page[|page| - 1].key)
  {
    var last := page[|page| - 1].key;
    forall a | a in rows && Scanned(rows[a]) && !c.less(last, rows[a].key) ensures Settled(c, rows, a) {
      if rows[a] == before[a] {
        if a in Candidates(c, before, from) {
          assert a in RowsOf(page);
          var j :| 0 <= j < |page| && page[j].row == a;
          assert Fine(c, rows, page[j].row);
        } else {
          assert Fine(c, before, a);
        }
      } else {
        assert a in Changed(before, rows);
      }
    }
  }

  lemma RepairsRefl(c: Column, rows: Rows)
    ensures Repairs(c, rows, rows) && Changed(rows, rows) == {}
  {}

  /** Repairs compose, and a row is changed at most once. */
  lemma RepairsTrans(c: Column, r0: Rows, r1: Rows, r2: Rows)
    requires Idempotent(c) && Repairs(c, r0, r1) && Repairs(c, r1, r2)
    ensures Repairs(c, r0, r2) && |Changed(r0, r2)| == |Changed(r0, r1)| + |Changed(r1, r2)|
  {
    forall a | a in Changed(r0, r1) ensures a !in Changed(r1, r2) {
      assert Fine(c, r1, a);
    }
    forall a ensures a in Changed(r0, r2) <==> a in Changed(r0, r1) + Changed(r1, r2) {
      if a in Changed(r0, r1) {
        assert a !in Changed(r1, r2);
        assert r2[a] == r1[a];
      }
    }
    assert Changed(r0, r2) == Changed(r0, r1) + Changed(r1, r2);
  }

  lemma NothingToRepair(c: Column, before: Rows, after: Rows)
    requires Repairs(c, before, after) && AllSettled(c, before)
    ensures after == before && Changed(before, after) == {}
  {
    forall a | a in before ensures after[a] == before[a] {
      assert a in Changed(before, after) ==> Fine(c, before, a);
    }
  }

  lemma EmptyCursor(c: Column, rows: Rows)
    requires Sound(c)
    ensures SettledUpTo(c, rows, "")
  {}

  lemma NothingAhead(c: Column, rows: Rows, cursor: string)
    requires SettledUpTo(c, rows, cursor) && Candidates(c, rows, cursor) == {}
    ensures AllSettled(c, rows)
  {
    forall a | a in rows && Scanned(rows[a]) ensures Settled(c, rows, a) {
      assert a !in Candidates(c, rows, cursor);
    }
  }

  lemma PageDistinct(c: Column, rows: Rows, from: string, page: seq<Selected>)
    requires Sound(c) && IsPage(c, rows, from, page)
    ensures forall i, j :: 0 <= i < |page| && 0 <= j < |page| && i != j ==> page[i].row != page[j].row
  {}

  function AllKeys(c: Column, rows: Rows): (keys: set<string>)
    ensures KeysWithin(c, rows, keys)
  {
    (set a | a in rows :: rows[a].key) + (set a | a in rows && rows[a].host.Some? :: c.norm(rows[a].host.value))
  }

  /** The keys the cursor has not reached. */
  function Ahead(c: Column, keys: set<string>, cursor: string): set<string> {
    set k | k in keys && c.less(cursor, k)
  }

  lemma RepairsKeys(c: Column, before: Rows, after: Rows, keys: set<string>)
    requires Idempotent(c) && Repairs(c, before, after) && KeysWithin(c, before, keys)
    ensures KeysWithin(c, after, keys)
  {
    forall a | a in after
      ensures after[a].key in keys && (after[a].host.Some? ==> c.norm(after[a].host.value) in keys)
    {
      assert a in before;
      if after[a] != before[a] { assert a in Changed(before, after); }
    }
  }

  /** Keys still ahead of the cursor become fewer. */
  lemma Progress(c: Column, rows: Rows, keys: set<string>, cursor: string, last: string)
    requires Sound(c) && KeysWithin(c, rows, keys) && c.less(cursor, last)
    requires exists a :: a in rows && rows[a].key == last
    ensures Ahead(c, keys, last) < Ahead(c, keys, cursor)
  {
    var a :| a in rows && rows[a].key == last;
    assert last in Ahead(c, keys, cursor) && last !in Ahead(c, keys, last);
    assert Ahead(c, keys, last) <= Ahead(c, keys, cursor);
  }

  // ----- the two orders can disagree -----

  /** A collation that looks at letters first and at case only to break ties. */
  predicate CaseLess(x: string, y: string) {
    Less(Lower(x), Lower(y)) || (Lower(x) == Lower(y) && Less(x, y))
  }

  lemma CaseLessIsStrictOrder()
    ensures StrictOrder((x, y) => CaseLess(x, y))
  {
    forall x ensures !CaseLess(x, x) {
      LessIrreflexive(x);
      LessIrreflexive(Lower(x));
    }
    forall x, y, z | CaseLess(x, y) && CaseLess(y, z) ensures CaseLess(x, z) {
      if Less(Lower(x), Lower(y)) && Less(Lower(y), Lower(z)) { LessTransitive(Lower(x), Lower(y), Lower(z)); }
      if Less(x, y) && Less(y, z) { LessTransitive(x, y, z); }
    }
    forall x, y ensures CaseLess(x, y) || x == y || CaseLess(y, x) {
      LessTotal(Lower(x), Lower(y));
      LessTotal(x, y);
    }
  }

  // lower-casing is the normaliser, and the keys are another column
  const STALL_COLUMN := Column(false, false, (h: string) => Lower(h), (x, y) => CaseLess(x, y))
  const STALL_ROWS: Rows :=
    map[0 := Row("a", "", Some("x")), 1 := Row("B", "", Some("x")), 2 := Row("c", "", Some("X"))]

  lemma LowerIdempotent(s: string)
    ensures Lower(Lower(s)) == Lower(s)
  {
    forall i | 0 <= i < |s| ensures LowerChar(LowerChar(s[i])) == LowerChar(s[i]) {}
  }

  lemma StallOrder()
    ensures CaseLess("", "a") && CaseLess("", "B") && CaseLess("", "c")
    ensures CaseLess("a", "B") && CaseLess("a", "c") && CaseLess("B", "c")
    ensures !CaseLess("a", "a") && !CaseLess("B", "B") && !CaseLess("c", "c")
    ensures !CaseLess("B", "a") && !CaseLess("c", "a") && !CaseLess("c", "B")
    ensures Less("", "a") && !Less("a", "B")
  {
    assert Lower("") == "" && Lower("a") == "a" && Lower("B") == "b" && Lower("c") == "c";
  }

  lemma StallSound()
    ensures Sound(STALL_COLUMN) && Valid(STALL_COLUMN, STALL_ROWS)
  {
    CaseLessIsStrictOrder();
    forall h: string ensures STALL_COLUMN.norm(STALL_COLUMN.norm(h)) == STALL_COLUMN.norm(h) {
      LowerIdempotent(h);
    }
  }

  lemma StallChain()
    ensures FullChain(STALL_COLUMN, STALL_ROWS, 1, ["", "a", "B", "c"])
  {
    var c, rows := STALL_COLUMN, STALL_ROWS;
    StallOrder();
    StallCandidates();
    OneRowEnd(c, rows, "", 0);
    OneRowEnd(c, rows, "a", 1);
    OneRowEnd(c, rows, "B", 2);
    assert rows[0].key == "a" && rows[1].key == "B" && rows[2].key == "c";
  }

  lemma StallCandidates()
    ensures Candidates(STALL_COLUMN, STALL_ROWS, "") == {0, 1, 2} && Candidates(STALL_COLUMN, STALL_ROWS, "a") == {1, 2}
    ensures Candidates(STALL_COLUMN, STALL_ROWS, "B") == {2} && Candidates(STALL_COLUMN, STALL_ROWS, "c") == {}
  {
    StallOrder();
  }

  /** A page of one row ends at the first candidate. */
  lemma OneRowEnd(c: Column, rows: Rows, from: string, a: nat)
    requires a in Candidates(c, rows, from) && !c.less(rows[a].key, rows[a].key)
    requires forall b :: b in Candidates(c, rows, from) && b != a ==> c.less(rows[a].key, rows[b].key)
    ensures IsPageEnd(c, rows, from, 1, rows[a].key)
  {
    assert UpTo(c, rows, from, rows[a].key) == {a};
    SubsetSize({a}, Candidates(c, rows, from));
  }

  /** Out of order, the page ends stop the run, and what lies beyond the stall is as it was. */
  method StallingRun(c: Column, rows: Rows, batchSize: int, ghost full: seq<string>)
    returns (r: RunResult, after: Rows, cursor: string, next: string, ghost cursors: seq<string>)
    requires Sound(c) && Valid(c, rows) && !c.hostKeyed
    requires FullChain(c, rows, Limit(batchSize), full) && !ByteOrdered(full)
    ensures r == Stalled && Valid(c, after) && Untouched(c, rows, after, next)
    ensures cursors != [] && BothOrders(c, cursors) && !Less(cursors[|cursors| - 1], next)
    ensures Chain(c, rows, Limit(batchSize), cursors + [next])
  {
    var table := new HostTable(c, rows, true);
    var updated;
    r, updated, cursor, next, cursors := table.Backfill(batchSize);
    after := table.rows;
  }

  /**
    The promise fails under such a collation: with no query failing, the run over the rows "a", "B" and "c" stops at the
    second batch, and the third row is left with a host that is neither normal nor taken.
    */
  method StallExample() returns (r: RunResult, after: Rows)
    ensures r == Stalled && Valid(STALL_COLUMN, after) && !AllSettled(STALL_COLUMN, after)
    ensures after.Keys == STALL_ROWS.Keys && after[2] == STALL_ROWS[2]
  {
    StallSound();
    StallChain();
    var cursor, next;
    ghost var cursors;
    ghost var full := ["", "a", "B", "c"];
    NotInOrder(full);
    r, after, cursor, next, cursors := StallingRun(STALL_COLUMN, STALL_ROWS, 1, full);
    StallsAtSecond(cursors, next, full);
    LastUnsettled(after);
  }

  lemma NotInOrder(full: seq<string>)
    requires full == ["", "a", "B", "c"]
    ensures !ByteOrdered(full)
  {
    StallOrder();
    assert !Less(full[1], full[2]);
  }

  lemma StallsAtSecond(cursors: seq<string>, next: string, full: seq<string>)
    requires full == ["", "a", "B", "c"] && FullChain(STALL_COLUMN, STALL_ROWS, 1, full) && Sound(STALL_COLUMN)
    requires cursors != [] && BothOrders(STALL_COLUMN, cursors) && !Less(cursors[|cursors| - 1], next)
    requires Chain(STALL_COLUMN, STALL_ROWS, 1, cursors + [next])
    ensures next == "B"
  {
    StallOrder();
    var more, n := cursors + [next], |cursors|;
    ChainIsPrefix(STALL_COLUMN, STALL_ROWS, 1, more, full);
    assert forall i :: 0 <= i < n ==> cursors[i] == more[i] == full[i];
    assert next == more[n] == full[n];
    assert forall i :: 0 < i < n ==> Less(full[i - 1], full[i]);
    assert full[1] == "a" && full[2] == "B";
    assert !(2 < n);
  }

  lemma LastUnsettled(after: Rows)
    requires Untouched(STALL_COLUMN, STALL_ROWS, after, "B")
    ensures after[2] == STALL_ROWS[2] && !AllSettled(STALL_COLUMN, after)
  {
    StallOrder();
    assert STALL_COLUMN.norm("X") == Lower("X") == "x";
    assert !Settled(STALL_COLUMN, after, 2);
  }
}
