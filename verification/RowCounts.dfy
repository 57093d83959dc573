/** compareRowCounts (`internal/backup/verify.go`), shared by verify and restore. */
module RowCounts {
  import opened Text

  datatype RowMismatch = RowMismatch(table: string, expected: int, actual: int)

  function CountOr(m: map<string, int>, t: string): int {
    if t in m then m[t] else -1
  }

  /** The two sides disagree about table `t`. */
  predicate Differs(want: map<string, int>, got: map<string, int>, t: string) {
    t in want.Keys + got.Keys && !(t in want && t in got && want[t] == got[t])
  }

  /** The keys of a map in ascending order, whatever order they are visited in. */
  method SortedKeys(m: map<string, int>, more: map<string, int>) returns (tables: seq<string>)
    ensures StrictlySorted(tables)
    ensures forall t :: t in tables <==> t in m.Keys + more.Keys
  {
    tables := [];
    var todo := m.Keys + more.Keys;
    while todo != {}
      invariant StrictlySorted(tables)
      invariant todo <= m.Keys + more.Keys
      invariant forall t :: t in tables <==> t in m.Keys + more.Keys && t !in todo
    {
      var t :| t in todo;
      tables := Insert(tables, t);
      todo := todo - {t};
    }
  }

  /** The rows of the report for a list of tables. */
  function Mismatches(want: map<string, int>, got: map<string, int>, tables: seq<string>): (out: seq<RowMismatch>) {
    if tables == [] then []
    else
      var t := tables[|tables| - 1];
      Mismatches(want, got, tables[..|tables| - 1]) +
      (if t in want && t in got && want[t] == got[t] then []
       else [RowMismatch(t, CountOr(want, t), CountOr(got, t))])
  }

  /** `out` lists exactly the differing tables, in order, with -1 for an absent side. */
  ghost predicate Reports(want: map<string, int>, got: map<string, int>, out: seq<RowMismatch>) {
    && (forall i, j :: 0 <= i < j < |out| ==> Less(out[i].table, out[j].table))
    && (forall m :: m in out ==>
          Differs(want, got, m.table) && m == RowMismatch(m.table, CountOr(want, m.table), CountOr(got, m.table)))
    && (forall t :: Differs(want, got, t) ==> RowMismatch(t, CountOr(want, t), CountOr(got, t)) in out)
  }

  lemma {:induction false} MismatchesOf(want: map<string, int>, got: map<string, int>, tables: seq<string>)
    requires StrictlySorted(tables) && forall t :: t in tables ==> t in want.Keys + got.Keys
    ensures var out := Mismatches(want, got, tables);
            && (forall m :: m in out <==> m.table in tables && Differs(want, got, m.table)
                                          && m == RowMismatch(m.table, CountOr(want, m.table), CountOr(got, m.table)))
            && (forall i, j :: 0 <= i < j < |out| ==> Less(out[i].table, out[j].table))
  {
    if tables == [] {
    } else {
      var front, t := tables[..|tables| - 1], tables[|tables| - 1];
      MismatchesOf(want, got, front);
      var out := Mismatches(want, got, front);
      assert tables == front + [t];
      forall i | 0 <= i < |out| ensures Less(out[i].table, t) {
        assert out[i] in out;
      }
    }
  }

  lemma ReportOfAll(want: map<string, int>, got: map<string, int>, tables: seq<string>)
    requires StrictlySorted(tables) && forall t :: t in tables <==> t in want.Keys + got.Keys
    ensures Reports(want, got, Mismatches(want, got, tables))
  {
    MismatchesOf(want, got, tables);
    var out := Mismatches(want, got, tables);
    forall t | Differs(want, got, t) ensures RowMismatch(t, CountOr(want, t), CountOr(got, t)) in out {
      assert t in tables;
    }
  }

  method CompareRowCounts(want: map<string, int>, got: map<string, int>) returns (out: seq<RowMismatch>)
    ensures Reports(want, got, out)
    ensures out == [] <==> want == got
    ensures forall m :: m in out ==>
              && m.expected == (if m.table in want then want[m.table] else -1)
              && m.actual == (if m.table in got then got[m.table] else -1)
              && (m.table in want && m.table in got ==> want[m.table] != got[m.table])
  {
    var tables := SortedKeys(want, got);
    out := [];
    for i := 0 to |tables|
      invariant out == Mismatches(want, got, tables[..i])
    {
      var t := tables[i];
      assert tables[..i + 1][..i] == tables[..i];
      if !(t in want && t in got && want[t] == got[t]) {
        out := out + [RowMismatch(t, CountOr(want, t), CountOr(got, t))];
      }
    }
    assert tables[..|tables|] == tables;
    ReportOfAll(want, got, tables);
    EmptyIffEqual(want, got, out);
  }

  /** An empty report is equality of the two maps. */
  lemma EmptyIffEqual(want: map<string, int>, got: map<string, int>, out: seq<RowMismatch>)
    requires Reports(want, got, out)
    ensures out == [] <==> want == got
  {
    if out == [] {
      forall t ensures t in want.Keys <==> t in got.Keys {
        assert !Differs(want, got, t);
      }
      forall t | t in want ensures want[t] == got[t] {
        assert !Differs(want, got, t);
      }
      assert want == got;
    } else {
      assert Differs(want, got, out[0].table);
    }
  }
}
