/**
  Same-server restore (`internal/backup/restore.go`).

  The PostgreSQL server is a catalog from database names to identities. Every
  call to it may be refused, may work, or may take effect and still report an
  error (a COMMIT whose acknowledgement is lost), so each primitive chooses its
  fate with `*` and the contracts of the operations hold for every choice. The
  ghost field `history` keeps the catalog after every statement, which is what
  a process that stops between two statements leaves behind.

  Where `callsWork` every call does what it was asked for and says so. Under it
  each contract also says exactly when its operation succeeds.
  */
module Restore {
  import opened Basics
  import opened RowCounts
  import GucList

  type DbId = nat
  type Catalog = map<string, DbId>

  /** What a database holds: the row counts pg_restore loaded, the settings applied, whether it was migrated. */
  datatype Content = Content(loaded: map<string, int>, settings: seq<string>, migrated: bool)

  /** The parts of meta.json a restore uses, and the row counts of what the dump holds. */
  datatype Plan = Plan(rowCounts: map<string, int>, settings: seq<string>, dumped: map<string, int>) {
    /** Every setting can be written as ALTER DATABASE ... SET. */
    predicate Settable() {
      forall k :: 0 <= k < |settings| ==> GucList.ValidSetting(settings[k])
    }
  }

  /**
    What the other stop conditions find: Load can use the generation; tool version,
    privileges and connections let CheckTarget go on; CheckCompatibility does; the
    stored dump is the one of meta.json; nobody is connected when names are swapped.
    */
  datatype Conditions = Conditions(loads: bool, allowed: bool, compatible: bool, intact: bool, idle: bool)

  datatype Lookup = Found | Missing | QueryFailed

  /** `SwitchUnknown` is ErrRestoreSwitchUnknown; `Refused` is any other error. */
  datatype Outcome = Success | Refused | SwitchUnknown

  datatype SwapState = SwapUnknown | SwapDone | SwapNotDone

  datatype Mode = Swap | Empty

  const MAX_IDENTIFIER_LEN := 63

  /** The bytes of a character in UTF-8. */
  function Width(c: char): (n: nat)
    ensures 1 <= n <= 4
  {
    if c as int < 0x80 then 1 else if c as int < 0x800 then 2 else if c as int < 0x1_0000 then 3 else 4
  }

  /** Go's len of a string: its bytes. */
  function ByteLength(s: string): (n: nat)
    ensures |s| <= n
  {
    if s == [] then 0 else ByteLength(s[..|s| - 1]) + Width(s[|s| - 1])
  }

  lemma {:induction false} BytesOfConcat(s: string, t: string)
    ensures ByteLength(s + t) == ByteLength(s) + ByteLength(t)
    decreases |t|
  {
    if t == [] {
      assert s + t == s;
    } else {
      assert (s + t)[..|s + t| - 1] == s + t[..|t| - 1];
      BytesOfConcat(s, t[..|t| - 1]);
    }
  }

  lemma {:induction false} AsciiBytes(s: string)
    requires forall i :: 0 <= i < |s| ==> s[i] as int < 0x80
    ensures ByteLength(s) == |s|
  {
    if s == [] {
    } else {
      AsciiBytes(s[..|s| - 1]);
    }
  }

  /** The bytes of a name around an ASCII infix. */
  lemma NameBytes(database: string, infix: string, suffix: string)
    requires forall i :: 0 <= i < |infix| ==> infix[i] as int < 0x80
    ensures ByteLength(database + infix + suffix) == ByteLength(database) + |infix| + ByteLength(suffix)
  {
    BytesOfConcat(database + infix, suffix);
    BytesOfConcat(database, infix);
    AsciiBytes(infix);
  }

  /**
    RestoreNames: the name to restore into and the name the current database is
    kept under. PostgreSQL cuts off identifiers of more than 63 bytes; neither
    name is that long.
    */
  function RestoreNames(database: string, suffix: string): (r: (string, string, bool))
    ensures database != r.0 && database != r.1 && r.0 != r.1
    ensures r.2 <==> ByteLength(r.1) <= MAX_IDENTIFIER_LEN
    ensures r.2 ==> ByteLength(r.0) <= MAX_IDENTIFIER_LEN
  {
    var restored := database + "_restore_" + suffix;
    var before := database + "_before_restore_" + suffix;
    assert |before| == |restored| + 7 > |restored| > |database|;
    assert ByteLength(restored) <= ByteLength(before) by {
      NameBytes(database, "_restore_", suffix);
      NameBytes(database, "_before_restore_", suffix);
    }
    (restored, before, ByteLength(before) <= MAX_IDENTIFIER_LEN)
  }

  /** With the fourteen digits of a time the names fit exactly up to a database name of 33 bytes. */
  lemma NamesFitIff(database: string, suffix: string)
    requires |suffix| == 14 && forall i :: 0 <= i < 14 ==> '0' <= suffix[i] <= '9'
    ensures RestoreNames(database, suffix).2 <==> ByteLength(database) <= 33
  {
    NameBytes(database, "_before_restore_", suffix);
    AsciiBytes(suffix);
  }

  lemma RestoreNamesExample()
    ensures RestoreNames("misskey", "20261010120405").0 == "misskey_restore_20261010120405"
    ensures RestoreNames("misskey", "20261010120405").1 == "misskey_before_restore_20261010120405"
  {}

  /** Whether the two renames of one transaction can both be executed. */
  predicate CanSwap(c: Catalog, database: string, keepAs: string, replacement: string) {
    && database in c && keepAs !in c
    && var c1 := (c - {database})[keepAs := c[database]];
    && replacement in c1 && database !in c1
  }

  /** The catalog after both renames. */
  function Swapped(c: Catalog, database: string, keepAs: string, replacement: string): (r: Catalog)
    requires CanSwap(c, database, keepAs, replacement)
  {
    var c1 := (c - {database})[keepAs := c[database]];
    (c1 - {replacement})[database := c1[replacement]]
  }

  /** Renaming only moves identities between names: nothing is lost and nothing else moves. */
  lemma SwappedBindings(c: Catalog, database: string, keepAs: string, replacement: string)
    requires CanSwap(c, database, keepAs, replacement) && replacement in c
    ensures var s := Swapped(c, database, keepAs, replacement);
            && s == (c - {replacement})[keepAs := c[database]][database := c[replacement]]
            && c.Values == s.Values
  {
    var s := Swapped(c, database, keepAs, replacement);
    assert s == (c - {replacement})[keepAs := c[database]][database := c[replacement]];
    forall v | v in c.Values ensures v in s.Values {
      var n :| n in c && c[n] == v;
      var m := if n == database then keepAs else if n == replacement then database else n;
      assert m in s && s[m] == v;
    }
    forall v | v in s.Values ensures v in c.Values {
      var n :| n in s && s[n] == v;
      var m := if n == keepAs then database else if n == database then replacement else n;
      assert m in c && c[m] == v;
    }
  }

  /** Every binding of `before` is still there in `after`. */
  ghost predicate Keeps(before: Catalog, after: Catalog) {
    forall n :: n in before ==> n in after && after[n] == before[n]
  }

  lemma KeepsValues(before: Catalog, after: Catalog)
    requires Keeps(before, after)
    ensures before.Values <= after.Values
  {
    forall v | v in before.Values ensures v in after.Values {
      var n :| n in before && before[n] == v;
      assert n in after && after[n] == v;
    }
  }

  /** A database without tables. */
  predicate IsBlank(c: Content) {
    c.loaded == map[] && !c.migrated
  }

  /** Under these conditions nothing but a failing call stops a restore onto `c`. */
  predicate Ready(c: Catalog, content: map<DbId, Content>, w: Conditions, mode: Mode, database: string,
                  confirm: string, suffix: string, plan: Plan)
  {
    && confirm == database != "" && database in c
    && w.loads && w.allowed && w.compatible && w.intact
    && plan.dumped == plan.rowCounts && plan.Settable()
    && (mode.Swap? ==> w.idle && NamesFree(c, database, suffix))
    && (mode.Empty? ==> c[database] in content && IsBlank(content[c[database]]))
  }

  /** Both names of a swap restore can be used. */
  predicate NamesFree(c: Catalog, database: string, suffix: string) {
    var (target, before, fits) := RestoreNames(database, suffix);
    fits && target !in c && before !in c
  }

  class Cluster {
    var catalog: Catalog
    var nextId: DbId
    var content: map<DbId, Content>
    ghost var history: seq<Catalog>
    /** No call fails. */
    const callsWork: bool
    const conditions: Conditions

    constructor (catalog: Catalog, nextId: DbId, content: map<DbId, Content>, callsWork: bool, conditions: Conditions)
      requires forall n :: n in catalog ==> catalog[n] < nextId && catalog[n] in content
      requires forall i :: i in content ==> i < nextId
      ensures Valid() && this.catalog == catalog && this.nextId == nextId && this.content == content
      ensures this.callsWork == callsWork && this.conditions == conditions
    {
      this.catalog, this.nextId, this.content, history := catalog, nextId, content, [];
      this.callsWork, this.conditions := callsWork, conditions;
    }

    ghost predicate Valid()
      reads this
    {
      && (forall n :: n in catalog ==> catalog[n] < nextId)
      && (forall n :: n in catalog ==> catalog[n] in content)
      && (forall i :: i in content ==> i < nextId)
    }

    /** No statement of a method removed an identity that existed at its start. */
    twostate predicate NothingLost()
      reads this
    {
      && old(history) <= history
      && forall k :: |old(history)| <= k < |history| ==> old(catalog).Values <= history[k].Values
    }

    /** Databases that existed before have the content they had. */
    twostate predicate ContentKept()
      reads this
    {
      forall i :: i in old(content) ==> i in content && content[i] == old(content)[i]
    }

    /** How a call ends. */
    method Attempt() returns (fate: Fate)
      ensures callsWork ==> fate == Done
    {
      fate := *;
      if callsWork {
        fate := Done;
      }
    }

    method Connect() returns (ok: bool)
      ensures callsWork ==> ok
    {
      var fate := Attempt();
      ok := fate == Done;
    }

    /** A stop condition that has to be asked for. */
    method Check(holds: bool) returns (ok: bool)
      ensures ok ==> holds
      ensures callsWork ==> ok == holds
    {
      ok := Connect();
      ok := ok && holds;
    }

    /** databaseInfo: a query that fails is reported as an error, as a missing database is. */
    method DatabaseInfo(name: string) returns (r: Lookup)
      ensures r.Found? ==> name in catalog
      ensures r.Missing? ==> name !in catalog
      ensures callsWork ==> !r.QueryFailed?
    {
      var answered := Connect();
      r := if !answered then QueryFailed else if name in catalog then Found else Missing;
    }

    /** CREATE DATABASE: refused when the name is taken. */
    method CreateDatabase(name: string) returns (ok: bool)
      requires Valid()
      modifies this
      ensures Valid() && ContentKept() && NothingLost()
      ensures catalog == old(catalog) || (name !in old(catalog) && catalog == old(catalog)[name := old(nextId)])
      ensures ok ==> name !in old(catalog) && name in catalog
      ensures ok ==> content == old(content)[old(nextId) := Content(map[], [], false)]
      ensures Keeps(old(catalog), catalog)
      ensures forall k :: |old(history)| <= k < |history| ==> Keeps(old(catalog), history[k])
      ensures callsWork ==> (ok <==> name !in old(catalog)) && (!ok ==> catalog == old(catalog))
    {
      var fate := Attempt();
      ok := false;
      if name !in catalog && fate != FailedNoEffect {
        catalog := catalog[name := nextId];
        content := content[nextId := Content(map[], [], false)];
        nextId := nextId + 1;
        ok := fate == Done;
      }
      history := history + [catalog];
      KeepsValues(old(catalog), catalog);
    }

    /** DROP DATABASE IF EXISTS ... WITH (FORCE). */
    method DropDatabase(name: string) returns (ok: bool)
      requires Valid()
      modifies this
      ensures Valid() && content == old(content) && nextId == old(nextId)
      ensures catalog == old(catalog) || catalog == old(catalog) - {name}
      ensures ok ==> name !in catalog
      ensures callsWork ==> ok
      ensures history == old(history) + [catalog]
    {
      var fate := Attempt();
      if fate != FailedNoEffect {
        catalog := catalog - {name};
      }
      ok := fate == Done;
      history := history + [catalog];
    }

    /** The two renames of ReplaceDatabase in one transaction. */
    method RenameBoth(database: string, keepAs: string, replacement: string) returns (ok: bool)
      requires Valid()
      modifies this
      ensures Valid() && content == old(content) && nextId == old(nextId)
      ensures catalog == old(catalog)
              || (CanSwap(old(catalog), database, keepAs, replacement)
                  && catalog == Swapped(old(catalog), database, keepAs, replacement))
      ensures ok ==> CanSwap(old(catalog), database, keepAs, replacement)
                     && catalog == Swapped(old(catalog), database, keepAs, replacement)
      ensures history == old(history) + [catalog]
      ensures callsWork ==> (ok <==> CanSwap(old(catalog), database, keepAs, replacement))
      ensures callsWork && !ok ==> catalog == old(catalog)
    {
      var fate := Attempt();
      ok := false;
      if CanSwap(catalog, database, keepAs, replacement) && fate != FailedNoEffect {
        catalog := Swapped(catalog, database, keepAs, replacement);
        ok := fate == Done;
      }
      history := history + [catalog];
    }

    /** The pg_database query of swapOutcome; `None` when it failed. */
    method NamesPresent(names: set<string>) returns (answered: bool, present: set<string>)
      ensures answered ==> present == names * catalog.Keys
      ensures callsWork ==> answered
    {
      answered := Connect();
      present := names * catalog.Keys;
    }

    /** pg_restore --single-transaction into `name`: all of the dump or nothing. */
    method PgRestore(name: string, plan: Plan) returns (ok: bool)
      requires Valid()
      modifies this
      ensures Valid() && catalog == old(catalog) && nextId == old(nextId) && history == old(history)
      ensures ok ==> name in catalog && content[catalog[name]].loaded == plan.dumped
      ensures callsWork ==> (ok <==> name in catalog)
      ensures content.Keys == old(content).Keys
      ensures forall i :: i in old(content) && !(name in catalog && i == catalog[name]) ==>
                content[i] == old(content)[i]
      ensures name in catalog ==> content[catalog[name]].settings == old(content[catalog[name]].settings)
    {
      var fate := Attempt();
      ok := false;
      if name in catalog && fate != FailedNoEffect {
        content := content[catalog[name] := content[catalog[name]].(loaded := plan.dumped)];
        ok := fate == Done;
      }
    }

    /** VerifyRestored: count the restored rows and compare them with the backup. */
    method VerifyRestored(name: string, plan: Plan) returns (ok: bool)
      requires Valid()
      ensures ok ==> name in catalog && content[catalog[name]].loaded == plan.rowCounts
      ensures callsWork ==> (ok <==> name in catalog && content[catalog[name]].loaded == plan.rowCounts)
    {
      var connected := Connect();
      if !connected || name !in catalog {
        return false;
      }
      var counted := Connect();
      if !counted {
        return false;
      }
      var mismatches := CompareRowCounts(plan.rowCounts, content[catalog[name]].loaded);
      ok := mismatches == [];
    }

    /** ApplyDatabaseSettings: one ALTER DATABASE ... SET per recorded setting, stopping at the first error. */
    method ApplyDatabaseSettings(name: string, plan: Plan) returns (ok: bool)
      requires Valid()
      modifies this
      ensures Valid() && catalog == old(catalog) && nextId == old(nextId) && history == old(history)
      ensures content.Keys == old(content).Keys
      ensures forall i :: i in old(content) && !(name in catalog && i == catalog[name]) ==>
                content[i] == old(content)[i]
      ensures name in catalog ==> content[catalog[name]].loaded == old(content[catalog[name]].loaded)
      ensures ok ==> name in catalog
                     && content[catalog[name]].settings == old(content[catalog[name]].settings) + plan.settings
      ensures ok ==> plan.Settable()
      ensures callsWork ==> (ok <==> name in catalog && plan.Settable())
    {
      ok := Connect();
      if !ok || name !in catalog {
        return false;
      }
      var id := catalog[name];
      assert old(content[id].settings) == old(content[id].settings) + plan.settings[..0];
      for k := 0 to |plan.settings|
        invariant Valid() && catalog == old(catalog) && nextId == old(nextId) && history == old(history)
        invariant content.Keys == old(content).Keys
        invariant forall i :: i in old(content) && i != id ==> content[i] == old(content)[i]
        invariant content[id].loaded == old(content[id].loaded)
        invariant content[id].settings == old(content[id].settings) + plan.settings[..k]
        invariant forall j :: 0 <= j < k ==> GucList.ValidSetting(plan.settings[j])
      {
        if !GucList.ValidSetting(plan.settings[k]) {
          return false;
        }
        var fate := Attempt();
        if fate != FailedNoEffect {
          content := content[id := content[id].(settings := content[id].settings + [plan.settings[k]])];
        }
        if fate != Done {
          return false;
        }
        assert plan.settings[..k] + [plan.settings[k]] == plan.settings[..k + 1];
      }
      assert plan.settings[..|plan.settings|] == plan.settings;
    }

    /** Migrate: the bundled migrations, which may stop part-way. */
    method Migrate(name: string) returns (ok: bool)
      requires Valid()
      modifies this
      ensures Valid() && catalog == old(catalog) && nextId == old(nextId) && history == old(history)
      ensures content.Keys == old(content).Keys
      ensures forall i :: i in old(content) && !(name in catalog && i == catalog[name]) ==>
                content[i] == old(content)[i]
      ensures ok ==> name in catalog && content[catalog[name]] == old(content[catalog[name]]).(migrated := true)
      ensures callsWork ==> (ok <==> name in catalog)
    {
      ok := Check(name in catalog);
      if ok {
        content := content[catalog[name] := content[catalog[name]].(migrated := true)];
      }
    }

    /** checkSwitchNames: only a look-up that finds the kept name refuses it, one that fails does not. */
    method CheckSwitchNames(keepAs: string, replacement: string) returns (ok: bool, ghost kept: Lookup)
      ensures ok ==> replacement in catalog
      ensures ok ==> kept.QueryFailed? || keepAs !in catalog
      ensures kept.Found? ==> !ok && keepAs in catalog
      ensures callsWork ==> (ok <==> replacement in catalog && keepAs !in catalog)
    {
      kept := QueryFailed;
      var connected := Connect();
      if !connected {
        return false, kept;
      }
      var r := DatabaseInfo(replacement);
      if !r.Found? {
        return false, kept;
      }
      var k := DatabaseInfo(keepAs);
      ok, kept := !k.Found?, k;
    }

    /** ReplaceDatabase: refuse while anybody is connected, then rename both in one transaction. */
    method ReplaceDatabase(database: string, keepAs: string, replacement: string) returns (ok: bool)
      requires Valid()
      modifies this
      ensures Valid() && content == old(content) && nextId == old(nextId)
      ensures catalog == old(catalog)
              || (CanSwap(old(catalog), database, keepAs, replacement)
                  && catalog == Swapped(old(catalog), database, keepAs, replacement))
      ensures ok ==> CanSwap(old(catalog), database, keepAs, replacement)
                     && catalog == Swapped(old(catalog), database, keepAs, replacement)
      ensures history == old(history) || history == old(history) + [catalog]
      ensures history == old(history) ==> catalog == old(catalog)
      ensures ok || catalog != old(catalog) ==> conditions.idle
      ensures callsWork ==> (ok <==> conditions.idle && CanSwap(old(catalog), database, keepAs, replacement))
      ensures callsWork && !ok ==> catalog == old(catalog)
    {
      ok := Connect();
      if !ok {
        return;
      }
      var idle := Check(conditions.idle);
      if !idle {
        return false;
      }
      ok := RenameBoth(database, keepAs, replacement);
    }

    /** swapOutcome: tell from pg_database whether a failed rename happened. */
    method SwapOutcome(database: string, restored: string, before: string) returns (s: SwapState)
      ensures s.SwapDone? ==> before in catalog && restored !in catalog
      ensures s.SwapNotDone? ==> before !in catalog && (restored in catalog || database in catalog)
      ensures callsWork ==> (s.SwapUnknown? <==> if before in catalog then restored in catalog
                                                 else restored !in catalog && database !in catalog)
    {
      var connected := Connect();
      if !connected {
        return SwapUnknown;
      }
      var answered, present := NamesPresent({database, restored, before});
      if !answered {
        return SwapUnknown;
      }
      if before in present && restored !in present {
        s := SwapDone;
      } else if before !in present && (restored in present || database in present) {
        s := SwapNotDone;
      } else {
        s := SwapUnknown;
      }
    }

    /**
      SwitchDatabase, for any three names. The answer is the truth about the
      catalog: success means swapped, an ordinary error means untouched, and
      only ErrRestoreSwitchUnknown leaves the two possibilities open.
      */
    method SwitchDatabase(database: string, keepAs: string, replacement: string) returns (r: Outcome)
      requires Valid()
      modifies this
      ensures Valid() && content == old(content) && nextId == old(nextId) && NothingLost()
      ensures r.Success? ==> CanSwap(old(catalog), database, keepAs, replacement)
                             && catalog == Swapped(old(catalog), database, keepAs, replacement) && conditions.idle
      ensures r.Refused? ==> catalog == old(catalog)
      ensures r.SwitchUnknown? ==>
                catalog == old(catalog)
                || (CanSwap(old(catalog), database, keepAs, replacement)
                    && catalog == Swapped(old(catalog), database, keepAs, replacement))
      ensures !r.Refused? ==> replacement in old(catalog)
      ensures callsWork ==>
                && !r.SwitchUnknown?
                && (r.Success? <==> conditions.idle && replacement in old(catalog)
                                    && CanSwap(old(catalog), database, keepAs, replacement))
      ensures forall k :: |old(history)| <= k < |history| ==>
                history[k] == old(catalog)
                || (CanSwap(old(catalog), database, keepAs, replacement)
                    && history[k] == Swapped(old(catalog), database, keepAs, replacement))
    {
      var named, kept := CheckSwitchNames(keepAs, replacement);
      if !named {
        return Refused;
      }
      var ok := ReplaceDatabase(database, keepAs, replacement);
      if CanSwap(old(catalog), database, keepAs, replacement) {
        SwappedBindings(old(catalog), database, keepAs, replacement);
      }
      if ok {
        return Success;
      }
      var s := SwapOutcome(database, replacement, keepAs);
      r := match s
        case SwapDone => Success
        case SwapNotDone => Refused
        case SwapUnknown => SwitchUnknown;
    }

    /** RestoreInto: create (swap mode) and fill the target; drop it again when pg_restore fails. */
    method RestoreInto(mode: Mode, plan: Plan, database: string, target: string) returns (ok: bool)
      requires Valid()
      modifies this
      ensures Valid() && NothingLost()
      ensures Keeps(old(catalog), catalog) && catalog.Keys <= old(catalog).Keys + {target}
      ensures forall k :: |old(history)| <= k < |history| ==> Keeps(old(catalog), history[k])
      ensures mode.Swap? ==> ContentKept()
      ensures mode.Swap? && ok ==> database in old(catalog) && target !in old(catalog)
                                   && catalog == old(catalog)[target := old(nextId)]
                                   && old(nextId) in content && content[old(nextId)].settings == []
      ensures mode.Empty? ==> catalog == old(catalog) && history == old(history)
      ensures mode.Empty? ==> content.Keys == old(content).Keys
                              && forall i :: i in old(content) && !(target in catalog && i == catalog[target]) ==>
                                   content[i] == old(content)[i]
      ensures mode.Empty? && ok ==> target == database && target in catalog
                                    && content[catalog[target]].settings == old(content[catalog[target]].settings)
      ensures ok ==> conditions.intact && target in catalog && content[catalog[target]].loaded == plan.dumped
      ensures callsWork && mode.Swap? ==>
                (ok <==> conditions.intact && database in old(catalog) && target !in old(catalog))
      ensures callsWork && mode.Empty? ==> (ok <==> conditions.intact && target == database && target in old(catalog))
      ensures callsWork && !ok ==> catalog == old(catalog)
    {
      if mode.Empty? && target != database {
        return false;
      }
      var fetched := Check(conditions.intact);   // fetchDump: the stored bytes match meta.json
      if !fetched {
        return false;
      }
      if mode.Empty? {
        ok := PgRestore(target, plan);
        return;
      }
      ok := Connect();
      if !ok {
        return;
      }
      var d := DatabaseInfo(database);
      if !d.Found? {
        return false;
      }
      ok := CreateDatabase(target);
      if !ok {
        return;
      }
      ok := PgRestore(target, plan);
      if !ok {
        var _ := DropDatabase(target);
        KeepsValues(old(catalog), catalog);
      }
    }

    /** finish: verify, apply the settings, migrate and, in swap mode, switch the names. */
    method Finish(mode: Mode, plan: Plan, database: string, target: string, before: string) returns (r: Outcome)
      requires Valid() && target in catalog
      modifies this
      ensures Valid() && NothingLost()
      ensures content.Keys == old(content).Keys
      ensures forall i :: i in old(content) && i != old(catalog)[target] ==> content[i] == old(content)[i]
      ensures r.Success? ==>
                content[old(catalog)[target]] ==
                Content(plan.rowCounts, old(content[catalog[target]].settings) + plan.settings, true)
      ensures r.Refused? || mode.Empty? ==> catalog == old(catalog)
      ensures mode.Empty? ==> !r.SwitchUnknown?
      ensures r.Success? ==> plan.Settable() && old(content[catalog[target]]).loaded == plan.rowCounts
      ensures r.Success? && mode.Swap? ==> conditions.idle
      ensures callsWork ==>
                && !r.SwitchUnknown?
                && (r.Success? <==>
                      && old(content[catalog[target]]).loaded == plan.rowCounts && plan.Settable()
                      && (mode.Swap? ==> conditions.idle && CanSwap(old(catalog), database, before, target)))
      ensures mode.Swap? && r.Success? ==> CanSwap(old(catalog), database, before, target)
                                           && catalog == Swapped(old(catalog), database, before, target)
      ensures r.SwitchUnknown? ==> catalog == old(catalog)
                                   || (CanSwap(old(catalog), database, before, target)
                                       && catalog == Swapped(old(catalog), database, before, target))
      ensures forall k :: |old(history)| <= k < |history| ==>
                history[k] == old(catalog)
                || (CanSwap(old(catalog), database, before, target)
                    && history[k] == Swapped(old(catalog), database, before, target))
    {
      var ok := VerifyRestored(target, plan);
      if !ok {
        return Refused;
      }
      ok := ApplyDatabaseSettings(target, plan);
      if !ok {
        return Refused;
      }
      ok := Migrate(target);
      if !ok {
        return Refused;
      }
      if mode.Empty? {
        return Success;
      }
      r := SwitchDatabase(database, before, target);
    }

    /** CheckTarget; a failed look-up of a new name counts as "free". */
    method CheckTarget(mode: Mode, database: string, target: string, before: string, fits: bool) returns (ok: bool)
      requires Valid()
      ensures ok ==> conditions.allowed && database in catalog
      ensures ok && mode.Swap? ==> fits
      ensures ok && mode.Empty? ==> IsBlank(content[catalog[database]])
      ensures callsWork && mode.Swap? ==>
                (ok <==> conditions.allowed && fits && database in catalog && target !in catalog && before !in catalog)
      ensures callsWork && mode.Empty? ==>
                (ok <==> conditions.allowed && database in catalog && IsBlank(content[catalog[database]]))
    {
      ok := Connect();
      if !ok {
        return;
      }
      var allowed := Check(conditions.allowed);   // tool version, privileges, open connections
      if mode.Empty? {
        ok := Check(database in catalog && IsBlank(content[catalog[database]]));
        ok := ok && allowed;
        return;
      }
      var d := DatabaseInfo(database);
      if !d.Found? || !allowed || !fits {
        return false;
      }
      var t := DatabaseInfo(target);
      var b := DatabaseInfo(before);
      ok := !t.Found? && !b.Found?;
    }

    /** finish on the database that was just created, seen from the catalog `c0` before its creation. */
    method FinishNew(plan: Plan, database: string, target: string, before: string, ghost c0: Catalog, ghost id: DbId)
      returns (r: Outcome)
      requires Valid() && database in c0 && target !in c0 && catalog == c0[target := id] && id in content
      requires database != target && database != before && target != before
      modifies this
      ensures Valid() && old(history) <= history && content.Keys == old(content).Keys
      ensures forall i :: i in old(content) && i != id ==> content[i] == old(content)[i]
      ensures r.Success? ==>
                && before !in c0 && catalog == c0[before := c0[database]][database := id]
                && content[id] == Content(plan.rowCounts, old(content[id].settings) + plan.settings, true)
                && conditions.idle && old(content[id].loaded) == plan.rowCounts && plan.Settable()
      ensures r.Refused? ==> catalog == old(catalog)
      ensures r.SwitchUnknown? ==>
                || catalog == old(catalog)
                || (before !in c0 && catalog == c0[before := c0[database]][database := id])
      ensures c0[database] in catalog.Values && id in catalog.Values
      ensures forall k :: |old(history)| <= k < |history| ==>
                || history[k] == old(catalog)
                || (before !in c0 && history[k] == c0[before := c0[database]][database := id])
      ensures callsWork ==>
                && !r.SwitchUnknown?
                && (r.Success? <==>
                      && conditions.idle && before !in c0
                      && old(content[id].loaded) == plan.rowCounts && plan.Settable())
    {
      r := Finish(Swap, plan, database, target, before);
      SwapOfNew(c0, database, before, target, id);
    }

    /** The part of Restore in swap mode that changes anything: RestoreInto, finish and the drop after a failure. */
    method RestoreAndSwitch(plan: Plan, database: string, target: string, before: string) returns (r: Outcome)
      requires Valid()
      requires database != target && database != before && target != before
      modifies this
      ensures Valid() && ContentKept() && old(history) <= history
      ensures r.Success? ==>
                && database in old(catalog) && target !in old(catalog) && before !in old(catalog)
                && catalog == old(catalog)[before := old(catalog)[database]][database := old(nextId)]
                && old(nextId) in content
                && content[old(nextId)] == Content(plan.rowCounts, plan.settings, true)
      ensures r.Refused? ==> Keeps(old(catalog), catalog) && catalog.Keys <= old(catalog).Keys + {target}
      ensures r.SwitchUnknown? ==>
                && database in old(catalog) && target !in old(catalog)
                && (catalog == old(catalog)[target := old(nextId)]
                    || (before !in old(catalog)
                        && catalog == old(catalog)[before := old(catalog)[database]][database := old(nextId)]))
                && old(catalog)[database] in catalog.Values && old(nextId) in catalog.Values
      ensures forall k :: |old(history)| <= k < |history| ==>
                Keeps(old(catalog), history[k])
                || (database in old(catalog) && before !in old(catalog)
                    && history[k] == old(catalog)[before := old(catalog)[database]][database := old(nextId)])
      ensures r.Success? ==>
                conditions.intact && conditions.idle && plan.dumped == plan.rowCounts && plan.Settable()
      ensures callsWork ==>
                && !r.SwitchUnknown? && (r.Refused? ==> catalog == old(catalog))
                && (r.Success? <==>
                      && conditions.intact && conditions.idle && plan.dumped == plan.rowCounts && plan.Settable()
                      && database in old(catalog) && target !in old(catalog) && before !in old(catalog))
    {
      var ok := RestoreInto(Swap, plan, database, target);
      if !ok {
        return Refused;
      }
      r := FinishNew(plan, database, target, before, old(catalog), old(nextId));
      if r.Refused? {
        var _ := DropDatabase(target);
        assert catalog == old(catalog)[target := old(nextId)] || catalog == old(catalog);
      }
    }

    /**
      Restore, over every run and in both modes; `At` is already turned into
      `suffix`. Load and CheckCompatibility only read.
      */
    method Restore(mode: Mode, database: string, confirm: string, suffix: string, plan: Plan) returns (r: Outcome)
      requires Valid()
      modifies this
      ensures Valid()
      // no database that existed is dropped, at any point of the run
      ensures NothingLost()
      // it succeeds only when everything is ready; when no call fails it always does then, and
      // otherwise leaves the names alone
      ensures r.Success? ==>
                Ready(old(catalog), old(content), conditions, mode, database, confirm, suffix, plan)
      ensures callsWork ==>
                Ready(old(catalog), old(content), conditions, mode, database, confirm, suffix, plan) ==> r.Success?
      ensures callsWork && !r.Success? ==> r.Refused? && catalog == old(catalog)
      ensures mode.Swap? ==> ContentKept()
      ensures var (target, before, fits) := RestoreNames(database, suffix);
        mode.Swap? ==>
          // success: the restored identity has the name, the original is kept
          && (r.Success? ==>
                && fits && database in old(catalog)
                && target !in old(catalog) && before !in old(catalog)
                && catalog == old(catalog)[before := old(catalog)[database]][database := old(nextId)]
                && old(nextId) in content
                && content[old(nextId)] == Content(plan.rowCounts, plan.settings, true))
          // an ordinary error: every binding is as it was, and at most the new database is left over
          && (r.Refused? ==> Keeps(old(catalog), catalog) && catalog.Keys <= old(catalog).Keys + {target})
          // not known: one of the two, and both databases exist
          && (r.SwitchUnknown? ==>
                && database in old(catalog) && target !in old(catalog)
                && (catalog == old(catalog)[target := old(nextId)]
                    || (before !in old(catalog)
                        && catalog == old(catalog)[before := old(catalog)[database]][database := old(nextId)]))
                && old(catalog)[database] in catalog.Values && old(nextId) in catalog.Values)
          // every intermediate state has the old bindings or the finished swap
          && forall k :: |old(history)| <= k < |history| ==>
               Keeps(old(catalog), history[k])
               || (database in old(catalog) && before !in old(catalog)
                   && history[k] == old(catalog)[before := old(catalog)[database]][database := old(nextId)])
      // empty mode: a database with tables is never written to
      ensures mode.Empty? && database in old(catalog) && !IsBlank(old(content[catalog[database]])) ==>
                r.Refused? && content == old(content)
      // names never change and only the named database is written to
      ensures mode.Empty? ==>
        && catalog == old(catalog) && !r.SwitchUnknown?
        && content.Keys == old(content).Keys
        && (forall i :: i in old(content) && !(database in catalog && i == catalog[database]) ==>
              content[i] == old(content)[i])
        && (r.Success? ==>
              && database in catalog
              && content[catalog[database]] ==
                 Content(plan.rowCounts, old(content[catalog[database]].settings) + plan.settings, true))
    {
      if database == "" || confirm != database {
        return Refused;
      }
      var loaded := Check(conditions.loads);
      if !loaded {
        return Refused;
      }
      var (restored, before, fits) := RestoreNames(database, suffix);
      var checked := CheckTarget(mode, database, restored, before, fits);
      var compatible := Check(conditions.compatible);
      if !checked || !compatible {
        return Refused;
      }
      if mode.Swap? {
        r := RestoreAndSwitch(plan, database, restored, before);
        forall k | |old(history)| <= k < |history| ensures old(catalog).Values <= history[k].Values {
          if Keeps(old(catalog), history[k]) {
            KeepsValues(old(catalog), history[k]);
          } else {
            ReplacedKeepsValues(old(catalog), database, before, old(nextId));
          }
        }
        return;
      }
      var ok := RestoreInto(Empty, plan, database, database);
      if !ok {
        return Refused;
      }
      r := Finish(Empty, plan, database, database, before);
    }

  }

  /** After a finished swap every identity is still bound. */
  lemma ReplacedKeepsValues(c: Catalog, database: string, before: string, id: DbId)
    requires database in c && before !in c
    ensures c.Values <= c[before := c[database]][database := id].Values
  {
    var s := c[before := c[database]][database := id];
    forall v | v in c.Values ensures v in s.Values {
      var n :| n in c && c[n] == v;
      var m := if n == database then before else n;
      assert m in s && s[m] == v;
    }
  }

  /** Swapping in a database that was created under a new name, seen from the catalog before its creation. */
  lemma SwapOfNew(c: Catalog, database: string, before: string, target: string, id: DbId)
    requires database in c && target !in c && database != before && target != before && target != database
    ensures var c1 := c[target := id];
            && (CanSwap(c1, database, before, target) <==> before !in c)
            && (before !in c ==>
                  && Swapped(c1, database, before, target) == c[before := c[database]][database := id]
                  && c[database] in Swapped(c1, database, before, target).Values
                  && id in Swapped(c1, database, before, target).Values)
            && c[database] in c1.Values && id in c1.Values
  {
    var c1 := c[target := id];
    assert c1[database] == c[database] && c1[target] == id;
    if before !in c {
      var s := Swapped(c1, database, before, target);
      assert s == c[before := c[database]][database := id];
      assert s[before] == c[database] && s[database] == id;
    }
  }
}
