/**
  What a stored verify.json is worth (`internal/backup/verify.go`, `take.go`,
  `generation_delete.go`) while takes, deletions and verifications of any
  generations run interleaved: a passing verify.json beside a readable meta.json
  comes from a verification that passed all stages on that very meta.json.

  A verification reads meta.json at its start and writes verify.json at its end,
  and in between anything may happen to the generation, so this needs that takes
  never use an ID twice. IDs are the time of the take.
  */
module VerifiedStore {
  import opened Basics
  import opened Layout
  import opened VerifyResults
  import opened GenerationStore

  function PassingResult(st: Store, id: string): (p: bool) {
    var k := Key(id, VERIFY_FILE);
    k in st && st[k].VerifyDoc? && VerifyPassed(id, st[k].result)
  }

  /** What a passing result says about a generation with meta.json `m`. */
  ghost predicate Deserved(passed: set<Verification>, m: Meta, v: VerifyResult) {
    && AllPassed(v.stages) && v.mismatches == []
    && m.rowCounts != map[] && Verification(v.id, m.rowCounts) in passed
  }

  /** Every passing verify.json is the work of a verification that passed. */
  ghost predicate Checked(st: Store, passed: set<Verification>) {
    forall id :: ValidID(id) && PassingResult(st, id) && ReadMeta(st, id).Some? ==>
      Deserved(passed, ReadMeta(st, id).value, st[Key(id, VERIFY_FILE)].result)
  }

  /** Neither meta.json nor verify.json. */
  predicate NoRecord(st: Store, id: string) {
    Key(id, META_FILE) !in st && Key(id, VERIFY_FILE) !in st
  }

  /** No take has used the IDs that are not in `used`. */
  ghost predicate Unused(st: Store, used: set<string>) {
    forall id :: ValidID(id) && id !in used ==> NoRecord(st, id)
  }

  /** A take that has not yet put its meta.json. */
  predicate BeforeMeta(p: Proc) {
    p.Take? && (p.take.Listing? || p.take.Dumping? || p.take.Checking? || p.take.WritingMeta?)
  }

  /** A verification that has read meta.json and may still write verify.json. */
  predicate Holds(p: Proc) {
    p.Verify? && (p.ver.VerRunning? || p.ver.VerStoring?)
  }

  ghost predicate VerifyInv(s: State, p: Proc)
    requires Holds(p)
  {
    && ValidID(p.id) && p.id in s.used
    && (ReadMeta(s.store, p.id).Some? ==> ReadMeta(s.store, p.id).value == p.ver.meta)
    && (p.ver.VerStoring? ==> p.ver.result.id == p.id
                              && (p.ver.result.ok ==> Deserved(s.passed, p.ver.meta, p.ver.result)))
  }

  ghost predicate VerInv(s: State) {
    && Checked(s.store, s.passed)
    && Unused(s.store, s.used)
    && (forall pid :: pid in s.procs && s.procs[pid].Take? ==> s.procs[pid].id in s.used)
    && (forall pid :: pid in s.procs && BeforeMeta(s.procs[pid]) ==> NoRecord(s.store, s.procs[pid].id))
    && (forall pid :: pid in s.procs && Holds(s.procs[pid]) ==> VerifyInv(s, s.procs[pid]))
    && (forall p, q :: p in s.procs && q in s.procs && BeforeMeta(s.procs[p]) && Holds(s.procs[q]) ==>
          s.procs[p].id != s.procs[q].id)
  }

  /** A take gets an ID no take has had. */
  predicate Fresh(s: State, a: Action) {
    a.SpawnTake? ==> a.id !in s.used
  }

  ghost predicate FreshRun(hash: Hash, s: State, acts: seq<Action>)
    requires IsRun(hash, s, acts)
    decreases |acts|
  {
    acts == [] || (Fresh(s, acts[0]) && FreshRun(hash, Apply(hash, s, acts[0]), acts[1..]))
  }

  lemma MorePassed(st: Store, passed: set<Verification>, more: set<Verification>)
    requires Checked(st, passed) && passed <= more
    ensures Checked(st, more)
  {}

  lemma FewerKeepChecked(st: Store, less: Store, passed: set<Verification>)
    requires Checked(st, passed) && Fewer(st, less)
    ensures Checked(less, passed)
  {
    forall id | ValidID(id) && PassingResult(less, id) && ReadMeta(less, id).Some?
      ensures Deserved(passed, ReadMeta(less, id).value, less[Key(id, VERIFY_FILE)].result)
    {
      assert PassingResult(st, id) && ReadMeta(st, id) == ReadMeta(less, id);
    }
  }

  /** A dump is nobody's meta.json and nobody's verify.json. */
  lemma DumpKeepsRecords(st: Store, id: string, dumpFile: string, o: Obj, i: string)
    requires ValidID(id) && ValidID(i) && dumpFile in {DUMP_FILE, DUMP_FILE_AGE}
    ensures var st' := st[Key(id, dumpFile) := o];
            && ReadMeta(st', i) == ReadMeta(st, i) && (NoRecord(st', i) <==> NoRecord(st, i))
            && (PassingResult(st', i) <==> PassingResult(st, i))
            && (PassingResult(st, i) ==> st'[Key(i, VERIFY_FILE)] == st[Key(i, VERIFY_FILE)])
  {
    KeyInjective(id, dumpFile, i, META_FILE);
    KeyInjective(id, dumpFile, i, VERIFY_FILE);
  }

  /** meta.json of one generation says nothing about another. */
  lemma MetaKeepsRecords(st: Store, id: string, o: Obj, i: string)
    requires ValidID(id) && ValidID(i)
    ensures var st' := st[Key(id, META_FILE) := o];
            && (i != id ==> ReadMeta(st', i) == ReadMeta(st, i) && (NoRecord(st', i) <==> NoRecord(st, i)))
            && (PassingResult(st', i) <==> PassingResult(st, i))
            && (PassingResult(st, i) ==> st'[Key(i, VERIFY_FILE)] == st[Key(i, VERIFY_FILE)])
  {
    KeyInjective(id, META_FILE, i, META_FILE);
    KeyInjective(id, META_FILE, i, VERIFY_FILE);
  }

  /** Writing verify.json of one generation changes nothing another generation is judged by. */
  lemma VerifyKeepsOthers(st: Store, id: string, res: VerifyResult, i: string)
    requires ValidID(id) && ValidID(i)
    ensures var st' := st[Key(id, VERIFY_FILE) := VerifyDoc(res)];
            && ReadMeta(st', i) == ReadMeta(st, i)
            && (i != id ==>
                  && (NoRecord(st', i) <==> NoRecord(st, i))
                  && (PassingResult(st', i) <==> PassingResult(st, i))
                  && (PassingResult(st, i) ==> st'[Key(i, VERIFY_FILE)] == st[Key(i, VERIFY_FILE)]))
  {
    KeyInjective(id, VERIFY_FILE, i, META_FILE);
    KeyInjective(id, VERIFY_FILE, i, VERIFY_FILE);
  }

  /** A result that was earned on the present meta.json keeps the rule. */
  lemma StoringKeepsChecked(st: Store, passed: set<Verification>, id: string, m: Meta, res: VerifyResult)
    requires Checked(st, passed) && ValidID(id)
    requires ReadMeta(st, id).Some? ==> ReadMeta(st, id).value == m
    requires res.ok && res.id == id ==> Deserved(passed, m, res)
    ensures Checked(st[Key(id, VERIFY_FILE) := VerifyDoc(res)], passed)
  {
    var st' := st[Key(id, VERIFY_FILE) := VerifyDoc(res)];
    forall i | ValidID(i) && PassingResult(st', i) && ReadMeta(st', i).Some?
      ensures Deserved(passed, ReadMeta(st', i).value, st'[Key(i, VERIFY_FILE)].result)
    {
      VerifyKeepsOthers(st, id, res, i);
    }
  }

  lemma DumpKeepsChecked(st: Store, passed: set<Verification>, id: string, dumpFile: string, o: Obj)
    requires Checked(st, passed) && ValidID(id) && dumpFile in {DUMP_FILE, DUMP_FILE_AGE}
    ensures Checked(st[Key(id, dumpFile) := o], passed)
  {
    var st' := st[Key(id, dumpFile) := o];
    forall i | ValidID(i) && PassingResult(st', i) && ReadMeta(st', i).Some?
      ensures Deserved(passed, ReadMeta(st', i).value, st'[Key(i, VERIFY_FILE)].result)
    {
      DumpKeepsRecords(st, id, dumpFile, o, i);
    }
  }

  /** meta.json goes in where no verify.json is. */
  lemma MetaKeepsChecked(st: Store, passed: set<Verification>, id: string, o: Obj)
    requires Checked(st, passed) && ValidID(id) && NoRecord(st, id)
    ensures Checked(st[Key(id, META_FILE) := o], passed)
  {
    var st' := st[Key(id, META_FILE) := o];
    forall i | ValidID(i) && PassingResult(st', i) && ReadMeta(st', i).Some?
      ensures Deserved(passed, ReadMeta(st', i).value, st'[Key(i, VERIFY_FILE)].result)
    {
      MetaKeepsRecords(st, id, o, i);
    }
  }

  /** The IDs of the processes that act on the storage. */
  lemma ActorIsValid(hash: Hash, s: State, a: Action)
    requires Inv(hash, s) && VerInv(s) && Enabled(s, a)
    ensures a.TakeDump? || a.TakePutMeta? ==>
              ValidID(s.procs[a.pid].id) && s.procs[a.pid].dumpFile in {DUMP_FILE, DUMP_FILE_AGE}
              && s.procs[a.pid].id in s.used && NoRecord(s.store, s.procs[a.pid].id)
    ensures a.VerifyStore? || a.VerifyRun? ==> VerifyInv(s, s.procs[a.pid])
  {
    if a.TakeDump? || a.TakePutMeta? {
      assert TakeInv(hash, s.store, s.procs[a.pid]);
      assert BeforeMeta(s.procs[a.pid]);
    }
  }

  lemma StepChecked(hash: Hash, s: State, a: Action)
    requires Inv(hash, s) && VerInv(s) && Enabled(s, a)
    ensures Checked(Apply(hash, s, a).store, Apply(hash, s, a).passed)
  {
    ActorIsValid(hash, s, a);
    match a
    case TakeDump(pid, visible, stored) =>
      if visible.Some? {
        DumpKeepsChecked(s.store, s.passed, s.procs[pid].id, s.procs[pid].dumpFile, Blob(visible.value));
      }
    case TakePutMeta(pid, fate) =>
      MetaKeepsChecked(s.store, s.passed, s.procs[pid].id, MetaDoc(MetaOf(s.procs[pid])));
    case TakeDropMeta(pid, effect) =>
      FewerKeepChecked(s.store, Apply(hash, s, a).store, s.passed);
    case TakeDropDump(pid, effect) =>
      FewerKeepChecked(s.store, Apply(hash, s, a).store, s.passed);
    case DeleteMeta(pid, fate) =>
      FewerKeepChecked(s.store, Apply(hash, s, a).store, s.passed);
    case DeleteOne(pid, key, fate) =>
      FewerKeepChecked(s.store, Apply(hash, s, a).store, s.passed);
    case VerifyRun(pid, run) =>
      MorePassed(s.store, s.passed, Apply(hash, s, a).passed);
    case VerifyStore(pid, fate) =>
      var p := s.procs[pid];
      StoringKeepsChecked(s.store, s.passed, p.id, p.ver.meta, p.ver.result);
    case _ =>
  }

  /** A meta.json or verify.json appears only by the take or the verification of that generation. */
  lemma RecordAppears(hash: Hash, s: State, a: Action, id: string)
    requires Inv(hash, s) && VerInv(s) && Enabled(s, a) && ValidID(id)
    ensures var st' := Apply(hash, s, a).store;
            NoRecord(s.store, id) && !NoRecord(st', id) ==>
              (a.TakePutMeta? || a.VerifyStore?) && s.procs[a.pid].id == id
    ensures var st' := Apply(hash, s, a).store;
            ReadMeta(st', id).Some? ==>
              ReadMeta(st', id) == ReadMeta(s.store, id) || (a.TakePutMeta? && s.procs[a.pid].id == id)
  {
    ActorIsValid(hash, s, a);
    match a
    case TakeDump(pid, visible, stored) =>
      if visible.Some? {
        DumpKeepsRecords(s.store, s.procs[pid].id, s.procs[pid].dumpFile, Blob(visible.value), id);
      }
    case TakePutMeta(pid, fate) =>
      MetaKeepsRecords(s.store, s.procs[pid].id, MetaDoc(MetaOf(s.procs[pid])), id);
    case VerifyStore(pid, fate) =>
      VerifyKeepsOthers(s.store, s.procs[pid].id, s.procs[pid].ver.result, id);
    case _ =>
  }

  lemma StepUnused(hash: Hash, s: State, a: Action)
    requires Inv(hash, s) && VerInv(s) && Enabled(s, a)
    ensures Unused(Apply(hash, s, a).store, Apply(hash, s, a).used)
  {
    var s' := Apply(hash, s, a);
    ActorIsValid(hash, s, a);
    forall id | ValidID(id) && id !in s'.used ensures NoRecord(s'.store, id) {
      RecordAppears(hash, s, a, id);
    }
  }

  /** Takes that have not put their meta.json have neither record beside them. */
  lemma StepNoRecord(hash: Hash, s: State, a: Action, pid: nat)
    requires Inv(hash, s) && VerInv(s) && Enabled(s, a) && Fresh(s, a)
    requires pid in Apply(hash, s, a).procs && BeforeMeta(Apply(hash, s, a).procs[pid])
    ensures NoRecord(Apply(hash, s, a).store, Apply(hash, s, a).procs[pid].id)
  {
    var s' := Apply(hash, s, a);
    ActorIsValid(hash, s, a);
    var id := s'.procs[pid].id;
    if pid in s.procs {
      WasBefore(hash, s, a, pid);
      assert TakeInv(hash, s.store, s.procs[pid]);
      RecordAppears(hash, s, a, id);
      assert a.TakePutMeta? ==> a.pid != pid;
    }
  }

  /** What a verification knows when it has just read meta.json, and after its stages. */
  lemma OwnVerify(hash: Hash, s: State, a: Action, pid: nat)
    requires Inv(hash, s) && VerInv(s) && Enabled(s, a) && pid in s.procs
    requires var s' := Apply(hash, s, a); Holds(s'.procs[pid]) && s'.procs[pid] != s.procs[pid]
    ensures VerifyInv(Apply(hash, s, a), Apply(hash, s, a).procs[pid])
  {
    ActorIsValid(hash, s, a);
    var p := s.procs[pid];
    assert ValidID(p.id);
    if a.VerifyRun? {
      OkMeans(p.id, p.ver.meta.rowCounts, a.run);
    } else {
      assert ReadMeta(s.store, p.id).Some? ==> !NoRecord(s.store, p.id);
    }
  }

  /** What the verifications that do not move still know. */
  lemma OtherVerify(hash: Hash, s: State, a: Action, pid: nat)
    requires Inv(hash, s) && VerInv(s) && Enabled(s, a) && pid in s.procs
    requires var s' := Apply(hash, s, a); Holds(s.procs[pid]) && s'.procs[pid] == s.procs[pid]
    ensures VerifyInv(Apply(hash, s, a), s.procs[pid])
  {
    var p := s.procs[pid];
    assert VerifyInv(s, p);
    RecordAppears(hash, s, a, p.id);
    if a.TakePutMeta? {
      assert BeforeMeta(s.procs[a.pid]);
    }
  }

  /** No verification works on a generation that is still being taken. */
  lemma StepApart(hash: Hash, s: State, a: Action, p: nat, q: nat)
    requires Inv(hash, s) && VerInv(s) && Enabled(s, a) && Fresh(s, a)
    requires var s' := Apply(hash, s, a);
             p in s'.procs && q in s'.procs && BeforeMeta(s'.procs[p]) && Holds(s'.procs[q])
    ensures Apply(hash, s, a).procs[p].id != Apply(hash, s, a).procs[q].id
  {
    var s' := Apply(hash, s, a);
    assert q in s.procs && s.procs[q].id == s'.procs[q].id;
    if s.procs[q] != s'.procs[q] {
      OwnApart(hash, s, a, p, q);
    } else if p in s.procs {
      WasBefore(hash, s, a, p);
    } else {
      assert VerifyInv(s, s.procs[q]);
      assert s'.procs[p].id !in s.used;
    }
  }

  lemma WasBefore(hash: Hash, s: State, a: Action, p: nat)
    requires Enabled(s, a) && p in s.procs && BeforeMeta(Apply(hash, s, a).procs[p])
    ensures BeforeMeta(s.procs[p]) && Apply(hash, s, a).procs[p].id == s.procs[p].id
  {}

  lemma OwnApart(hash: Hash, s: State, a: Action, p: nat, q: nat)
    requires VerInv(s) && Enabled(s, a) && q in s.procs
    requires var s' := Apply(hash, s, a);
             p in s'.procs && BeforeMeta(s'.procs[p]) && Holds(s'.procs[q]) && s'.procs[q] != s.procs[q]
    ensures Apply(hash, s, a).procs[p].id != Apply(hash, s, a).procs[q].id
  {
    assert a.VerifyRead? || a.VerifyRun?;
    assert p in s.procs && s.procs[p] == Apply(hash, s, a).procs[p];
    assert NoRecord(s.store, s.procs[p].id);
  }

  lemma StepUsed(hash: Hash, s: State, a: Action, pid: nat)
    requires VerInv(s) && Enabled(s, a)
    requires var s' := Apply(hash, s, a); pid in s'.procs && s'.procs[pid].Take?
    ensures Apply(hash, s, a).procs[pid].id in Apply(hash, s, a).used
  {
    assert pid in s.procs ==> s.procs[pid].Take? && s.procs[pid].id == Apply(hash, s, a).procs[pid].id;
  }

  lemma StepVerify(hash: Hash, s: State, a: Action, pid: nat)
    requires Inv(hash, s) && VerInv(s) && Enabled(s, a)
    requires var s' := Apply(hash, s, a); pid in s'.procs && Holds(s'.procs[pid])
    ensures VerifyInv(Apply(hash, s, a), Apply(hash, s, a).procs[pid])
  {
    if Apply(hash, s, a).procs[pid] == s.procs[pid] {
      OtherVerify(hash, s, a, pid);
    } else {
      OwnVerify(hash, s, a, pid);
    }
  }

  lemma StepVerInv(hash: Hash, s: State, a: Action)
    requires Inv(hash, s) && VerInv(s) && Enabled(s, a) && Fresh(s, a)
    ensures VerInv(Apply(hash, s, a))
  {
    var s' := Apply(hash, s, a);
    StepChecked(hash, s, a);
    StepUnused(hash, s, a);
    forall pid | pid in s'.procs && s'.procs[pid].Take? ensures s'.procs[pid].id in s'.used {
      StepUsed(hash, s, a, pid);
    }
    forall pid | pid in s'.procs && BeforeMeta(s'.procs[pid]) ensures NoRecord(s'.store, s'.procs[pid].id) {
      StepNoRecord(hash, s, a, pid);
    }
    forall pid | pid in s'.procs && Holds(s'.procs[pid]) ensures VerifyInv(s', s'.procs[pid]) {
      StepVerify(hash, s, a, pid);
    }
    forall p, q | p in s'.procs && q in s'.procs && BeforeMeta(s'.procs[p]) && Holds(s'.procs[q])
      ensures s'.procs[p].id != s'.procs[q].id
    {
      StepApart(hash, s, a, p, q);
    }
  }

  lemma {:induction false} RunVerInv(hash: Hash, s: State, acts: seq<Action>)
    requires Inv(hash, s) && VerInv(s) && IsRun(hash, s, acts) && FreshRun(hash, s, acts)
    ensures VerInv(End(hash, s, acts))
    decreases |acts|
  {
    if acts == [] {
    } else {
      StepInv(hash, s, acts[0]);
      StepVerInv(hash, s, acts[0]);
      RunVerInv(hash, Apply(hash, s, acts[0]), acts[1..]);
    }
  }

  /** A storage nobody is working on, whose generations are as they should be. */
  ghost predicate Start(hash: Hash, s: State) {
    s.procs == map[] && Trustworthy(hash, s.store) && Checked(s.store, s.passed) && Unused(s.store, s.used)
  }

  /**
    After any interleaving of takes, deletions and verifications with any failures
    and stops, when no take reuses an ID: complete generations have the dump their
    meta.json describes, and a passing verify.json beside a readable meta.json was
    earned by a verification of that meta.json.
    */
  lemma PassingResultsAreEarned(hash: Hash, s: State, acts: seq<Action>)
    requires Start(hash, s) && IsRun(hash, s, acts) && FreshRun(hash, s, acts)
    ensures var t := End(hash, s, acts); Trustworthy(hash, t.store) && Checked(t.store, t.passed)
  {
    RunInv(hash, s, acts);
    RunVerInv(hash, s, acts);
  }

  /** The empty storage is a start. */
  lemma EmptyIsStart(hash: Hash)
    ensures Start(hash, State(map[], map[], {}, {}))
  {}

  // ----- why a take must not use an ID again -----

  /** The meta.json of a take of `id`, with an empty dump and one row in a table `table`. */
  function MetaWith(hash: Hash, id: string, table: string): Meta {
    Meta(META_FORMAT_VERSION, id, DUMP_FILE, 0, hash([]), map[table := 1])
  }

  /** A verification, a deletion and a second take of one generation. */
  ghost function Trio(hash: Hash, id: string, st: Store, ver: VerifyPhase, t: TakePhase): State {
    State(st, map[1 := Verify(id, ver), 2 := Delete(id, DelRest({})), 3 := Take(id, DUMP_FILE, map["b" := 1], t)],
          {id}, {})
  }

  /** All three stages pass on the generation that had table "a". */
  function GoodRun(): RunReport {
    RunReport(Recorded(3), [], false, map["a" := 1])
  }

  lemma GoodRunPasses(hash: Hash, id: string)
    ensures Possible(MetaWith(hash, id, "a").rowCounts, GoodRun())
    ensures ResultOf(id, GoodRun()).ok
  {
    assert "a" in map["a" := 1];
    assert 0 <= 3 <= 3 && GoodRun().stages == Recorded(3);
    RecordedAllPassed(3);
  }

  /** The verification ends after the second take has put its meta.json. */
  lemma LateResult(hash: Hash, id: string, st: Store) returns (acts: seq<Action>)
    requires ValidID(id) && ReadMeta(st, id) == Some(MetaWith(hash, id, "b"))
    ensures var s := Trio(hash, id, st, VerRunning(MetaWith(hash, id, "a")), TakeEnded(true));
            IsRun(hash, s, acts) && !Checked(End(hash, s, acts).store, End(hash, s, acts).passed)
  {
    var a := MetaWith(hash, id, "a");
    var s := Trio(hash, id, st, VerRunning(a), TakeEnded(true));
    GoodRunPasses(hash, id);
    var res := ResultOf(id, GoodRun());
    var s1 := Trio(hash, id, st, VerStoring(a, res), TakeEnded(true)).(passed := {Verification(id, map["a" := 1])});
    var s2 := Apply(hash, s1, VerifyStore(1, Done));
    acts := [VerifyStore(1, Done)];
    ConsRun(hash, s1, acts[0], s2, []);
    ConsRun(hash, s, VerifyRun(1, GoodRun()), s1, acts);
    acts := [VerifyRun(1, GoodRun())] + acts;
    VerifyKeepsOthers(st, id, res, id);
    assert "a" in map["a" := 1] && "a" !in map["b" := 1];
    assert PassingResult(s2.store, id) && ReadMeta(s2.store, id) == Some(MetaWith(hash, id, "b"));
  }

  /** The second take of the ID from its check of the dump to its meta.json. */
  lemma SecondMeta(hash: Hash, id: string, dumped: Store) returns (acts: seq<Action>)
    requires ValidID(id) && dumped == map[Key(id, DUMP_FILE) := Blob([])]
    ensures var s := Trio(hash, id, dumped, VerRunning(MetaWith(hash, id, "a")), Checking(0, hash([])));
            IsRun(hash, s, acts) && !Checked(End(hash, s, acts).store, End(hash, s, acts).passed)
  {
    var ver := VerRunning(MetaWith(hash, id, "a"));
    NamesDiffer(id, DUMP_FILE);
    var both: Store := dumped[Key(id, META_FILE) := MetaDoc(MetaWith(hash, id, "b"))];
    acts := LateResult(hash, id, both);
    ConsRun(hash, Trio(hash, id, dumped, ver, WritingMeta(0, hash([]))), TakePutMeta(3, Done),
            Trio(hash, id, both, ver, TakeEnded(true)), acts);
    acts := [TakePutMeta(3, Done)] + acts;
    ConsRun(hash, Trio(hash, id, dumped, ver, Checking(0, hash([]))), TakeCheck(3, true),
            Trio(hash, id, dumped, ver, WritingMeta(0, hash([]))), acts);
    acts := [TakeCheck(3, true)] + acts;
  }

  /** Before that its listing and its dump. */
  lemma SecondTake(hash: Hash, id: string) returns (acts: seq<Action>)
    requires ValidID(id)
    ensures var s := Trio(hash, id, map[], VerRunning(MetaWith(hash, id, "a")), Listing);
            IsRun(hash, s, acts) && !Checked(End(hash, s, acts).store, End(hash, s, acts).passed)
  {
    var ver := VerRunning(MetaWith(hash, id, "a"));
    var dumped: Store := map[Key(id, DUMP_FILE) := Blob([])];
    acts := SecondMeta(hash, id, dumped);
    ConsRun(hash, Trio(hash, id, map[], ver, Dumping), TakeDump(3, Some([]), Some((0, hash([])))),
            Trio(hash, id, dumped, ver, Checking(0, hash([]))), acts);
    acts := [TakeDump(3, Some([]), Some((0, hash([]))))] + acts;
    ConsRun(hash, Trio(hash, id, map[], ver, Listing), TakeList(3, true), Trio(hash, id, map[], ver, Dumping), acts);
    acts := [TakeList(3, true)] + acts;
  }

  /** The same before the second take: a verification has read meta.json, and a deletion is on its way. */
  ghost function Duo(id: string, st: Store, ver: VerifyPhase, del: DeletePhase): State {
    State(st, map[1 := Verify(id, ver), 2 := Delete(id, del)], {id}, {})
  }

  /** A deletion removes the meta.json of the first take, all there is. */
  lemma FirstTakeGoes(hash: Hash, id: string, st: Store, ver: VerifyPhase) returns (acts: seq<Action>)
    requires ValidID(id) && st == map[Key(id, META_FILE) := MetaDoc(MetaWith(hash, id, "a"))]
    ensures IsRun(hash, Duo(id, st, ver, DelListing), acts)
    ensures End(hash, Duo(id, st, ver, DelListing), acts) == Duo(id, map[], ver, DelRest({}))
  {
    var k := Key(id, META_FILE);
    KeyRoundTrip(id, k);
    assert ObjectsOf(st, id) == {k};
    assert {k} - {k} == {} && st - {k} == map[];
    acts := [DeleteMeta(2, Done)];
    ConsRun(hash, Duo(id, st, ver, DelMeta({k})), acts[0], Duo(id, map[], ver, DelRest({})), []);
    ConsRun(hash, Duo(id, st, ver, DelListing), DeleteList(2, true), Duo(id, st, ver, DelMeta({k})), acts);
    acts := [DeleteList(2, true)] + acts;
  }

  /** Before that a verification reads it. */
  lemma FirstTakeRead(hash: Hash, id: string) returns (s: State, acts: seq<Action>)
    requires ValidID(id)
    ensures Start(hash, s) && IsRun(hash, s, acts)
    ensures End(hash, s, acts) == Duo(id, map[], VerRunning(MetaWith(hash, id, "a")), DelRest({}))
  {
    var ver := VerRunning(MetaWith(hash, id, "a"));
    var st: Store := map[Key(id, META_FILE) := MetaDoc(ver.meta)];
    s := State(st, map[], {id}, {});
    FirstIsStart(hash, id);
    acts := FirstTakeGoes(hash, id, st, ver);
    var reading, read := s.(procs := map[1 := Verify(id, VerReading)]), s.(procs := map[1 := Verify(id, ver)]);
    ConsRun(hash, read, SpawnDelete(2, id), Duo(id, st, ver, DelListing), acts);
    acts := [SpawnDelete(2, id)] + acts;
    ConsRun(hash, reading, VerifyRead(1, true), read, acts);
    acts := [VerifyRead(1, true)] + acts;
    ConsRun(hash, s, SpawnVerify(1, id), reading, acts);
    acts := [SpawnVerify(1, id)] + acts;
  }

  lemma FirstIsStart(hash: Hash, id: string)
    requires ValidID(id)
    ensures Start(hash, State(map[Key(id, META_FILE) := MetaDoc(MetaWith(hash, id, "a"))], map[], {id}, {}))
  {
    var st: Store := map[Key(id, META_FILE) := MetaDoc(MetaWith(hash, id, "a"))];
    forall i | ValidID(i)
      ensures Key(i, VERIFY_FILE) !in st && Key(i, DUMP_FILE) !in st
      ensures Key(i, META_FILE) in st ==> i == id
    {
      KeyInjective(i, VERIFY_FILE, id, META_FILE);
      KeyInjective(i, DUMP_FILE, id, META_FILE);
      KeyInjective(i, META_FILE, id, META_FILE);
    }
  }

  /** With an ID used twice a passing verify.json can be about a generation that is gone. */
  lemma ReusedIdMisleads(hash: Hash, id: string)
    requires ValidID(id)
    ensures exists s, acts :: Start(hash, s) && IsRun(hash, s, acts)
                              && !Checked(End(hash, s, acts).store, End(hash, s, acts).passed)
  {
    var s, first := FirstTakeRead(hash, id);
    var acts := SecondTake(hash, id);
    ConsRun(hash, End(hash, s, first), SpawnTake(3, id, DUMP_FILE, map["b" := 1]),
            Trio(hash, id, map[], VerRunning(MetaWith(hash, id, "a")), Listing), acts);
    Joined(hash, s, first, [SpawnTake(3, id, DUMP_FILE, map["b" := 1])] + acts);
  }
}
