/**
  The backup generation protocol over an object store (`internal/backup/take.go`,
  `generation_delete.go`, `generations.go`, `verify.go`).

  Any number of Take, DeleteGeneration and Verify processes run interleaved, one
  storage call at a time. Each call may work, may fail, or may take effect and still
  report an error, and a process may stop between any two of its calls.
  `hash` is the sha256 function; nothing is assumed about it.
  */
module GenerationStore {
  import opened Basics
  import opened Layout
  import opened VerifyResults

  type Hash = seq<Byte> -> string

  datatype Meta = Meta(formatVersion: int, id: string, dumpFile: string, dumpSize: nat, dumpSha: string,
                       rowCounts: map<string, int>)

  /** An object, by what reading it yields. */
  datatype Obj = Blob(bytes: seq<Byte>) | MetaDoc(meta: Meta) | VerifyDoc(result: VerifyResult) | Other

  type Store = map<string, Obj>

  const META_FORMAT_VERSION := 1

  /** ReadMeta: meta.json of a known format that names its own generation. */
  function ReadMeta(st: Store, id: string): (m: Option<Meta>) {
    var k := Key(id, META_FILE);
    if k in st && st[k].MetaDoc? && st[k].meta.formatVersion == META_FORMAT_VERSION && st[k].meta.id == id
    then Some(st[k].meta) else None
  }

  /** Generation.Complete: a readable meta.json and the dump it names. */
  predicate Complete(st: Store, id: string) {
    var m := ReadMeta(st, id);
    m.Some? && Key(id, m.value.dumpFile) in st
  }

  predicate Matches(hash: Hash, o: Obj, size: nat, sha: string) {
    o.Blob? && |o.bytes| == size && hash(o.bytes) == sha
  }

  /** Of a complete generation: the dump has the size and hash its meta.json records. */
  predicate DumpIsRecorded(hash: Hash, st: Store, id: string)
    requires Complete(st, id)
  {
    var m := ReadMeta(st, id).value;
    Matches(hash, st[Key(id, m.dumpFile)], m.dumpSize, m.dumpSha)
  }

  /** A readable meta.json names a dump, and the dump is as recorded if it is there. */
  ghost predicate Trustworthy(hash: Hash, st: Store) {
    && (forall id :: ValidID(id) && ReadMeta(st, id).Some? ==> ReadMeta(st, id).value.dumpFile != VERIFY_FILE)
    && (forall id :: ValidID(id) && Complete(st, id) ==> DumpIsRecorded(hash, st, id))
  }

  predicate HasObjects(st: Store, id: string) {
    exists k :: k in st && Key(id, "") <= k
  }

  datatype TakePhase =
    | Listing
    | Dumping
    | Checking(size: nat, sha: string)
    | WritingMeta(size: nat, sha: string)
    | DroppingMeta
    | DroppingDump
    | TakeEnded(ok: bool)

  datatype DeletePhase = DelListing | DelMeta(objs: set<string>) | DelRest(objs: set<string>) | DelEnded(ok: bool)

  datatype VerifyPhase =
    | VerReading
    | VerRunning(meta: Meta)
    | VerStoring(meta: Meta, result: VerifyResult)
    | VerEnded(ok: bool)

  datatype Proc =
    | Take(id: string, dumpFile: string, rowCounts: map<string, int>, take: TakePhase)
    | Delete(id: string, del: DeletePhase)
    | Verify(id: string, ver: VerifyPhase)
  {
    predicate Live() {
      if Take? then !take.TakeEnded? else if Delete? then !del.DelEnded? else !ver.VerEnded?
    }

    /** Stopped where it was: it makes no further call. */
    function Halted(): Proc {
      if Take? then this.(take := TakeEnded(false))
      else if Delete? then this.(del := DelEnded(false))
      else this.(ver := VerEnded(false))
    }
  }

  /** A verification of generation `id` that passed, and the row counts it found. */
  datatype Verification = Verification(id: string, counted: map<string, int>)

  /** `used` and `passed` are history: the IDs takes have had, and the verifications that passed. */
  datatype State = State(store: Store, procs: map<nat, Proc>, used: set<string>, passed: set<Verification>)

  datatype Action =
    | SpawnTake(pid: nat, id: string, dumpFile: string, rowCounts: map<string, int>)
    | SpawnDelete(pid: nat, id: string)
    | SpawnVerify(pid: nat, id: string)
    | Stop(pid: nat)
    | TakeList(pid: nat, ok: bool)
    | TakeGiveUp(pid: nat)                                          // a failure before streamDump
    | TakeDump(pid: nat, visible: Option<seq<Byte>>, stored: Option<(nat, string)>)
    | TakeCheck(pid: nat, readable: bool)
    | TakePutMeta(pid: nat, fate: Fate)
    | TakeDropMeta(pid: nat, effect: bool)
    | TakeDropDump(pid: nat, effect: bool)
    | DeleteList(pid: nat, ok: bool)
    | DeleteMeta(pid: nat, fate: Fate)
    | DeleteOne(pid: nat, key: string, fate: Fate)
    | DeleteFinish(pid: nat)
    | VerifyRead(pid: nat, readable: bool)
    | VerifyRun(pid: nat, run: RunReport)
    | VerifyStore(pid: nat, fate: Fate)

  predicate IsTake(s: State, pid: nat) { pid in s.procs && s.procs[pid].Take? }
  predicate IsDelete(s: State, pid: nat) { pid in s.procs && s.procs[pid].Delete? }
  predicate IsVerify(s: State, pid: nat) { pid in s.procs && s.procs[pid].Verify? }

  predicate Enabled(s: State, a: Action) {
    match a
    // generation IDs come from the clock; two live takes never share one
    case SpawnTake(pid, id, dumpFile, rowCounts) =>
      pid !in s.procs && ValidID(id) && dumpFile in {DUMP_FILE, DUMP_FILE_AGE}
      && forall p :: p in s.procs && s.procs[p].Take? && s.procs[p].Live() ==> s.procs[p].id != id
    case SpawnDelete(pid, id) => pid !in s.procs
    case SpawnVerify(pid, id) => pid !in s.procs
    case Stop(pid) => pid in s.procs && s.procs[pid].Live()
    case TakeList(pid, ok) => IsTake(s, pid) && s.procs[pid].take.Listing?
    case TakeGiveUp(pid) => IsTake(s, pid) && s.procs[pid].take.Dumping?
    case TakeDump(pid, visible, stored) => IsTake(s, pid) && s.procs[pid].take.Dumping?
    case TakeCheck(pid, readable) => IsTake(s, pid) && s.procs[pid].take.Checking?
    case TakePutMeta(pid, fate) => IsTake(s, pid) && s.procs[pid].take.WritingMeta?
    case TakeDropMeta(pid, effect) => IsTake(s, pid) && s.procs[pid].take.DroppingMeta?
    case TakeDropDump(pid, effect) => IsTake(s, pid) && s.procs[pid].take.DroppingDump?
    case DeleteList(pid, ok) => IsDelete(s, pid) && s.procs[pid].del.DelListing?
    case DeleteMeta(pid, fate) => IsDelete(s, pid) && s.procs[pid].del.DelMeta?
    case DeleteOne(pid, key, fate) => IsDelete(s, pid) && s.procs[pid].del.DelRest? && key in s.procs[pid].del.objs
    case DeleteFinish(pid) => IsDelete(s, pid) && s.procs[pid].del.DelRest? && s.procs[pid].del.objs == {}
    case VerifyRead(pid, readable) => IsVerify(s, pid) && s.procs[pid].ver.VerReading?
    case VerifyRun(pid, run) =>
      IsVerify(s, pid) && s.procs[pid].ver.VerRunning? && Possible(s.procs[pid].ver.meta.rowCounts, run)
    case VerifyStore(pid, fate) => IsVerify(s, pid) && s.procs[pid].ver.VerStoring?
  }

  function SetTake(s: State, pid: nat, ph: TakePhase): State
    requires IsTake(s, pid)
  {
    s.(procs := s.procs[pid := s.procs[pid].(take := ph)])
  }

  function SetDelete(s: State, pid: nat, ph: DeletePhase): State
    requires IsDelete(s, pid)
  {
    s.(procs := s.procs[pid := s.procs[pid].(del := ph)])
  }

  function SetVerify(s: State, pid: nat, ph: VerifyPhase): State
    requires IsVerify(s, pid)
  {
    s.(procs := s.procs[pid := s.procs[pid].(ver := ph)])
  }

  function Without(st: Store, key: string, effect: bool): Store {
    if effect then st - {key} else st
  }

  /** List(prefix of the generation). */
  function ObjectsOf(st: Store, id: string): set<string> {
    set k | k in st && Key(id, "") <= k
  }

  function MetaOf(p: Proc): Meta
    requires p.Take? && p.take.WritingMeta?
  {
    Meta(META_FORMAT_VERSION, p.id, p.dumpFile, p.take.size, p.take.sha, p.rowCounts)
  }

  function Apply(hash: Hash, s: State, a: Action): State
    requires Enabled(s, a)
  {
    match a
    case SpawnTake(pid, id, dumpFile, rowCounts) =>
      s.(procs := s.procs[pid := Take(id, dumpFile, rowCounts, Listing)], used := s.used + {id})
    case SpawnDelete(pid, id) =>
      s.(procs := s.procs[pid := Delete(id, if ValidID(id) then DelListing else DelEnded(false))])
    case SpawnVerify(pid, id) =>
      s.(procs := s.procs[pid := Verify(id, if ValidID(id) then VerReading else VerEnded(false))])
    case Stop(pid) => s.(procs := s.procs[pid := s.procs[pid].Halted()])
    case TakeList(pid, ok) =>
      SetTake(s, pid, if !ok || HasObjects(s.store, s.procs[pid].id) then TakeEnded(false) else Dumping)
    case TakeGiveUp(pid) => SetTake(s, pid, TakeEnded(false))
    case TakeDump(pid, visible, stored) =>
      var p := s.procs[pid];
      var st := if visible.Some? then s.store[Key(p.id, p.dumpFile) := Blob(visible.value)] else s.store;
      SetTake(s, pid, if stored.Some? then Checking(stored.value.0, stored.value.1) else DroppingDump).(store := st)
    case TakeCheck(pid, readable) =>
      var p := s.procs[pid];
      var k := Key(p.id, p.dumpFile);
      if readable && k in s.store && Matches(hash, s.store[k], p.take.size, p.take.sha)
      then SetTake(s, pid, WritingMeta(p.take.size, p.take.sha))
      else SetTake(s, pid, DroppingDump)
    case TakePutMeta(pid, fate) =>
      var p := s.procs[pid];
      var st := if fate.FailedNoEffect? then s.store else s.store[Key(p.id, META_FILE) := MetaDoc(MetaOf(p))];
      SetTake(s, pid, if fate.Done? then TakeEnded(true) else DroppingMeta).(store := st)
    case TakeDropMeta(pid, effect) =>
      SetTake(s, pid, DroppingDump).(store := Without(s.store, Key(s.procs[pid].id, META_FILE), effect))
    case TakeDropDump(pid, effect) =>
      var p := s.procs[pid];
      SetTake(s, pid, TakeEnded(false)).(store := Without(s.store, Key(p.id, p.dumpFile), effect))
    case DeleteList(pid, ok) =>
      var objs := ObjectsOf(s.store, s.procs[pid].id);
      SetDelete(s, pid, if !ok || objs == {} then DelEnded(false) else DelMeta(objs))
    case DeleteMeta(pid, fate) =>
      var p := s.procs[pid];
      var k := Key(p.id, META_FILE);
      if k !in p.del.objs then SetDelete(s, pid, DelRest(p.del.objs))
      else SetDelete(s, pid, if fate.Done? then DelRest(p.del.objs - {k}) else DelEnded(false))
           .(store := Without(s.store, k, !fate.FailedNoEffect?))
    case DeleteOne(pid, key, fate) =>
      var p := s.procs[pid];
      SetDelete(s, pid, if fate.Done? then DelRest(p.del.objs - {key}) else DelEnded(false))
      .(store := Without(s.store, key, !fate.FailedNoEffect?))
    case DeleteFinish(pid) => SetDelete(s, pid, DelEnded(true))
    case VerifyRead(pid, readable) =>
      var m := ReadMeta(s.store, s.procs[pid].id);
      SetVerify(s, pid, if readable && m.Some? then VerRunning(m.value) else VerEnded(false))
    case VerifyRun(pid, run) =>
      var id := s.procs[pid].id;
      var res := ResultOf(id, run);
      SetVerify(s, pid, if run.err then VerEnded(false) else VerStoring(s.procs[pid].ver.meta, res))
      .(passed := if res.ok then s.passed + {Verification(id, run.counted)} else s.passed)
    case VerifyStore(pid, fate) =>
      var p := s.procs[pid];
      SetVerify(s, pid, VerEnded(fate.Done?))
      .(store := if fate.FailedNoEffect? then s.store else s.store[Key(p.id, VERIFY_FILE) := VerifyDoc(p.ver.result)])
  }

  ghost predicate IsRun(hash: Hash, s: State, acts: seq<Action>)
    decreases |acts|
  {
    acts == [] || (Enabled(s, acts[0]) && IsRun(hash, Apply(hash, s, acts[0]), acts[1..]))
  }

  ghost function End(hash: Hash, s: State, acts: seq<Action>): State
    requires IsRun(hash, s, acts)
    decreases |acts|
  {
    if acts == [] then s else End(hash, Apply(hash, s, acts[0]), acts[1..])
  }

  /** A run starts with one action. */
  lemma ConsRun(hash: Hash, s: State, a: Action, t: State, rest: seq<Action>)
    requires Enabled(s, a) && Apply(hash, s, a) == t && IsRun(hash, t, rest)
    ensures IsRun(hash, s, [a] + rest) && End(hash, s, [a] + rest) == End(hash, t, rest)
  {
    assert ([a] + rest)[1..] == rest;
  }

  lemma {:induction false} Joined(hash: Hash, s: State, first: seq<Action>, rest: seq<Action>)
    requires IsRun(hash, s, first) && IsRun(hash, End(hash, s, first), rest)
    ensures IsRun(hash, s, first + rest) && End(hash, s, first + rest) == End(hash, End(hash, s, first), rest)
    decreases |first|
  {
    if first == [] {
      assert first + rest == rest;
    } else {
      assert (first + rest)[1..] == first[1..] + rest;
      Joined(hash, Apply(hash, s, first[0]), first[1..], rest);
    }
  }

  // ----- a complete generation is trustworthy, in every interleaving -----

  /** What a take knows about its own generation while it runs. */
  ghost predicate TakeInv(hash: Hash, st: Store, p: Proc)
    requires p.Take?
  {
    && ValidID(p.id) && p.dumpFile in {DUMP_FILE, DUMP_FILE_AGE}
    && (p.take.Dumping? || p.take.Checking? || p.take.WritingMeta? ==> Key(p.id, META_FILE) !in st)
    && (p.take.WritingMeta? && Key(p.id, p.dumpFile) in st ==>
          Matches(hash, st[Key(p.id, p.dumpFile)], p.take.size, p.take.sha))
  }

  ghost predicate DistinctTakes(procs: map<nat, Proc>) {
    forall p, q | p in procs && q in procs && p != q && procs[p].Take? && procs[q].Take?
      && procs[p].Live() && procs[q].Live() :: procs[p].id != procs[q].id
  }

  /** The generation a live verification works on has a valid ID. */
  ghost predicate ValidVerifies(procs: map<nat, Proc>) {
    forall pid :: pid in procs && procs[pid].Verify? && procs[pid].Live() ==> ValidID(procs[pid].id)
  }

  ghost predicate Inv(hash: Hash, s: State) {
    && ValidVerifies(s.procs)
    && Trustworthy(hash, s.store)
    && DistinctTakes(s.procs)
    && forall pid :: pid in s.procs && s.procs[pid].Take? && s.procs[pid].Live() ==>
         TakeInv(hash, s.store, s.procs[pid])
  }

  lemma NamesDiffer(id: string, dumpFile: string)
    requires dumpFile in {DUMP_FILE, DUMP_FILE_AGE}
    ensures Key(id, dumpFile) != Key(id, META_FILE)
  {
    KeyInjective(id, dumpFile, id, META_FILE);
  }

  /** Some objects of `st`, as they are there. */
  ghost predicate Fewer(st: Store, less: Store) {
    forall k :: k in less ==> k in st && less[k] == st[k]
  }

  lemma FewerKeepTrust(hash: Hash, st: Store, less: Store)
    requires Trustworthy(hash, st) && Fewer(st, less)
    ensures Trustworthy(hash, less)
  {
    forall id | ValidID(id) && ReadMeta(less, id).Some? ensures ReadMeta(st, id) == ReadMeta(less, id) {}
    forall id | ValidID(id) && Complete(less, id) ensures DumpIsRecorded(hash, less, id) {
      assert Complete(st, id);
    }
  }

  /** Removing objects cannot make a generation look complete when it is not trustworthy. */
  lemma RemovalKeepsTrust(hash: Hash, st: Store, key: string, effect: bool)
    requires Trustworthy(hash, st)
    ensures Trustworthy(hash, Without(st, key, effect))
  {
    FewerKeepTrust(hash, st, Without(st, key, effect));
  }

  /** An object added to a generation that has no meta.json does not complete any generation. */
  lemma DumpKeepsTrust(hash: Hash, st: Store, id: string, dumpFile: string, bytes: seq<Byte>)
    requires Trustworthy(hash, st) && ValidID(id) && dumpFile in {DUMP_FILE, DUMP_FILE_AGE}
    requires Key(id, META_FILE) !in st
    ensures Trustworthy(hash, st[Key(id, dumpFile) := Blob(bytes)])
  {
    var st' := st[Key(id, dumpFile) := Blob(bytes)];
    forall i | ValidID(i) && ReadMeta(st', i).Some?
      ensures ReadMeta(st', i) == ReadMeta(st, i)
      ensures Complete(st', i) ==> DumpIsRecorded(hash, st', i)
    {
      KeyInjective(id, dumpFile, i, META_FILE);
      KeyInjective(id, dumpFile, i, ReadMeta(st', i).value.dumpFile);
      assert Complete(st', i) ==> Complete(st, i);
    }
  }

  /** meta.json goes in only when the dump it describes was read back. */
  lemma MetaKeepsTrust(hash: Hash, st: Store, p: Proc)
    requires Trustworthy(hash, st) && p.Take? && p.take.WritingMeta? && TakeInv(hash, st, p)
    ensures Trustworthy(hash, st[Key(p.id, META_FILE) := MetaDoc(MetaOf(p))])
  {
    var st' := st[Key(p.id, META_FILE) := MetaDoc(MetaOf(p))];
    NamesDiffer(p.id, p.dumpFile);
    forall i | ValidID(i) && ReadMeta(st', i).Some?
      ensures ReadMeta(st', i).value.dumpFile != VERIFY_FILE
      ensures Complete(st', i) ==> DumpIsRecorded(hash, st', i)
    {
      KeyInjective(p.id, META_FILE, i, META_FILE);
      if i != p.id {
        KeyInjective(p.id, META_FILE, i, ReadMeta(st', i).value.dumpFile);
        assert ReadMeta(st', i) == ReadMeta(st, i);
        assert Complete(st', i) ==> Complete(st, i);
      }
    }
  }

  /** A verify.json is nobody's meta.json and nobody's dump. */
  lemma VerifyKeepsTrust(hash: Hash, st: Store, id: string, res: VerifyResult)
    requires Trustworthy(hash, st) && ValidID(id)
    ensures Trustworthy(hash, st[Key(id, VERIFY_FILE) := VerifyDoc(res)])
  {
    var st' := st[Key(id, VERIFY_FILE) := VerifyDoc(res)];
    forall i | ValidID(i) && ReadMeta(st', i).Some?
      ensures ReadMeta(st', i) == ReadMeta(st, i)
      ensures Complete(st', i) ==> DumpIsRecorded(hash, st', i)
    {
      KeyInjective(id, VERIFY_FILE, i, META_FILE);
      assert ReadMeta(st', i) == ReadMeta(st, i);
      KeyInjective(id, VERIFY_FILE, i, ReadMeta(st', i).value.dumpFile);
      assert Complete(st', i) ==> Complete(st, i);
    }
  }

  /** A write to another generation leaves what a take knows alone. */
  lemma OtherGeneration(hash: Hash, st: Store, p: Proc, id: string, name: string, o: Obj)
    requires p.Take? && TakeInv(hash, st, p) && ValidID(id) && id != p.id
    ensures TakeInv(hash, st[Key(id, name) := o], p)
  {
    KeyInjective(id, name, p.id, META_FILE);
    KeyInjective(id, name, p.id, p.dumpFile);
  }

  lemma StepTrust(hash: Hash, s: State, a: Action)
    requires Inv(hash, s) && Enabled(s, a)
    ensures Trustworthy(hash, Apply(hash, s, a).store)
  {
    match a
    case TakeDump(pid, visible, stored) =>
      if visible.Some? {
        DumpKeepsTrust(hash, s.store, s.procs[pid].id, s.procs[pid].dumpFile, visible.value);
      }
    case TakePutMeta(pid, fate) =>
      MetaKeepsTrust(hash, s.store, s.procs[pid]);
    case TakeDropMeta(pid, effect) =>
      RemovalKeepsTrust(hash, s.store, Key(s.procs[pid].id, META_FILE), effect);
    case TakeDropDump(pid, effect) =>
      RemovalKeepsTrust(hash, s.store, Key(s.procs[pid].id, s.procs[pid].dumpFile), effect);
    case DeleteMeta(pid, fate) =>
      RemovalKeepsTrust(hash, s.store, Key(s.procs[pid].id, META_FILE), !fate.FailedNoEffect?);
    case DeleteOne(pid, key, fate) =>
      RemovalKeepsTrust(hash, s.store, key, !fate.FailedNoEffect?);
    case VerifyStore(pid, fate) =>
      VerifyKeepsTrust(hash, s.store, s.procs[pid].id, s.procs[pid].ver.result);
    case _ =>
  }

  /** What the take that moves knows afterwards. */
  lemma OwnStep(hash: Hash, s: State, a: Action, pid: nat)
    requires Inv(hash, s) && Enabled(s, a) && IsTake(s, pid) && s.procs[pid].Live()
    requires var s' := Apply(hash, s, a);
             IsTake(s', pid) && s'.procs[pid].Live() && s'.procs[pid] != s.procs[pid]
    ensures TakeInv(hash, Apply(hash, s, a).store, Apply(hash, s, a).procs[pid])
  {
    var p := s.procs[pid];
    assert TakeInv(hash, s.store, p);
    NamesDiffer(p.id, p.dumpFile);
    if a.TakeList? {
      assert Key(p.id, META_FILE) in s.store ==> HasObjects(s.store, p.id) by {
        KeyRoundTrip(p.id, Key(p.id, META_FILE));
      }
    }
  }

  /** What the takes that do not move still know. */
  lemma OtherStep(hash: Hash, s: State, a: Action, pid: nat)
    requires Inv(hash, s) && Enabled(s, a) && IsTake(s, pid) && s.procs[pid].Live()
    requires var s' := Apply(hash, s, a);
             IsTake(s', pid) && s'.procs[pid] == s.procs[pid]
    ensures TakeInv(hash, Apply(hash, s, a).store, s.procs[pid])
  {
    var p := s.procs[pid];
    assert TakeInv(hash, s.store, p);
    match a
    case TakeDump(q, visible, stored) =>
      if visible.Some? {
        OtherGeneration(hash, s.store, p, s.procs[q].id, s.procs[q].dumpFile, Blob(visible.value));
      }
    case TakePutMeta(q, fate) =>
      OtherGeneration(hash, s.store, p, s.procs[q].id, META_FILE, MetaDoc(MetaOf(s.procs[q])));
    case VerifyStore(q, fate) =>
      KeyInjective(s.procs[q].id, VERIFY_FILE, p.id, META_FILE);
      KeyInjective(s.procs[q].id, VERIFY_FILE, p.id, p.dumpFile);
    case _ =>
  }

  lemma StepDistinct(hash: Hash, s: State, a: Action)
    requires DistinctTakes(s.procs) && Enabled(s, a)
    ensures DistinctTakes(Apply(hash, s, a).procs)
  {
    var s' := Apply(hash, s, a);
    forall p, q | p in s'.procs && q in s'.procs && p != q && s'.procs[p].Take? && s'.procs[q].Take?
                  && s'.procs[p].Live() && s'.procs[q].Live()
      ensures s'.procs[p].id != s'.procs[q].id
    {
      assert p in s.procs && q in s.procs ==>
          s.procs[p].Take? && s.procs[q].Take? && s.procs[p].Live() && s.procs[q].Live()
          && s.procs[p].id == s'.procs[p].id && s.procs[q].id == s'.procs[q].id;
    }
  }

  lemma StepValid(hash: Hash, s: State, a: Action)
    requires ValidVerifies(s.procs) && Enabled(s, a)
    ensures ValidVerifies(Apply(hash, s, a).procs)
  {
    var s' := Apply(hash, s, a);
    forall pid | pid in s'.procs && s'.procs[pid].Verify? && s'.procs[pid].Live() ensures ValidID(s'.procs[pid].id) {
      assert pid in s.procs ==> s.procs[pid].Verify? && s.procs[pid].Live() && s.procs[pid].id == s'.procs[pid].id;
    }
  }

  lemma StepInv(hash: Hash, s: State, a: Action)
    requires Inv(hash, s) && Enabled(s, a)
    ensures Inv(hash, Apply(hash, s, a))
  {
    var s' := Apply(hash, s, a);
    StepTrust(hash, s, a);
    StepDistinct(hash, s, a);
    StepValid(hash, s, a);
    forall pid | pid in s'.procs && s'.procs[pid].Take? && s'.procs[pid].Live()
      ensures TakeInv(hash, s'.store, s'.procs[pid])
    {
      if pid in s.procs {
        if s'.procs[pid] == s.procs[pid] {
          OtherStep(hash, s, a, pid);
        } else {
          OwnStep(hash, s, a, pid);
        }
      }
    }
  }

  lemma {:induction false} RunInv(hash: Hash, s: State, acts: seq<Action>)
    requires Inv(hash, s) && IsRun(hash, s, acts)
    ensures Inv(hash, End(hash, s, acts))
    decreases |acts|
  {
    if acts == [] {
    } else {
      StepInv(hash, s, acts[0]);
      RunInv(hash, Apply(hash, s, acts[0]), acts[1..]);
    }
  }

  /**
    From a trustworthy storage with nothing running, after any interleaving of
    takes, deletions and verifications with any failures and stops: every complete
    generation has exactly the dump its meta.json describes.
    */
  lemma CompleteGenerationsAreTrustworthy(hash: Hash, s: State, acts: seq<Action>)
    requires Trustworthy(hash, s.store) && s.procs == map[] && IsRun(hash, s, acts)
    ensures Trustworthy(hash, End(hash, s, acts).store)
  {
    RunInv(hash, s, acts);
  }

  // ----- what a take that succeeds leaves -----

  /** A take that reports success has just put a meta.json that describes the dump it read back. */
  lemma SuccessWroteMeta(hash: Hash, s: State, a: Action, pid: nat)
    requires Inv(hash, s) && Enabled(s, a) && IsTake(s, pid) && s.procs[pid].Live()
    requires Apply(hash, s, a).procs[pid].take == TakeEnded(true)
    ensures var st, p := Apply(hash, s, a).store, s.procs[pid]; var m := ReadMeta(st, p.id);
            && m.Some? && m.value.dumpFile == p.dumpFile && m.value.rowCounts == p.rowCounts
            && (Key(p.id, p.dumpFile) in st ==>
                  Matches(hash, st[Key(p.id, p.dumpFile)], m.value.dumpSize, m.value.dumpSha))
  {
    var p := s.procs[pid];
    assert TakeInv(hash, s.store, p);
    NamesDiffer(p.id, p.dumpFile);
  }

  /** `s` with the take in another phase and another storage. */
  function With(s: State, pid: nat, ph: TakePhase, st: Store): State
    requires IsTake(s, pid)
  {
    s.(procs := s.procs[pid := s.procs[pid].(take := ph)], store := st)
  }

  /** Dump and read back. */
  lemma GoodDump(hash: Hash, s: State, pid: nat, bytes: seq<Byte>, size: nat, sha: string)
    requires IsTake(s, pid) && s.procs[pid].take.Dumping? && size == |bytes| && sha == hash(bytes)
    ensures var st := s.store[Key(s.procs[pid].id, s.procs[pid].dumpFile) := Blob(bytes)];
            var acts := [TakeDump(pid, Some(bytes), Some((size, sha))), TakeCheck(pid, true)];
            IsRun(hash, s, acts) && End(hash, s, acts) == With(s, pid, WritingMeta(size, sha), st)
  {
    var st := s.store[Key(s.procs[pid].id, s.procs[pid].dumpFile) := Blob(bytes)];
    var t, u := With(s, pid, Checking(size, sha), st), With(s, pid, WritingMeta(size, sha), st);
    var a, b := TakeDump(pid, Some(bytes), Some((size, sha))), TakeCheck(pid, true);
    ConsRun(hash, t, b, u, []);
    ConsRun(hash, s, a, t, [b]);
    assert [b] + [] == [b] && [a] + [b] == [a, b];
  }

  /** Four calls that work: a take of a free ID ends well, with its dump and what it recorded of it. */
  lemma GoodTake(hash: Hash, s: State, pid: nat, bytes: seq<Byte>)
    requires IsTake(s, pid) && s.procs[pid].take.Listing? && !HasObjects(s.store, s.procs[pid].id)
    ensures var p := s.procs[pid];
            var m := Meta(1, p.id, p.dumpFile, |bytes|, hash(bytes), p.rowCounts);
            var st := s.store[Key(p.id, p.dumpFile) := Blob(bytes)][Key(p.id, META_FILE) := MetaDoc(m)];
            exists acts :: IsRun(hash, s, acts) && End(hash, s, acts) == With(s, pid, TakeEnded(true), st)
  {
    var p := s.procs[pid];
    var size, sha := |bytes|, hash(bytes);
    var m := Meta(1, p.id, p.dumpFile, size, sha, p.rowCounts);
    var dumped := s.store[Key(p.id, p.dumpFile) := Blob(bytes)];
    var done := With(s, pid, TakeEnded(true), dumped[Key(p.id, META_FILE) := MetaDoc(m)]);
    var s1, s3 := With(s, pid, Dumping, s.store), With(s, pid, WritingMeta(size, sha), dumped);
    GoodDump(hash, s1, pid, bytes, size, sha);
    ConsRun(hash, s3, TakePutMeta(pid, Done), done, []);
    var two := [TakeDump(pid, Some(bytes), Some((size, sha))), TakeCheck(pid, true)];
    Joined(hash, s1, two, [TakePutMeta(pid, Done)] + []);
    ConsRun(hash, s, TakeList(pid, true), s1, two + ([TakePutMeta(pid, Done)] + []));
  }
}
