/**
  Why meta.json is written last and deleted first: readers such as
  Restorer.Load look only at meta.json. When no two live takes or deletions work
  on the same generation, a readable meta.json always has its dump next to it,
  except after one sequence of failing calls that this module pins down.
  */
module MetaOrder {
  import opened Basics
  import opened Layout
  import opened GenerationStore

  /** Every readable meta.json has the dump it names. */
  ghost predicate MetaHasDump(st: Store) {
    forall id :: ValidID(id) && ReadMeta(st, id).Some? ==> Complete(st, id)
  }

  /** A take or a deletion that may still make calls. Verifications leave meta.json and dumps alone. */
  predicate Works(p: Proc) {
    !p.Verify? && p.Live()
  }

  /** No two working processes share a generation. */
  ghost predicate Exclusive(procs: map<nat, Proc>) {
    forall p, q | p in procs && q in procs && p != q && Works(procs[p]) && Works(procs[q]) ::
      procs[p].id != procs[q].id
  }

  /** No take or deletion works on generation `id`. */
  predicate Free(s: State, id: string) {
    forall p :: p in s.procs && Works(s.procs[p]) ==> s.procs[p].id != id
  }

  /** A take or a deletion may start only on a generation nobody is working on. */
  predicate MayStart(s: State, a: Action) {
    a.SpawnTake? || a.SpawnDelete? ==> Free(s, a.id)
  }

  /** Take's clean-up removes the dump although its meta.json is still there. */
  predicate Orphans(s: State, a: Action)
    requires Enabled(s, a)
  {
    a.TakeDropDump? && a.effect && Key(s.procs[a.pid].id, META_FILE) in s.store
  }

  ghost predicate ProcInv(hash: Hash, st: Store, p: Proc)
    requires !p.Verify?
  {
    var k := Key(p.id, META_FILE);
    match p
    case Take(id, dumpFile, _, ph) =>
      && ValidID(id) && dumpFile in {DUMP_FILE, DUMP_FILE_AGE}
      && (ph.Dumping? || ph.Checking? || ph.WritingMeta? ==> k !in st)
      && (ph.WritingMeta? ==> Key(id, dumpFile) in st)
      && (ph.DroppingMeta? ==> Key(id, dumpFile) in st)
      && (ph.DroppingMeta? || ph.DroppingDump? ==> k in st ==>
            ReadMeta(st, id).Some? && ReadMeta(st, id).value.dumpFile == dumpFile)
    case Delete(id, ph) =>
      && (ph.DelMeta? ==> ValidID(id) && (k !in ph.objs ==> k !in st) && forall o :: o in ph.objs ==> Key(id, "") <= o)
      && (ph.DelRest? ==> ValidID(id) && k !in st && forall o :: o in ph.objs ==> Key(id, "") <= o)
      && (ph.DelListing? ==> ValidID(id))
  }

  ghost predicate Inv(hash: Hash, s: State) {
    && Exclusive(s.procs)
    && ValidVerifies(s.procs)
    && forall pid :: pid in s.procs && Works(s.procs[pid]) ==> ProcInv(hash, s.store, s.procs[pid])
  }

  predicate Touches(a: Action) {
    a.TakeDump? || a.TakePutMeta? || a.TakeDropMeta? || a.TakeDropDump? || a.DeleteMeta? || a.DeleteOne?
  }

  /** The keys a step of process `pid` can touch lie in its own generation. */
  lemma OwnKeys(hash: Hash, s: State, a: Action, pid: nat, id: string, name: string)
    requires Inv(hash, s) && Enabled(s, a) && pid in s.procs && Works(s.procs[pid])
    requires Touches(a) && a.pid == pid
    requires ValidID(id) && id != s.procs[pid].id
    ensures var k := Key(id, name);
            var st' := Apply(hash, s, a).store;
            (k in st' <==> k in s.store) && (k in st' ==> st'[k] == s.store[k])
  {
    var p := s.procs[pid];
    assert ProcInv(hash, s.store, p);
    KeyInjective(p.id, META_FILE, id, name);
    if p.Take? { KeyInjective(p.id, p.dumpFile, id, name); }
    if a.DeleteOne? {
      KeyRoundTrip(p.id, a.key);
      KeyRoundTrip(id, Key(id, name));
    }
  }

  lemma StoreUntouched(hash: Hash, s: State, a: Action)
    requires Enabled(s, a) && !Touches(a) && !a.VerifyStore?
    ensures Apply(hash, s, a).store == s.store
  {}

  /** A verify.json takes no generation's meta.json and completes at most more. */
  lemma VerifyStoreKeeps(hash: Hash, s: State, a: Action, id: string)
    requires Inv(hash, s) && Enabled(s, a) && a.VerifyStore? && ValidID(id)
    ensures var st' := Apply(hash, s, a).store;
            && (Key(id, META_FILE) in st' <==> Key(id, META_FILE) in s.store)
            && (Key(id, META_FILE) in st' ==> st'[Key(id, META_FILE)] == s.store[Key(id, META_FILE)])
            && (forall k :: k in s.store ==> k in st')
  {
    KeyInjective(s.procs[a.pid].id, VERIFY_FILE, id, META_FILE);
  }

  /** Generations the step is not about keep their meta.json and their dump. */
  lemma OthersKept(hash: Hash, s: State, a: Action, id: string)
    requires Inv(hash, s) && Enabled(s, a) && ValidID(id)
    requires !a.VerifyStore?
    requires Touches(a) ==> a.pid in s.procs && Works(s.procs[a.pid]) && s.procs[a.pid].id != id
    ensures var st' := Apply(hash, s, a).store;
            && (forall name :: Key(id, name) in st' <==> Key(id, name) in s.store)
            && (forall name :: Key(id, name) in st' ==> st'[Key(id, name)] == s.store[Key(id, name)])
            && ReadMeta(st', id) == ReadMeta(s.store, id)
            && (Complete(st', id) <==> Complete(s.store, id))
  {
    var st' := Apply(hash, s, a).store;
    if Touches(a) {
      forall name
        ensures Key(id, name) in st' <==> Key(id, name) in s.store
        ensures Key(id, name) in st' ==> st'[Key(id, name)] == s.store[Key(id, name)]
      {
        OwnKeys(hash, s, a, a.pid, id, name);
      }
    } else {
      StoreUntouched(hash, s, a);
    }
  }

  /** In its own generation a step breaks the rule exactly when it orphans meta.json. */
  lemma OwnGeneration(hash: Hash, s: State, a: Action)
    requires Inv(hash, s) && Enabled(s, a) && Touches(a) && Works(s.procs[a.pid]) && MetaHasDump(s.store)
    requires ValidID(s.procs[a.pid].id)
    ensures var st', id := Apply(hash, s, a).store, s.procs[a.pid].id;
            (ReadMeta(st', id).Some? ==> Complete(st', id)) <==> !Orphans(s, a)
  {
    var p := s.procs[a.pid];
    assert ProcInv(hash, s.store, p);
    if p.Take? {
      NamesDiffer(p.id, p.dumpFile);
    }
    var k := Key(p.id, META_FILE);
    match a
    case DeleteOne(_, key, fate) => assert k !in s.store;
    case DeleteMeta(_, fate) =>
    case TakeDropDump(_, effect) =>
      if k in s.store { assert ReadMeta(s.store, p.id).Some? && Complete(s.store, p.id); }
    case TakeDropMeta(_, effect) =>
    case TakePutMeta(_, fate) =>
    case TakeDump(_, visible, stored) =>
    case _ =>
  }

  /** One step from a good storage leaves it good, unless it orphans a meta.json, and then it never does. */
  lemma StepMetaHasDump(hash: Hash, s: State, a: Action)
    requires Inv(hash, s) && Enabled(s, a) && MetaHasDump(s.store)
    ensures MetaHasDump(Apply(hash, s, a).store) <==> !Orphans(s, a)
  {
    var st' := Apply(hash, s, a).store;
    if Touches(a) {
      var id := s.procs[a.pid].id;
      assert ProcInv(hash, s.store, s.procs[a.pid]);
      OwnGeneration(hash, s, a);
      forall i | ValidID(i) && i != id && ReadMeta(st', i).Some? ensures Complete(st', i) {
        OthersKept(hash, s, a, i);
      }
    } else if a.VerifyStore? {
      forall i | ValidID(i) && ReadMeta(st', i).Some? ensures Complete(st', i) {
        VerifyStoreKeeps(hash, s, a, i);
        assert ReadMeta(s.store, i).Some?;
      }
    } else {
      StoreUntouched(hash, s, a);
    }
  }

  /** Only the new process of a spawn was not there before; the others keep their generation. */
  lemma WorkedBefore(hash: Hash, s: State, a: Action, pid: nat)
    requires Enabled(s, a) && pid in Apply(hash, s, a).procs && Works(Apply(hash, s, a).procs[pid])
    ensures if pid in s.procs then Works(s.procs[pid]) && s.procs[pid].id == Apply(hash, s, a).procs[pid].id
            else (a.SpawnTake? || a.SpawnDelete?) && a.pid == pid && Apply(hash, s, a).procs[pid].id == a.id
  {}

  lemma StepExclusive(hash: Hash, s: State, a: Action)
    requires Exclusive(s.procs) && Enabled(s, a) && MayStart(s, a)
    ensures Exclusive(Apply(hash, s, a).procs)
  {
    var s' := Apply(hash, s, a);
    forall p, q | p in s'.procs && q in s'.procs && p != q && Works(s'.procs[p]) && Works(s'.procs[q])
      ensures s'.procs[p].id != s'.procs[q].id
    {
      WorkedBefore(hash, s, a, p);
      WorkedBefore(hash, s, a, q);
    }
  }

  lemma TakeMoved(hash: Hash, s: State, a: Action, pid: nat)
    requires Inv(hash, s) && Enabled(s, a) && IsTake(s, pid) && Works(s.procs[pid])
    requires var s' := Apply(hash, s, a);
             pid in s'.procs && Works(s'.procs[pid]) && s'.procs[pid] != s.procs[pid]
    ensures ProcInv(hash, Apply(hash, s, a).store, Apply(hash, s, a).procs[pid])
  {
    var p := s.procs[pid];
    assert ProcInv(hash, s.store, p);
    NamesDiffer(p.id, p.dumpFile);
    if a.TakeList? {
      assert Key(p.id, META_FILE) in s.store ==> HasObjects(s.store, p.id) by {
        KeyRoundTrip(p.id, Key(p.id, META_FILE));
      }
    }
  }

  lemma DeleteMoved(hash: Hash, s: State, a: Action, pid: nat)
    requires Inv(hash, s) && Enabled(s, a) && IsDelete(s, pid) && Works(s.procs[pid])
    requires var s' := Apply(hash, s, a);
             pid in s'.procs && Works(s'.procs[pid]) && s'.procs[pid] != s.procs[pid]
    ensures ProcInv(hash, Apply(hash, s, a).store, Apply(hash, s, a).procs[pid])
  {
    var p := s.procs[pid];
    assert ProcInv(hash, s.store, p);
    KeyRoundTrip(p.id, Key(p.id, META_FILE));
  }

  lemma NotMoved(hash: Hash, s: State, a: Action, pid: nat)
    requires Inv(hash, s) && Enabled(s, a) && pid in s.procs && Works(s.procs[pid])
    requires var s' := Apply(hash, s, a); pid in s'.procs && s'.procs[pid] == s.procs[pid]
    ensures ProcInv(hash, Apply(hash, s, a).store, s.procs[pid])
  {
    var p := s.procs[pid];
    assert ProcInv(hash, s.store, p);
    assert Touches(a) ==> a.pid != pid && Works(s.procs[a.pid]);
    if ValidID(p.id) {
      if a.VerifyStore? {
        VerifyStoreKeeps(hash, s, a, p.id);
      } else {
        OthersKept(hash, s, a, p.id);
      }
    }
  }

  lemma StepInv(hash: Hash, s: State, a: Action)
    requires Inv(hash, s) && Enabled(s, a) && MayStart(s, a)
    ensures Inv(hash, Apply(hash, s, a))
  {
    var s' := Apply(hash, s, a);
    StepExclusive(hash, s, a);
    StepValid(hash, s, a);
    forall pid | pid in s'.procs && Works(s'.procs[pid]) ensures ProcInv(hash, s'.store, s'.procs[pid]) {
      WorkedBefore(hash, s, a, pid);
      if pid in s.procs {
        if s'.procs[pid] == s.procs[pid] {
          NotMoved(hash, s, a, pid);
        } else if s.procs[pid].Take? {
          TakeMoved(hash, s, a, pid);
        } else {
          DeleteMoved(hash, s, a, pid);
        }
      }
    }
  }

  ghost predicate ExclusiveRun(hash: Hash, s: State, acts: seq<Action>)
    requires IsRun(hash, s, acts)
    decreases |acts|
  {
    acts == [] || (MayStart(s, acts[0]) && ExclusiveRun(hash, Apply(hash, s, acts[0]), acts[1..]))
  }

  /** At the start, after every call, and at the end of the run. */
  ghost predicate AlwaysGood(hash: Hash, s: State, acts: seq<Action>)
    requires IsRun(hash, s, acts)
    decreases |acts|
  {
    MetaHasDump(s.store) && (acts == [] || AlwaysGood(hash, Apply(hash, s, acts[0]), acts[1..]))
  }

  /** The calls of one take that leave its meta.json where it should not be. */
  predicate PutMisreported(acts: seq<Action>, pid: nat) {
    TakePutMeta(pid, FailedButApplied) in acts
  }

  predicate DropMetaFailed(acts: seq<Action>, pid: nat) {
    TakeDropMeta(pid, false) in acts
  }

  predicate DumpDropped(acts: seq<Action>, pid: nat) {
    TakeDropDump(pid, true) in acts
  }

  /**
    Take `pid` was told that its meta.json was not stored although it was, then
    could not remove it, and then removed the dump.
    */
  predicate Misled(acts: seq<Action>, pid: nat) {
    PutMisreported(acts, pid) && DropMetaFailed(acts, pid) && DumpDropped(acts, pid)
  }

  /** What the calls so far say about a take, and about the meta.json of one that is cleaning up. */
  ghost predicate Remembers(past: seq<Action>, s: State, pid: nat) {
    if pid !in s.procs then !PutMisreported(past, pid) && !DropMetaFailed(past, pid) && !DumpDropped(past, pid)
    else
      var p := s.procs[pid];
      p.Take? && p.Live() ==>
        var k := Key(p.id, META_FILE);
        && !DumpDropped(past, pid)
        && (!p.take.DroppingDump? ==> !DropMetaFailed(past, pid))
        && (!p.take.DroppingDump? && !p.take.DroppingMeta? ==> !PutMisreported(past, pid))
        && (p.take.DroppingMeta? ==> (k in s.store <==> PutMisreported(past, pid)))
        && (p.take.DroppingDump? ==> (k in s.store <==> PutMisreported(past, pid) && DropMetaFailed(past, pid)))
  }

  ghost predicate AllRemembered(past: seq<Action>, s: State) {
    && (forall pid :: Remembers(past, s, pid))
    && (forall pid :: !Misled(past, pid))
  }

  /** One more call adds only itself to the calls so far. */
  lemma OneMore(past: seq<Action>, a: Action, pid: nat)
    ensures var now := past + [a];
            && (PutMisreported(now, pid) <==> PutMisreported(past, pid) || a == TakePutMeta(pid, FailedButApplied))
            && (DropMetaFailed(now, pid) <==> DropMetaFailed(past, pid) || a == TakeDropMeta(pid, false))
            && (DumpDropped(now, pid) <==> DumpDropped(past, pid) || a == TakeDropDump(pid, true))
  {}

  /** A working take's own meta.json is moved only by its own calls. */
  lemma OwnMetaKept(hash: Hash, s: State, a: Action, pid: nat)
    requires Inv(hash, s) && Enabled(s, a) && IsTake(s, pid) && Works(s.procs[pid])
    requires Apply(hash, s, a).procs[pid] == s.procs[pid]
    ensures var k := Key(s.procs[pid].id, META_FILE); k in Apply(hash, s, a).store <==> k in s.store
  {
    assert ProcInv(hash, s.store, s.procs[pid]);
    if a.VerifyStore? {
      VerifyStoreKeeps(hash, s, a, s.procs[pid].id);
    } else {
      assert Touches(a) ==> a.pid != pid && Works(s.procs[a.pid]);
      OthersKept(hash, s, a, s.procs[pid].id);
    }
  }

  /** The take that moves. */
  lemma MoverRemembers(hash: Hash, past: seq<Action>, s: State, a: Action, pid: nat)
    requires Inv(hash, s) && Enabled(s, a) && Remembers(past, s, pid)
    requires IsTake(s, pid) && Works(s.procs[pid]) && Apply(hash, s, a).procs[pid] != s.procs[pid]
    ensures Remembers(past + [a], Apply(hash, s, a), pid)
  {
    var p := s.procs[pid];
    assert ProcInv(hash, s.store, p);
    NamesDiffer(p.id, p.dumpFile);
    OneMore(past, a, pid);
  }

  lemma StepRemembers(hash: Hash, past: seq<Action>, s: State, a: Action, pid: nat)
    requires Inv(hash, s) && Enabled(s, a) && Remembers(past, s, pid)
    ensures Remembers(past + [a], Apply(hash, s, a), pid)
  {
    OneMore(past, a, pid);
    if IsTake(s, pid) && Works(s.procs[pid]) {
      if Apply(hash, s, a).procs[pid] == s.procs[pid] {
        OwnMetaKept(hash, s, a, pid);
      } else {
        MoverRemembers(hash, past, s, a, pid);
      }
    }
  }

  /** The orphaning call is the last of the three. */
  lemma OrphansWhenMisled(hash: Hash, past: seq<Action>, s: State, a: Action)
    requires Inv(hash, s) && Enabled(s, a) && AllRemembered(past, s)
    ensures Orphans(s, a) <==> exists pid :: Misled(past + [a], pid)
  {
    forall pid | Misled(past + [a], pid) ensures Orphans(s, a) {
      OneMore(past, a, pid);
      assert Remembers(past, s, pid) && !Misled(past, pid);
    }
    if Orphans(s, a) {
      OneMore(past, a, a.pid);
      assert Remembers(past, s, a.pid);
      assert Misled(past + [a], a.pid);
    }
  }

  lemma {:induction false} FatesDecide(hash: Hash, past: seq<Action>, s: State, acts: seq<Action>)
    requires Inv(hash, s) && MetaHasDump(s.store) && AllRemembered(past, s)
    requires IsRun(hash, s, acts) && ExclusiveRun(hash, s, acts)
    ensures AlwaysGood(hash, s, acts) <==> forall pid :: !Misled(past + acts, pid)
    decreases |acts|
  {
    if acts == [] {
      assert past + acts == past;
    } else {
      var a, s' := acts[0], Apply(hash, s, acts[0]);
      assert past + acts == past + [a] + acts[1..];
      StepMetaHasDump(hash, s, a);
      OrphansWhenMisled(hash, past, s, a);
      if Orphans(s, a) {
        var pid :| Misled(past + [a], pid);
        assert Misled(past + acts, pid);
      } else {
        StepInv(hash, s, a);
        forall pid ensures Remembers(past + [a], s', pid) {
          StepRemembers(hash, past, s, a, pid);
        }
        FatesDecide(hash, past + [a], s', acts[1..]);
      }
    }
  }

  /**
    Whatever fails and wherever a process stops: readers find the dump of every
    readable meta.json at every moment of the run exactly if no take had its
    meta.json Put work but report an error, then its removal of meta.json fail, and
    then its removal of the dump work.
    */
  lemma ReadableMetaHasDump(hash: Hash, s: State, acts: seq<Action>)
    requires MetaHasDump(s.store) && s.procs == map[] && IsRun(hash, s, acts) && ExclusiveRun(hash, s, acts)
    ensures AlwaysGood(hash, s, acts) <==> forall pid :: !Misled(acts, pid)
  {
    assert [] + acts == acts;
    FatesDecide(hash, [], s, acts);
  }

  ghost function Empty(): State {
    State(map[], map[], {}, {})
  }

  /** A take of `id` in phase `ph`, alone. */
  ghost function Alone(st: Store, id: string, ph: TakePhase): State {
    State(st, map[0 := Take(id, DUMP_FILE, map[], ph)], {id}, {})
  }

  /** The meta.json Put works but reports an error, its removal fails, and the removal of the dump works. */
  lemma MisreportedMeta(hash: Hash, id: string, bytes: seq<Byte>) returns (acts: seq<Action>)
    requires ValidID(id)
    ensures var s := Alone(map[Key(id, DUMP_FILE) := Blob(bytes)], id, WritingMeta(|bytes|, hash(bytes)));
            IsRun(hash, s, acts) && !MetaHasDump(End(hash, s, acts).store)
  {
    NamesDiffer(id, DUMP_FILE);
    var meta, dump := Key(id, META_FILE), Key(id, DUMP_FILE);
    var doc := MetaDoc(Meta(META_FORMAT_VERSION, id, DUMP_FILE, |bytes|, hash(bytes), map[]));
    var both: Store := map[dump := Blob(bytes)][meta := doc];
    var last := Alone(both - {dump}, id, TakeEnded(false));
    assert ReadMeta(last.store, id).Some? && !Complete(last.store, id);
    acts := [TakeDropDump(0, true)];
    ConsRun(hash, Alone(both, id, DroppingDump), acts[0], last, []);
    ConsRun(hash, Alone(both, id, DroppingMeta), TakeDropMeta(0, false), Alone(both, id, DroppingDump), acts);
    acts := [TakeDropMeta(0, false)] + acts;
    var writing := WritingMeta(|bytes|, hash(bytes));
    ConsRun(hash, Alone(map[dump := Blob(bytes)], id, writing), TakePutMeta(0, FailedButApplied),
            Alone(both, id, DroppingMeta), acts);
    acts := [TakePutMeta(0, FailedButApplied)] + acts;
  }

  /** The exception is real: one take into an empty storage can leave a readable meta.json without its dump. */
  lemma OrphanedMetaExists(hash: Hash, id: string, bytes: seq<Byte>)
    requires ValidID(id)
    ensures exists acts :: IsRun(hash, Empty(), acts) && !MetaHasDump(End(hash, Empty(), acts).store)
  {
    var acts := MisreportedMeta(hash, id, bytes);
    var dumped: Store := map[Key(id, DUMP_FILE) := Blob(bytes)];
    var sum := (|bytes|, hash(bytes));
    ConsRun(hash, Alone(dumped, id, Checking(sum.0, sum.1)), TakeCheck(0, true),
            Alone(dumped, id, WritingMeta(sum.0, sum.1)), acts);
    acts := [TakeCheck(0, true)] + acts;
    ConsRun(hash, Alone(map[], id, Dumping), TakeDump(0, Some(bytes), Some(sum)),
            Alone(dumped, id, Checking(sum.0, sum.1)), acts);
    acts := [TakeDump(0, Some(bytes), Some(sum))] + acts;
    ConsRun(hash, Alone(map[], id, Listing), TakeList(0, true), Alone(map[], id, Dumping), acts);
    acts := [TakeList(0, true)] + acts;
    ConsRun(hash, Empty(), SpawnTake(0, id, DUMP_FILE, map[]), Alone(map[], id, Listing), acts);
  }
}
