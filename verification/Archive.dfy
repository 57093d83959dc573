/**
  The operations on the backup storage that run to completion: Verify,
  ListGenerations, latestVerified and DeleteGeneration.
  */
module Archive {
  import opened Basics
  import opened Text
  import opened Layout
  import opened RowCounts
  import opened VerifyResults
  import opened GenerationStore
  import opened VerifiedStore
  import opened Sums

  /** A listing: the size of every listed object. */
  type Listing = map<string, nat>

  datatype Generation = Generation(
    id: string,
    objects: set<string>,
    meta: Option<Meta>,
    metaError: bool,
    verify: Option<VerifyResult>)
  {
    predicate IsComplete() {
      meta.Some? && Key(id, meta.value.dumpFile) in objects
    }

    /** latestVerified must not look past this generation. */
    predicate CannotTell() {
      metaError || (IsComplete() && verify.None? && Key(id, VERIFY_FILE) in objects)
    }

    predicate Passes() {
      !metaError && IsComplete() && verify.Some? && VerifyPassed(id, verify.value)
    }
  }

  /** `g` was read from `st`; a read may fail, but it does not make things up. */
  ghost predicate ReadFrom(st: Store, g: Generation) {
    && g.objects == ObjectsOf(st, g.id)
    && (g.meta.Some? ==> ReadMeta(st, g.id) == g.meta && !g.metaError)
    && (Key(g.id, META_FILE) in st ==> g.meta.Some? || g.metaError)
    && (Key(g.id, META_FILE) !in st ==> g.meta.None? && !g.metaError)
    && (g.verify.Some? ==> Key(g.id, VERIFY_FILE) in st && st[Key(g.id, VERIFY_FILE)] == VerifyDoc(g.verify.value))
  }

  /** No read of it failed. */
  ghost predicate ReadWhole(st: Store, g: Generation) {
    && g.meta == ReadMeta(st, g.id)
    && (Key(g.id, VERIFY_FILE) in st && st[Key(g.id, VERIFY_FILE)].VerifyDoc? ==> g.verify.Some?)
  }

  datatype Latest = Chosen(id: string) | CannotRead(id: string) | NoVerified | ListFailed

  ghost predicate SortedById(gens: seq<Generation>) {
    forall i, j :: 0 <= i < j < |gens| ==> Less(gens[i].id, gens[j].id)
  }

  /** `gens` is what ListGenerations finds in `st`: its generations, oldest first. */
  ghost predicate IsListing(st: Store, gens: seq<Generation>) {
    && SortedById(gens)
    && (forall g :: g in gens ==> ReadFrom(st, g) && ValidID(g.id))
    && forall id :: id in GenerationIds(st) <==> exists i :: 0 <= i < |gens| && gens[i].id == id
  }

  /** The generations from position `i` on were read and did not pass. */
  ghost predicate LookedPast(gens: seq<Generation>, i: nat) {
    forall j :: i <= j < |gens| ==> !gens[j].CannotTell() && !gens[j].Passes()
  }

  /** latestVerified on the listed generations, oldest first. */
  method LatestVerified(gens: seq<Generation>) returns (r: Latest)
    ensures !r.ListFailed?
    ensures r.Chosen? ==>
              exists i :: 0 <= i < |gens| && gens[i].id == r.id && gens[i].Passes() && LookedPast(gens, i + 1)
    ensures r.CannotRead? ==>
              exists i :: 0 <= i < |gens| && gens[i].id == r.id && gens[i].CannotTell() && LookedPast(gens, i + 1)
    ensures r.NoVerified? ==> LookedPast(gens, 0)
  {
    var n := |gens|;
    while n > 0
      invariant 0 <= n <= |gens|
      invariant LookedPast(gens, n)
    {
      var g := gens[n - 1];
      if g.metaError {
        return CannotRead(g.id);
      }
      if g.IsComplete() {
        if g.verify.None? && Key(g.id, VERIFY_FILE) in g.objects {
          return CannotRead(g.id);
        }
        if g.verify.Some? && VerifyPassed(g.id, g.verify.value) {
          return Chosen(g.id);
        }
      }
      n := n - 1;
    }
    r := NoVerified;
  }

  class Archive {
    var store: Store
    /** The verifications that passed, with the row counts they found. */
    ghost var passed: set<Verification>
    ghost var history: seq<Store>
    const sizeOf: Obj -> nat
    /** No call to the storage fails. */
    const callsWork: bool
    ghost const hash: Hash

    /** The storage at the end of a run of takes, deletions and verifications. */
    constructor (sizeOf: Obj -> nat, callsWork: bool, store: Store, ghost hash: Hash, ghost s: State,
                 ghost acts: seq<Action>)
      requires Start(hash, s) && IsRun(hash, s, acts) && FreshRun(hash, s, acts) && store == End(hash, s, acts).store
      ensures Valid() && this.store == store && this.sizeOf == sizeOf && this.hash == hash
      ensures this.callsWork == callsWork
      ensures passed == End(hash, s, acts).passed
    {
      this.store, passed, history := store, End(hash, s, acts).passed, [];
      this.sizeOf, this.callsWork, this.hash := sizeOf, callsWork, hash;
      PassingResultsAreEarned(hash, s, acts);
    }

    /** Complete generations are as recorded, and every passing verify.json was earned. */
    ghost predicate Valid()
      reads this
    {
      Trustworthy(hash, store) && Checked(store, passed)
    }

    /** How a call to the storage ends. */
    method Attempt() returns (fate: Fate)
      ensures callsWork ==> fate == Done
    {
      fate := *;
      if callsWork {
        fate := Done;
      }
    }

    /** Verify: run the three stages and store the result as verify.json. */
    method Verify(id: string, env: Environment) returns (res: VerifyResult, err: bool)
      requires Valid()
      modifies this`store, this`passed
      ensures Valid() && old(passed) <= passed
      ensures store == old(store) || store == old(store)[Key(id, VERIFY_FILE) := VerifyDoc(res)]
      ensures store != old(store) ==> ValidID(id) && ReadMeta(old(store), id).Some? && res.id == id
      // a nil error means verify.json has been stored with the returned result
      ensures !err ==> ValidID(id) && Key(id, VERIFY_FILE) in store && store[Key(id, VERIFY_FILE)] == VerifyDoc(res)
      ensures store != old(store) || !err ==> (res.ok <==> AllPassed(res.stages))
      ensures res.ok ==>
                && AllPassed(res.stages) && res.id == id && ReadMeta(old(store), id).Some?
                && ReadMeta(old(store), id).value.rowCounts != map[] && res.mismatches == []
                && Verification(id, ReadMeta(old(store), id).value.rowCounts) in passed
      // a result is ok exactly when nothing is wrong with the generation or around it
      ensures store != old(store) || !err ==>
                ReadMeta(old(store), id).Some? && (res.ok <==> Good(ReadMeta(old(store), id).value.rowCounts, env))
      ensures callsWork && ValidID(id) && ReadMeta(old(store), id).Some? ==>
                Good(ReadMeta(old(store), id).value.rowCounts, env) && env.cleanedUp ==>
                !err && PassingResult(store, id)
    {
      err := true;
      res := VerifyResult("", false, [], []);
      if !ValidID(id) {
        return;
      }
      var readable := Attempt();
      var m := ReadMeta(store, id);
      if readable != Done || m.None? {
        return;
      }
      var stages, mismatches, runErr, found := Run(m.value.rowCounts, env);
      var run := RunReport(stages, mismatches, runErr, found);
      OkMeans(id, m.value.rowCounts, run);
      res := ResultOf(id, run);
      if runErr {
        return;
      }
      if res.ok {
        passed := passed + {Verification(id, found)};
      }
      var fate := Attempt();
      if fate != FailedNoEffect {
        store := store[Key(id, VERIFY_FILE) := VerifyDoc(res)];
      }
      err := fate != Done;
      KeyInjective(id, VERIFY_FILE, id, META_FILE);
      VerifyKeepsTrust(hash, old(store), id, res);
      StoringKeepsChecked(old(store), passed, id, m.value, res);
    }

    /** One generation of the listing. Reading meta.json or verify.json may fail. */
    method ReadGeneration(id: string) returns (g: Generation)
      requires ValidID(id)
      ensures g.id == id && ReadFrom(store, g)
      ensures callsWork ==> ReadWhole(store, g)
    {
      var read := Attempt();
      var metaRead := read == Done;
      read := Attempt();
      var verifyRead := read == Done;
      var m, v := ReadMeta(store, id), Key(id, VERIFY_FILE);
      var hasMeta := Key(id, META_FILE) in store;
      g := Generation(
        id, ObjectsOf(store, id),
        if metaRead then m else None,
        hasMeta && !(metaRead && m.Some?),
        if verifyRead && v in store && store[v].VerifyDoc? then Some(store[v].result) else None);
    }

    /** ListGenerations: the generations that have objects, oldest first. */
    method ListGenerations() returns (ok: bool, gens: seq<Generation>)
      ensures ok ==> IsListing(store, gens)
      ensures callsWork ==> ok && forall g :: g in gens ==> ReadWhole(store, g)
    {
      var listed := Attempt();
      ok, gens := listed == Done, [];
      if !ok {
        return;
      }
      var ids: seq<string> := [];
      var todo := store.Keys;
      while todo != {}
        invariant todo <= store.Keys
        invariant StrictlySorted(ids)
        invariant forall id :: id in ids <==> exists k :: k in store.Keys - todo && GenerationIDFromKey(k) == id != ""
      {
        var k :| k in todo;
        var id := GenerationIDFromKey(k);
        ghost var was, before := ids, todo;
        if id != "" && id !in ids {
          ids := Insert(ids, id);
        }
        todo := todo - {k};
        assert store.Keys - todo == (store.Keys - before) + {k};
      }
      gens := [];
      for i := 0 to |ids|
        invariant |gens| == i
        invariant forall j :: 0 <= j < i ==> gens[j].id == ids[j] && ValidID(ids[j]) && ReadFrom(store, gens[j])
        invariant callsWork ==> forall g :: g in gens ==> ReadWhole(store, g)
      {
        assert ids[i] in ids;
        var g := ReadGeneration(ids[i]);
        gens := gens + [g];
      }
      forall id ensures id in GenerationIds(store) <==> exists i :: 0 <= i < |gens| && gens[i].id == id {
        assert id in GenerationIds(store) <==> id in ids;
      }
    }

    /**
      "latest", end to end. The chosen generation is complete, its dump has the
      recorded size and hash, and a verification of it passed all three stages
      and found the recorded row counts; every chronologically newer generation
      could be read and is incomplete or did not pass.
      */
    method ResolveLatest() returns (r: Latest)
      requires Valid()
      ensures r.Chosen? ==> Justified(hash, store, passed, r.id)
      ensures r.Chosen? ==> forall t: Utc, u: Utc :: NewID(t) == r.id && Later(t, u) ==> Skipped(store, NewID(u))
      ensures r.NoVerified? ==> forall id :: ValidID(id) ==> Skipped(store, id)
      // with working calls only an unreadable generation stops it, and else it finds one if there is one
      ensures callsWork ==> !r.ListFailed? && (r.CannotRead? ==> ValidID(r.id) && Unreadable(store, r.id))
      ensures callsWork && (forall id :: ValidID(id) ==> !Unreadable(store, id)) ==>
                (r.Chosen? <==> exists id :: ValidID(id) && Complete(store, id) && PassingResult(store, id))
    {
      var ok, gens := ListGenerations();
      if !ok {
        return ListFailed;
      }
      r := LatestVerified(gens);
      if r.Chosen? {
        ghost var i :| 0 <= i < |gens| && gens[i].id == r.id && gens[i].Passes() && LookedPast(gens, i + 1);
        PassesMeans(store, gens[i]);
        forall t: Utc, u: Utc | NewID(t) == r.id && Later(t, u) ensures Skipped(store, NewID(u)) {
          NewIDOrder(t, u);
          NewIDValid(u);
          NewerIsSkipped(store, gens, i, NewID(u));
        }
      }
      if r.NoVerified? {
        forall id | ValidID(id) ensures Skipped(store, id) {
          AllSkipped(store, gens, id);
        }
      }
      if callsWork && r.CannotRead? {
        ghost var i :| 0 <= i < |gens| && gens[i].id == r.id && gens[i].CannotTell() && LookedPast(gens, i + 1);
        assert gens[i] in gens;
        StopsAtUnreadable(store, gens[i]);
      }
    }

    /** List: the objects whose keys start with the generation's directory. */
    method List(id: string) returns (ok: bool, objs: Listing)
      ensures ok ==> objs == ListingOf(id)
      ensures callsWork ==> ok
    {
      var fate := Attempt();
      ok := fate == Done;
      objs := ListingOf(id);
    }

    function ListingOf(id: string): Listing
      reads this`store
    {
      map k | k in store && Key(id, "") <= k :: sizeOf(store[k])
    }

    method DeleteObject(key: string) returns (err: bool)
      modifies this`store, this`history
      ensures store == old(store) || store == old(store) - {key}
      ensures !err ==> key !in store
      ensures callsWork ==> !err
      ensures history == old(history) + [store]
    {
      var fate := Attempt();
      if fate != FailedNoEffect {
        store := store - {key};
      }
      err := fate != Done;
      history := history + [store];
    }

    ghost function SizeIn(base: Store): string -> int {
      k => if k in base then sizeOf(base[k]) else 0
    }

    /** So far exactly the acknowledged objects are gone. */
    ghost predicate Removed(base: Store, acked: set<string>, freed: int)
      reads this
    {
      store == base - acked && freed == Sum(SizeIn(base), acked)
    }

    /** Delete one listed object and count its size once the deletion is acknowledged. */
    method DeleteListed(key: string, size: nat, freed0: int, ghost acked0: set<string>, ghost base: Store)
      returns (freed: int, ok: bool, ghost acked: set<string>)
      requires Removed(base, acked0, freed0) && key in base && key !in acked0 && size == sizeOf(base[key])
      modifies this`store, this`history
      ensures if ok then acked == acked0 + {key} && Removed(base, acked, freed)
              else acked == acked0 && freed == freed0 && (store == base - acked || store == base - acked - {key})
      ensures history == old(history) + [store]
      ensures callsWork ==> ok
    {
      freed, acked := freed0, acked0;
      var err := DeleteObject(key);
      ok := !err;
      assert base - acked - {key} == base - (acked + {key});
      if ok {
        SumAdd(SizeIn(base), acked, key);
        freed, acked := freed + size, acked + {key};
      }
    }

    /** The loop of DeleteGeneration over everything but meta.json, in any order. */
    method DeleteRest(objs: Listing, metaKey: string, freed0: int, ghost acked0: set<string>, ghost base: Store)
      returns (freed: int, ok: bool, ghost acked: set<string>)
      requires forall k :: k in objs ==> k in base && objs[k] == sizeOf(base[k])
      requires Removed(base, acked0, freed0) && acked0 <= {metaKey} && metaKey !in store
      modifies this`store, this`history
      ensures freed == Sum(SizeIn(base), acked) && acked <= acked0 + objs.Keys
      ensures if ok then acked == acked0 + (objs.Keys - {metaKey}) && store == base - acked
              else exists k :: k in objs && (store == base - acked || store == base - acked - {k})
      ensures OnlyWhole(old(history), base, metaKey)
      ensures callsWork ==> ok
    {
      freed, ok, acked := freed0, true, acked0;
      var todo := objs.Keys - {metaKey};
      while todo != {}
        invariant todo <= objs.Keys - {metaKey}
        invariant ok && Removed(base, acked, freed)
        invariant acked == acked0 + (objs.Keys - {metaKey} - todo)
        invariant OnlyWhole(old(history), base, metaKey) && metaKey !in store
      {
        var k :| k in todo;
        freed, ok, acked := DeleteListed(k, objs[k], freed, acked, base);
        if !ok {
          return;
        }
        todo := todo - {k};
      }
    }

    /** The two loops of DeleteGeneration: meta.json, then the rest. */
    method DeleteListing(objs: Listing, metaKey: string) returns (freed: int, ok: bool, ghost acked: set<string>)
      requires forall k :: k in objs ==> k in store && objs[k] == sizeOf(store[k])
      requires metaKey in store ==> metaKey in objs
      modifies this`store, this`history
      ensures freed == Sum(SizeIn(old(store)), acked) && acked <= objs.Keys
      ensures if ok then acked == objs.Keys && store == old(store) - acked
              else exists k :: k in objs && (store == old(store) - acked || store == old(store) - acked - {k})
      ensures OnlyWhole(old(history), old(store), metaKey)
      ensures callsWork ==> ok
    {
      freed, ok, acked := 0, true, {};
      assert store == old(store) - acked;
      if metaKey in objs {
        freed, ok, acked := DeleteListed(metaKey, objs[metaKey], freed, acked, old(store));
        if !ok {
          return;
        }
      }
      freed, ok, acked := DeleteRest(objs, metaKey, freed, acked, old(store));
    }

    /** Every new state of the storage that has meta.json has everything. */
    ghost predicate OnlyWhole(before: seq<Store>, base: Store, metaKey: string)
      reads this`history
    {
      before <= history && forall n :: |before| <= n < |history| && metaKey in history[n] ==> history[n] == base
    }

    /** DeleteGeneration. `acked` are the objects whose deletion was acknowledged. */
    method DeleteGeneration(id: string) returns (freed: int, r: DeleteResult, ghost acked: set<string>)
      requires Valid()
      modifies this`store, this`history
      ensures Valid()
      // only objects of this generation go: the acknowledged ones and at most one more
      ensures acked <= ObjectsOf(old(store), id)
      ensures store == old(store) - acked
              || exists k :: k in ObjectsOf(old(store), id) && store == old(store) - acked - {k}
      ensures freed == Sum(SizeIn(old(store)), acked)
      ensures r.Deleted? ==> acked == ObjectsOf(old(store), id) != {} && store == old(store) - acked
      ensures r.NotFound? ==> ObjectsOf(old(store), id) == {}
      ensures r.NotFound? || r.Refused? ==> store == old(store) && acked == {}
      ensures !ValidID(id) ==> r.Refused?
      // meta.json goes first: whenever it is there, everything is
      ensures OnlyWhole(old(history), old(store), Key(id, META_FILE))
      ensures callsWork && ValidID(id) ==> r == if ObjectsOf(old(store), id) == {} then NotFound else Deleted
    {
      freed, r, acked := 0, Refused, {};
      assert store == old(store) - acked;
      if !ValidID(id) {
        return;
      }
      var ok, objs := List(id);
      if !ok {
        return;
      }
      assert objs.Keys == ObjectsOf(store, id);
      if |objs| == 0 {
        return 0, NotFound, {};
      }
      KeyRoundTrip(id, Key(id, META_FILE));
      freed, ok, acked := DeleteListing(objs, Key(id, META_FILE));
      r := if ok then Deleted else Partial;
      FewerKeepTrust(hash, old(store), store);
      FewerKeepChecked(old(store), store, passed);
    }
  }

  datatype DeleteResult = Deleted | NotFound | Refused | Partial

  function GenerationIds(st: Store): set<string> {
    set k | k in st && GenerationIDFromKey(k) != "" :: GenerationIDFromKey(k)
  }

  /** What "latest" promises about the generation it names. */
  ghost predicate Justified(hash: Hash, st: Store, passed: set<Verification>, id: string) {
    && ValidID(id) && Complete(st, id) && PassingResult(st, id)
    && var m, v := ReadMeta(st, id).value, st[Key(id, VERIFY_FILE)].result;
    && Matches(hash, st[Key(id, m.dumpFile)], m.dumpSize, m.dumpSha)
    && AllPassed(v.stages) && v.mismatches == []
    && m.rowCounts != map[] && Verification(id, m.rowCounts) in passed
  }

  /** "latest" may look past `id`: what there is can be read, and it is incomplete or did not pass. */
  ghost predicate Skipped(st: Store, id: string) {
    && (Key(id, META_FILE) in st ==> ReadMeta(st, id).Some?)
    && (Complete(st, id) && Key(id, VERIFY_FILE) in st ==>
          st[Key(id, VERIFY_FILE)].VerifyDoc? && !PassingResult(st, id))
  }

  /** There is a meta.json, or a verify.json of a complete generation, that cannot be understood. */
  predicate Unreadable(st: Store, id: string) {
    || (Key(id, META_FILE) in st && ReadMeta(st, id).None?)
    || (Complete(st, id) && Key(id, VERIFY_FILE) in st && !st[Key(id, VERIFY_FILE)].VerifyDoc?)
  }

  lemma StopsAtUnreadable(st: Store, g: Generation)
    requires ReadFrom(st, g) && ReadWhole(st, g) && g.CannotTell()
    ensures Unreadable(st, g.id)
  {}

  /** A time after `t` that a generation ID can name. */
  predicate Later(t: Utc, u: Utc) {
    t.Valid() && u.Valid() && t.year <= 9999 && u.year <= 9999 && t.Before(u)
  }

  lemma HasObjectsListed(st: Store, id: string)
    requires ValidID(id) && Key(id, META_FILE) in st
    ensures id in GenerationIds(st)
  {
    KeyRoundTrip(id, Key(id, META_FILE));
  }

  lemma PassesMeans(st: Store, g: Generation)
    requires ReadFrom(st, g) && g.Passes()
    ensures Complete(st, g.id) && PassingResult(st, g.id)
  {}

  lemma SkippedMeans(st: Store, g: Generation)
    requires ReadFrom(st, g) && !g.CannotTell() && !g.Passes() && ValidID(g.id)
    ensures Skipped(st, g.id)
  {
    if Complete(st, g.id) {
      KeyRoundTrip(g.id, Key(g.id, g.meta.value.dumpFile));
      KeyRoundTrip(g.id, Key(g.id, VERIFY_FILE));
    }
  }

  /** A listed generation with a greater ID comes later in the list. */
  lemma NewerIsSkipped(st: Store, gens: seq<Generation>, i: nat, id: string)
    requires i < |gens| && IsListing(st, gens) && LookedPast(gens, i + 1) && ValidID(id)
    requires Less(gens[i].id, id)
    ensures Skipped(st, id)
  {
    if Key(id, META_FILE) in st {
      HasObjectsListed(st, id);
      var j :| 0 <= j < |gens| && gens[j].id == id;
      if j <= i {
        LessIrreflexive(id);
        if j < i { LessTransitive(id, gens[i].id, id); }
      }
      SkippedMeans(st, gens[j]);
    }
  }

  lemma AllSkipped(st: Store, gens: seq<Generation>, id: string)
    requires IsListing(st, gens) && LookedPast(gens, 0) && ValidID(id)
    ensures Skipped(st, id)
  {
    if Key(id, META_FILE) in st {
      HasObjectsListed(st, id);
      var j :| 0 <= j < |gens| && gens[j].id == id;
      SkippedMeans(st, gens[j]);
    }
  }

  /**
    "latest" at the end of any run of takes, deletions and verifications, of a
    listing read then: the generation it names is justified, and all newer ones
    could be read and are incomplete or did not pass.
    */
  lemma LatestAfterRun(hash: Hash, s: State, acts: seq<Action>, gens: seq<Generation>, i: nat)
    requires Start(hash, s) && IsRun(hash, s, acts) && FreshRun(hash, s, acts)
    requires IsListing(End(hash, s, acts).store, gens)
    requires i < |gens| && gens[i].Passes() && LookedPast(gens, i + 1)
    ensures var t := End(hash, s, acts);
            && Justified(hash, t.store, t.passed, gens[i].id)
            && forall id :: ValidID(id) && Less(gens[i].id, id) ==> Skipped(t.store, id)
  {
    var t := End(hash, s, acts);
    PassingResultsAreEarned(hash, s, acts);
    PassesMeans(t.store, gens[i]);
    forall id | ValidID(id) && Less(gens[i].id, id) ensures Skipped(t.store, id) {
      NewerIsSkipped(t.store, gens, i, id);
    }
  }
}
