/** The result of `backup verify` (`internal/backup/meta.go`, `verify.go`): its three stages and what "ok" means. */
module VerifyResults {
  import opened Basics
  import opened RowCounts

  datatype Stage = Readable | Restorable | Usable

  datatype StageResult = StageResult(stage: Stage, ok: bool, skipped: bool)

  datatype VerifyResult = VerifyResult(id: string, ok: bool, stages: seq<StageResult>, mismatches: seq<RowMismatch>)

  /**
    What verifier.run comes to. `counted` is what CountRows found in the restored
    database, empty when the run did not get that far; `err` is an error of the
    environment.
    */
  datatype RunReport = RunReport(
    stages: seq<StageResult>, mismatches: seq<RowMismatch>, err: bool, counted: map<string, int>)

  /** How one stage ended: nil, a stageError (the generation is bad), or an environment error. */
  datatype Ending = Passed | StageError | EnvironmentError

  predicate AllPassed(stages: seq<StageResult>) {
    stages ==
      [StageResult(Readable, true, false), StageResult(Restorable, true, false), StageResult(Usable, true, false)]
  }

  /** The stages as recorded when stage number `failed` is the first that failed (3 when none did). */
  function Recorded(failed: nat): (r: seq<StageResult>)
    requires failed <= 3
    ensures |r| == 3
  {
    [StageResult(Readable, 0 < failed, false), StageResult(Restorable, 1 < failed, 1 > failed),
     StageResult(Usable, 2 < failed, 2 > failed)]
  }

  lemma RecordedAllPassed(failed: nat)
    requires failed <= 3
    ensures AllPassed(Recorded(failed)) <==> failed == 3
    ensures (forall r :: r in Recorded(failed) ==> r.ok) <==> failed == 3
  {
    if failed < 3 {
      assert !Recorded(failed)[failed].ok;
      assert Recorded(failed)[failed] in Recorded(failed);
    }
  }

  /** verifyPassed: a passing result of this very generation. */
  predicate VerifyPassed(id: string, v: VerifyResult) {
    v.ok && v.id == id
  }

  /** The result Verify builds from what its run reports. */
  function ResultOf(id: string, run: RunReport): (v: VerifyResult) {
    VerifyResult(id, !run.err && |run.stages| == 3 && forall r :: r in run.stages ==> r.ok, run.stages, run.mismatches)
  }

  /** What a run of the three stages can report, for a generation with these recorded row counts. */
  predicate Possible(rowCounts: map<string, int>, run: RunReport) {
    && (!run.err ==> exists failed :: 0 <= failed <= 3 && run.stages == Recorded(failed))
    && (AllPassed(run.stages) ==> rowCounts != map[] && run.counted == rowCounts && run.mismatches == [])
    && |run.stages| <= 3
  }

  /** "ok" is said only of a run whose three stages passed and that counted the recorded rows. */
  lemma OkMeans(id: string, rowCounts: map<string, int>, run: RunReport)
    requires Possible(rowCounts, run)
    ensures !run.err ==> (ResultOf(id, run).ok <==> AllPassed(run.stages))
    ensures ResultOf(id, run).ok ==>
              !run.err && AllPassed(run.stages) && run.mismatches == [] && run.counted == rowCounts != map[]
  {
    if !run.err {
      var failed :| 0 <= failed <= 3 && run.stages == Recorded(failed);
      RecordedAllPassed(failed);
    }
  }

  /** skipRest(from): the remaining stages are recorded as skipped. */
  function SkipRest(stages: seq<StageResult>, from: nat): seq<StageResult>
    requires 1 <= from <= 2
  {
    stages + (if from == 1 then [StageResult(Restorable, false, true)] else []) + [StageResult(Usable, false, true)]
  }

  /**
    What the world does to a verification: how the readable stage ends, whether the
    throwaway server starts, the decrypted dump is on this host and pg_restore works,
    what CountRows answers, how the usable stage ends, and whether the server is put away.
    */
  datatype Environment = Environment(
    readable: Ending, server: bool, present: bool, restores: bool, counts: Option<map<string, int>>, usable: Ending,
    cleanedUp: bool)

  /** Everything works and the restored rows are the recorded ones. */
  predicate Good(rowCounts: map<string, int>, env: Environment) {
    && env.readable == Passed && env.server && rowCounts != map[] && env.present && env.restores
    && env.counts == Some(rowCounts) && env.usable == Passed
  }

  /** The restorable stage blames the generation. */
  predicate Unrestorable(rowCounts: map<string, int>, env: Environment) {
    || rowCounts == map[]
    || (env.present && (!env.restores || (env.counts != None && env.counts != Some(rowCounts))))
  }

  /** The rows were counted. */
  predicate Counts(rowCounts: map<string, int>, env: Environment) {
    rowCounts != map[] && env.present && env.restores && env.counts.Some?
  }

  /** The number of the first stage that blames the generation, if the run gets to the end. */
  function FirstFailed(rowCounts: map<string, int>, env: Environment): (k: nat)
    ensures k <= 3
    ensures Good(rowCounts, env) ==> k == 3
  {
    if env.readable == StageError then 0
    else if Unrestorable(rowCounts, env) then 1
    else if env.usable == StageError then 2
    else 3
  }

  /**
    verifier.run. `counted` is what CountRows found in the restored database;
    it is empty when the run did not get that far. A false `err` means that no
    environment error occurred.
    */
  method Run(rowCounts: map<string, int>, env: Environment)
    returns (stages: seq<StageResult>, mismatches: seq<RowMismatch>, err: bool, counted: map<string, int>)
    ensures Possible(rowCounts, RunReport(stages, mismatches, err, counted))
    ensures AllPassed(stages) <==> Good(rowCounts, env)
    ensures !err ==> stages == Recorded(FirstFailed(rowCounts, env))
    ensures Good(rowCounts, env) ==> (err <==> !env.cleanedUp)
    // the report is about the rows that were counted
    ensures if env.readable == Passed && env.server && Counts(rowCounts, env)
            then counted == env.counts.value && Reports(rowCounts, counted, mismatches)
            else mismatches == [] && counted == map[]
  {
    stages, mismatches, err, counted := [], [], false, map[];
    if env.readable.EnvironmentError? {
      err := true;
      return;
    }
    stages := [StageResult(Readable, !env.readable.StageError?, false)];
    if env.readable.StageError? {
      stages := SkipRest(stages, 1);
      assert stages == Recorded(0);
      return;
    }
    if !env.server {
      err := true;
      return;
    }
    var restorable: Ending;
    restorable, mismatches, counted := RestorableStage(rowCounts, env);
    if restorable.EnvironmentError? {
      err := true;
      return;
    }
    stages := stages + [StageResult(Restorable, !restorable.StageError?, false)];
    if restorable.StageError? {
      stages := SkipRest(stages, 2);
      assert stages == Recorded(1);
      err := !env.cleanedUp;
      return;
    }
    if env.usable.EnvironmentError? {
      err := true;
      return;
    }
    stages := stages + [StageResult(Usable, !env.usable.StageError?, false)];
    assert stages == Recorded(if env.usable.StageError? then 2 else 3);
    err := !env.cleanedUp;
  }

  /** verifier.restorable: pg_restore, then compare the row counts with meta.json. */
  method RestorableStage(rowCounts: map<string, int>, env: Environment)
    returns (ending: Ending, mismatches: seq<RowMismatch>, counted: map<string, int>)
    ensures ending == Passed <==> rowCounts != map[] && env.present && env.restores && env.counts == Some(rowCounts)
    ensures ending == StageError <==> Unrestorable(rowCounts, env)
    ensures if Counts(rowCounts, env) then counted == env.counts.value && Reports(rowCounts, counted, mismatches)
            else mismatches == [] && counted == map[]
    ensures ending == Passed ==> mismatches == []
  {
    mismatches, counted := [], map[];
    // without row counts the comparison would pass without checking anything
    if rowCounts == map[] {
      return StageError, mismatches, counted;
    }
    if !env.present {
      return EnvironmentError, mismatches, counted;
    }
    if !env.restores {
      return StageError, mismatches, counted;
    }
    if env.counts.None? {
      return EnvironmentError, mismatches, counted;
    }
    counted := env.counts.value;
    mismatches := CompareRowCounts(rowCounts, counted);
    ending := if mismatches != [] then StageError else Passed;
  }
}
