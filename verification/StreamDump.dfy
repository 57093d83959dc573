/**
  streamDump (`internal/backup/take.go`): pg_dump on one side of an io.Pipe, a
  goroutine running Storage.Put on the other. Each action is one step of one
  side that the other side can observe; a run is any interleaving of them.

  The pipe is synchronous: a Write stays pending until the reader has taken all
  of it or has closed its end. Only a completed Write reaches the hash and the
  byte counter.
  */
module StreamDump {
  import opened Basics

  /** Where the goroutine that runs pg_dump is. `aborted` marks the early exits before cmd.Wait. */
  datatype Main =
    | EncryptStart
    | StartCmd
    | Running
    | EncryptClose
    | ClosePipe(failed: bool, aborted: bool)
    | AwaitPut(failed: bool, aborted: bool)
    | Returned(result: Result)

  datatype Result =
    | Stored(size: nat, hashed: seq<Byte>)
    | AbortError
    | DumpError
    | PutError

  /** Where the goroutine that runs Put is. */
  datatype Put = Reading | SawEnd(eof: bool) | Cancel | CloseReader(err: bool) | Send(err: bool) | Sent(err: bool)

  datatype WriterEnd = Open | Eof | Failed

  datatype State = State(
    encrypted: bool,
    main: Main,
    left: nat,              // bytes the dump side can still produce
    writing: bool,          // a pipe Write is in progress
    chunk: seq<Byte>,       // what that Write was called with
    pending: seq<Byte>,     // the part of it the reader has not taken
    dead: bool,             // pg_dump failed by itself, or the caller's context ended
    cancelled: bool,        // the Put goroutine called cancel
    hashed: seq<Byte>,      // fed to the sha256 and the counter
    exitedClean: bool,      // cmd.Wait returned nil
    encryptClosed: bool,    // enc.Close returned nil
    writerEnd: WriterEnd,
    readerClosed: bool,
    put: Put,
    consumed: seq<Byte>,    // handed to Put by the reader
    sawEof: bool,
    committed: seq<seq<Byte>> // objects Put made visible
  )

  datatype Action =
    | BeginWrite(data: seq<Byte>)
    | EndWrite
    | FailWrite
    | HeaderDone
    | HeaderFail
    | StartOk
    | StartFail
    | Die
    | ExitClean
    | ExitBad
    | EncryptDone
    | EncryptFail
    | CloseWriter
    | ReceivePut
    | Read(n: nat)
    | ReadEnd
    | PutReturn(err: bool, commit: bool)
    | CancelDump
    | CloseReaderEnd
    | SendPut

  predicate Enabled(s: State, a: Action) {
    match a
    case BeginWrite(data) =>
      !s.writing && (s.main.EncryptStart? || s.main.Running? || s.main.EncryptClose?) && 0 < |data| <= s.left
    case EndWrite => s.writing && s.pending == []
    case FailWrite => s.writing && s.readerClosed
    case HeaderDone => s.main.EncryptStart? && !s.writing
    case HeaderFail => s.main.EncryptStart? && !s.writing
    case StartOk => s.main.StartCmd?
    case StartFail => s.main.StartCmd?
    case Die => s.main.Running? && !s.dead
    case ExitClean => s.main.Running? && !s.writing && !s.dead
    // WaitDelay lets Wait return while a Write is still blocked, once pg_dump has died or was cancelled
    case ExitBad => s.main.Running? && (s.dead || s.cancelled)
    case EncryptDone => s.main.EncryptClose? && !s.writing
    case EncryptFail => s.main.EncryptClose? && !s.writing
    case CloseWriter => s.main.ClosePipe?
    case ReceivePut => s.main.AwaitPut? && s.put.Sent?
    case Read(n) => s.put.Reading? && s.writing && s.writerEnd.Open? && 0 < n <= |s.pending|
    case ReadEnd => s.put.Reading? && !s.writerEnd.Open?
    case PutReturn(err, commit) =>
      // the Storage contract: an object appears only after the reader ended cleanly
      && (s.put.Reading? || s.put.SawEnd?)
      && (commit ==> s.put.SawEnd? && s.put.eof)
      && (s.put.SawEnd? && !s.put.eof ==> err)
      && (s.put.SawEnd? && !err ==> commit)
    case CancelDump => s.put.Cancel?
    case CloseReaderEnd => s.put.CloseReader?
    case SendPut => s.put.Send?
  }

  /** A pipe Write that returned an error: what the code around it does. */
  function AfterFailedWrite(m: Main): Main {
    ClosePipe(true, m.EncryptStart?)
  }

  function Finish(s: State): Result
    requires s.main.AwaitPut? && s.put.Sent?
  {
    if s.main.aborted then AbortError
    else if s.put.err then PutError
    else if s.main.failed then DumpError
    else Stored(|s.hashed|, s.hashed)
  }

  function Apply(s: State, a: Action): (t: State)
    requires Enabled(s, a)
    ensures t.encrypted == s.encrypted
  {
    match a
    case BeginWrite(data) => s.(writing := true, chunk := data, pending := data, left := s.left - |data|)
    case EndWrite => s.(writing := false, hashed := s.hashed + s.chunk)
    case FailWrite => s.(writing := false, pending := [], main := AfterFailedWrite(s.main))
    case HeaderDone => s.(main := StartCmd)
    case HeaderFail => s.(main := ClosePipe(true, true))
    case StartOk => s.(main := Running)
    case StartFail => s.(main := ClosePipe(true, true))
    case Die => s.(dead := true)
    case ExitClean => s.(exitedClean := true, main := if s.encrypted then EncryptClose else ClosePipe(false, false))
    case ExitBad => s.(writing := false, pending := [], main := ClosePipe(true, false))
    case EncryptDone => s.(encryptClosed := true, main := ClosePipe(false, false))
    case EncryptFail => s.(main := ClosePipe(true, false))
    case CloseWriter =>
      s.(writerEnd := if s.main.failed then Failed else Eof, main := AwaitPut(s.main.failed, s.main.aborted))
    case ReceivePut => s.(main := Returned(Finish(s)))
    case Read(n) => s.(consumed := s.consumed + s.pending[..n], pending := s.pending[n..])
    case ReadEnd => s.(put := SawEnd(s.writerEnd.Eof?), sawEof := s.writerEnd.Eof?)
    case PutReturn(err, commit) =>
      s.(put := if err then Cancel else CloseReader(false),
         committed := if commit then s.committed + [s.consumed] else s.committed)
    case CancelDump => s.(put := CloseReader(true), cancelled := true)
    case CloseReaderEnd => s.(readerClosed := true, put := Send(s.put.err))
    case SendPut => s.(put := Sent(s.put.err))
  }

  function Init(encrypted: bool, output: nat): State {
    State(encrypted, if encrypted then EncryptStart else StartCmd, output, false, [], [], false, false, [], false,
          false, Open, false, Reading, [], false, [])
  }

  /** A run: actions taken one after the other, each enabled when it is taken. */
  ghost predicate IsRun(s: State, acts: seq<Action>)
    decreases |acts|
  {
    acts == [] || (Enabled(s, acts[0]) && IsRun(Apply(s, acts[0]), acts[1..]))
  }

  ghost function End(s: State, acts: seq<Action>): State
    requires IsRun(s, acts)
    decreases |acts|
  {
    if acts == [] then s else End(Apply(s, acts[0]), acts[1..])
  }

  predicate Writable(m: Main) {
    m.EncryptStart? || m.Running? || m.EncryptClose?
  }

  predicate DumpClean(s: State) {
    s.exitedClean && (s.encrypted ==> s.encryptClosed)
  }

  /** Nothing is lost between the two sides while no Write has failed. */
  predicate InStep(s: State) {
    Writable(s.main) || s.main.StartCmd? || s.writerEnd.Eof? || (s.main.ClosePipe? && !s.main.failed)
  }

  /** What the reader took is what was hashed plus the taken part of the Write in progress. */
  ghost predicate BytesInv(s: State) {
    if s.writing then
      && Writable(s.main) && |s.pending| <= |s.chunk|
      && s.pending == s.chunk[|s.chunk| - |s.pending|..]
      && s.consumed == s.hashed + s.chunk[..|s.chunk| - |s.pending|]
    else
      s.pending == [] && (InStep(s) ==> s.consumed == s.hashed)
  }

  /** The writing end is closed cleanly exactly when the whole dump ended well. */
  ghost predicate WriterInv(s: State) {
    && (s.writerEnd.Open? <==> !(s.main.AwaitPut? || s.main.Returned?))
    && (s.writerEnd.Eof? ==> DumpClean(s))
    && (s.main.EncryptClose? ==> s.exitedClean && s.encrypted)
    && (s.main.ClosePipe? && !s.main.failed ==> DumpClean(s))
    && (s.main.AwaitPut? ==> (s.writerEnd.Eof? <==> !s.main.failed))
    && ((s.main.ClosePipe? || s.main.AwaitPut?) && s.main.aborted ==> s.main.failed)
    && (s.main.Returned? ==> s.put.Sent?)
    && (s.main.Returned? && s.main.result.Stored? ==>
          s.writerEnd.Eof? && !s.put.err && s.main.result == Stored(|s.hashed|, s.hashed))
  }

  /** What Put has been told, and what it may have made visible. */
  ghost predicate ReaderInv(s: State) {
    && (s.sawEof ==> s.writerEnd.Eof?)
    && (s.put.SawEnd? ==> !s.writerEnd.Open? && (s.put.eof <==> s.sawEof))
    && (s.put.Reading? ==> !s.sawEof)
    && (s.readerClosed <==> s.put.Send? || s.put.Sent?)
    && (s.committed != [] ==> s.committed == [s.consumed] && s.sawEof && !s.put.Reading? && !s.put.SawEnd?)
  }

  ghost predicate Inv(s: State) {
    BytesInv(s) && WriterInv(s) && ReaderInv(s)
  }

  lemma InitInv(encrypted: bool, output: nat)
    ensures Inv(Init(encrypted, output))
  {}

  lemma TakeMore(chunk: seq<Byte>, pending: seq<Byte>, n: nat)
    requires |pending| <= |chunk| && pending == chunk[|chunk| - |pending|..] && n <= |pending|
    ensures pending[n..] == chunk[|chunk| - |pending[n..]|..]
    ensures chunk[..|chunk| - |pending|] + pending[..n] == chunk[..|chunk| - |pending[n..]|]
  {}

  lemma ReadKeepsBytes(s: State, n: nat)
    requires Inv(s) && Enabled(s, Read(n))
    ensures BytesInv(Apply(s, Read(n)))
  {
    TakeMore(s.chunk, s.pending, n);
    TakenIsHashed(s.hashed, s.chunk[..|s.chunk| - |s.pending|], s.pending[..n]);
  }

  lemma TakenIsHashed(hashed: seq<Byte>, taken: seq<Byte>, more: seq<Byte>)
    ensures (hashed + taken) + more == hashed + (taken + more)
  {}

  lemma StepBytes(s: State, a: Action)
    requires Inv(s) && Enabled(s, a)
    ensures BytesInv(Apply(s, a))
  {
    if a.Read? {
      ReadKeepsBytes(s, a.n);
    } else if a.EndWrite? {
      assert s.chunk[..|s.chunk|] == s.chunk;
    } else if a.BeginWrite? {
      assert s.consumed == s.hashed + a.data[..0];
    } else {
      var t := Apply(s, a);
      assert t.hashed == s.hashed && t.consumed == s.consumed && t.chunk == s.chunk;
    }
  }

  lemma StepWriter(s: State, a: Action)
    requires Inv(s) && Enabled(s, a)
    ensures WriterInv(Apply(s, a))
  {}

  lemma StepReader(s: State, a: Action)
    requires Inv(s) && Enabled(s, a)
    ensures ReaderInv(Apply(s, a))
  {}

  lemma StepInv(s: State, a: Action)
    requires Inv(s) && Enabled(s, a)
    ensures Inv(Apply(s, a))
  {
    StepBytes(s, a);
    StepWriter(s, a);
    StepReader(s, a);
  }

  lemma {:induction false} RunInv(s: State, acts: seq<Action>)
    requires Inv(s) && IsRun(s, acts)
    ensures Inv(End(s, acts))
    decreases |acts|
  {
    if acts == [] {
    } else {
      StepInv(s, acts[0]);
      RunInv(Apply(s, acts[0]), acts[1..]);
    }
  }

  /**
    In every interleaving: the reader is given EOF only after pg_dump exited
    cleanly and the encryption was closed, and an object becomes visible only
    then and holds every byte that was hashed.
    */
  lemma EofOnlyAfterCleanDump(encrypted: bool, output: nat, acts: seq<Action>)
    requires IsRun(Init(encrypted, output), acts)
    ensures var s := End(Init(encrypted, output), acts);
            && (s.sawEof ==> s.exitedClean && (encrypted ==> s.encryptClosed))
            && (s.committed != [] ==> s.sawEof && s.committed == [s.hashed])
  {
    var s0 := Init(encrypted, output);
    InitInv(encrypted, output);
    RunInv(s0, acts);
    EncryptedIsConstant(s0, acts);
  }

  lemma {:induction false} EncryptedIsConstant(s: State, acts: seq<Action>)
    requires IsRun(s, acts)
    ensures End(s, acts).encrypted == s.encrypted
    decreases |acts|
  {
    if acts == [] {
    } else {
      EncryptedIsConstant(Apply(s, acts[0]), acts[1..]);
    }
  }

  /** A success result is about exactly the bytes Put consumed, of a dump that ended cleanly. */
  lemma SuccessDescribesConsumedBytes(encrypted: bool, output: nat, acts: seq<Action>)
    requires IsRun(Init(encrypted, output), acts)
    ensures var s := End(Init(encrypted, output), acts);
            s.main.Returned? && s.main.result.Stored? ==>
              && s.main.result.hashed == s.consumed == s.hashed && s.main.result.size == |s.consumed|
              && s.exitedClean && (encrypted ==> s.encryptClosed)
              && s.put == Sent(false)
  {
    InitInv(encrypted, output);
    RunInv(Init(encrypted, output), acts);
    EncryptedIsConstant(Init(encrypted, output), acts);
  }

  /** What streamDump returns: settled by whether pg_dump was started, by Put, and by how the dump ended. */
  predicate IsResult(s: State, started: bool, r: Result) {
    && (r == AbortError <==> !started)
    && (r == PutError <==> started && s.put == Sent(true))
    && (r == DumpError <==> started && s.put == Sent(false) && !(s.exitedClean && (s.encrypted ==> s.encryptClosed)))
    && (r.Stored? <==> started && s.put == Sent(false) && s.exitedClean && (s.encrypted ==> s.encryptClosed))
  }

  /** `started`: StartOk has happened. */
  predicate Headed(s: State, started: bool) {
    match s.main
    case EncryptStart => !started && !s.exitedClean && !s.encryptClosed
    case StartCmd => !started && !s.exitedClean && !s.encryptClosed
    case Running => started && !s.exitedClean && !s.encryptClosed
    case EncryptClose => started && !s.encryptClosed
    case ClosePipe(failed, aborted) => (aborted <==> !started) && (failed <==> aborted || !DumpClean(s))
    case AwaitPut(failed, aborted) => (aborted <==> !started) && (failed <==> aborted || !DumpClean(s))
    case Returned(r) => IsResult(s, started, r)
  }

  lemma StepHeaded(s: State, a: Action, started: bool)
    requires Inv(s) && Enabled(s, a) && Headed(s, started)
    ensures Headed(Apply(s, a), started || a == StartOk)
  {}

  lemma {:induction false} RunHeaded(s: State, acts: seq<Action>, started: bool)
    requires Inv(s) && IsRun(s, acts) && Headed(s, started)
    ensures Headed(End(s, acts), started || StartOk in acts)
    decreases |acts|
  {
    if acts == [] {
    } else {
      StepInv(s, acts[0]);
      StepHeaded(s, acts[0], started);
      RunHeaded(Apply(s, acts[0]), acts[1..], started || acts[0] == StartOk);
      assert acts == [acts[0]] + acts[1..];
    }
  }

  /**
    The result of every run: the early error if pg_dump never started, else Put's
    error if it had one, else the dump's, and a stored dump only without any.
    */
  lemma ResultIs(encrypted: bool, output: nat, acts: seq<Action>)
    requires IsRun(Init(encrypted, output), acts)
    ensures var s := End(Init(encrypted, output), acts);
            s.main.Returned? ==> s.encrypted == encrypted && IsResult(s, StartOk in acts, s.main.result)
  {
    InitInv(encrypted, output);
    RunHeaded(Init(encrypted, output), acts, false);
    EncryptedIsConstant(Init(encrypted, output), acts);
  }

  function MainRank(m: Main): nat {
    match m
    case EncryptStart => 6
    case StartCmd => 5
    case Running => 4
    case EncryptClose => 3
    case ClosePipe(_, _) => 2
    case AwaitPut(_, _) => 1
    case Returned(_) => 0
  }

  function PutRank(p: Put): nat {
    match p
    case Reading => 5
    case SawEnd(_) => 4
    case Cancel => 3
    case CloseReader(_) => 2
    case Send(_) => 1
    case Sent(_) => 0
  }

  /** An upper bound on the number of steps left. */
  function Measure(s: State): nat {
    3 * s.left + |s.pending| + (if s.writing then 1 else 0) + (if s.dead then 0 else 1)
    + MainRank(s.main) + PutRank(s.put)
  }

  /** Put's goroutine. */
  predicate ByPut(a: Action) {
    a.Read? || a.ReadEnd? || a.PutReturn? || a.CancelDump? || a.CloseReaderEnd? || a.SendPut?
  }

  lemma PutStepDecreases(s: State, a: Action)
    requires Enabled(s, a) && ByPut(a)
    ensures Measure(Apply(s, a)) < Measure(s)
  {}

  lemma DumpStepDecreases(s: State, a: Action)
    requires Inv(s) && Enabled(s, a) && !ByPut(a)
    ensures Measure(Apply(s, a)) < Measure(s)
  {}

  lemma StepDecreases(s: State, a: Action)
    requires Inv(s) && Enabled(s, a)
    ensures Measure(Apply(s, a)) < Measure(s)
  {
    if ByPut(a) {
      PutStepDecreases(s, a);
    } else {
      DumpStepDecreases(s, a);
    }
  }

  /** The failures that come from outside the protocol: of pg_dump, of its start, of the encryption. */
  predicate Spontaneous(a: Action) {
    a.HeaderFail? || a.StartFail? || a.Die? || a.EncryptFail?
  }

  /**
    No deadlock: while streamDump has not returned, one of the two goroutines can move without any such failure. Unless
    pg_dump died by itself before, it need not exit badly either: a blocked Write is read from or meets a closed reader.
    */
  lemma NoDeadlock(s: State)
    requires Inv(s) && !s.main.Returned?
    ensures exists a :: Enabled(s, a) && !Spontaneous(a) && (a.ExitBad? ==> s.dead)
  {
    var a :=
      if s.put.Cancel? then CancelDump
      else if s.put.CloseReader? then CloseReaderEnd
      else if s.put.Send? then SendPut
      else if s.put.SawEnd? then PutReturn(!s.put.eof, s.put.eof)
      else match s.main
        case EncryptStart =>
          if !s.writing then HeaderDone else if s.pending == [] then EndWrite
          else if s.put.Reading? then Read(1) else FailWrite
        case StartCmd => StartOk
        case Running =>
          if s.dead then ExitBad else if !s.writing then ExitClean else if s.pending == [] then EndWrite
          else if s.put.Reading? then Read(1) else FailWrite
        case EncryptClose =>
          if !s.writing then EncryptDone else if s.pending == [] then EndWrite
          else if s.put.Reading? then Read(1) else FailWrite
        case ClosePipe(_, _) => CloseWriter
        case AwaitPut(_, _) => if s.put.Reading? then ReadEnd else ReceivePut
        case Returned(_) => ReceivePut;
    assert Enabled(s, a) && !Spontaneous(a);
  }

  lemma {:induction false} RunIsBounded(s: State, acts: seq<Action>)
    requires Inv(s) && IsRun(s, acts)
    ensures |acts| + Measure(End(s, acts)) <= Measure(s)
    decreases |acts|
  {
    if acts == [] {
    } else {
      StepInv(s, acts[0]);
      StepDecreases(s, acts[0]);
      RunIsBounded(Apply(s, acts[0]), acts[1..]);
    }
  }

  /**
    streamDump always returns: a run has at most 3 * output + 12 steps, and one
    that can only be continued by a failure from outside has received its putErr
    and returned.
    */
  lemma AlwaysReturns(encrypted: bool, output: nat, acts: seq<Action>)
    requires IsRun(Init(encrypted, output), acts)
    ensures |acts| <= 3 * output + 12
    ensures var s := End(Init(encrypted, output), acts);
            (forall a :: Enabled(s, a) ==> Spontaneous(a)) ==> s.main.Returned? && s.put.Sent?
  {
    var s0 := Init(encrypted, output);
    InitInv(encrypted, output);
    RunInv(s0, acts);
    RunIsBounded(s0, acts);
    var s := End(s0, acts);
    if !s.main.Returned? {
      NoDeadlock(s);
    }
  }

  /** When pg_dump or the encryption failed, nothing is reported as stored and nothing becomes visible. */
  lemma FailedDumpStoresNothing(encrypted: bool, output: nat, acts: seq<Action>)
    requires IsRun(Init(encrypted, output), acts)
    ensures var s := End(Init(encrypted, output), acts);
            s.main.Returned? && !(s.exitedClean && (encrypted ==> s.encryptClosed)) ==>
              !s.main.result.Stored? && s.committed == []
  {
    EofOnlyAfterCleanDump(encrypted, output, acts);
    SuccessDescribesConsumedBytes(encrypted, output, acts);
  }

  /** Put returned nil only after storing all of its input, as the Storage contract has it. */
  ghost predicate Honest(acts: seq<Action>) {
    forall a :: a in acts ==> HonestAction(a)
  }

  predicate HonestAction(a: Action) {
    a.PutReturn? && !a.err ==> a.commit
  }

  /** Put's success, wherever it has got to on its way back. */
  predicate PutSucceeded(p: Put) {
    (p.CloseReader? || p.Send? || p.Sent?) && !p.err
  }

  predicate SuccessIsVisible(s: State) {
    PutSucceeded(s.put) ==> s.committed != []
  }

  lemma HonestStep(s: State, a: Action)
    requires Enabled(s, a) && HonestAction(a) && SuccessIsVisible(s)
    ensures SuccessIsVisible(Apply(s, a))
  {}

  lemma {:induction false} HonestCommits(s: State, acts: seq<Action>)
    requires IsRun(s, acts) && Honest(acts) && SuccessIsVisible(s)
    ensures SuccessIsVisible(End(s, acts))
    decreases |acts|
  {
    if acts == [] {
    } else {
      assert acts[0] in acts && forall a :: a in acts[1..] ==> a in acts;
      HonestStep(s, acts[0]);
      HonestCommits(Apply(s, acts[0]), acts[1..]);
    }
  }

  /** With such a Put, a success means that the object is visible and holds exactly the hashed bytes. */
  lemma StoredIsVisible(encrypted: bool, output: nat, acts: seq<Action>)
    requires IsRun(Init(encrypted, output), acts) && Honest(acts)
    ensures var s := End(Init(encrypted, output), acts);
            s.main.Returned? && s.main.result.Stored? ==> s.committed == [s.main.result.hashed]
  {
    SuccessDescribesConsumedBytes(encrypted, output, acts);
    EofOnlyAfterCleanDump(encrypted, output, acts);
    HonestCommits(Init(encrypted, output), acts);
  }

  /** Without it, it does not: a Put that returns nil at once goes unnoticed when the dump is empty. */
  lemma EarlyNilStoresNothing() returns (acts: seq<Action>)
    ensures IsRun(Init(false, 0), acts)
    ensures var s := End(Init(false, 0), acts); s.main.Returned? && s.main.result.Stored? && s.committed == []
  {
    var gone := Init(false, 0).(put := Sent(false), readerClosed := true);
    acts := EmptyDumpReturns(gone);
    RunCons(gone.(put := Send(false)), SendPut, acts);
    acts := [SendPut] + acts;
    RunCons(gone.(put := CloseReader(false), readerClosed := false), CloseReaderEnd, acts);
    acts := [CloseReaderEnd] + acts;
    RunCons(Init(false, 0), PutReturn(false, false), acts);
    acts := [PutReturn(false, false)] + acts;
  }

  /** An empty dump after Put has returned nil. */
  lemma EmptyDumpReturns(s: State) returns (acts: seq<Action>)
    requires s == Init(false, 0).(put := Sent(false), readerClosed := true)
    ensures IsRun(s, acts)
    ensures End(s, acts).main.Returned? && End(s, acts).main.result.Stored? && End(s, acts).committed == []
  {
    var done := s.(exitedClean := true, writerEnd := Eof, main := AwaitPut(false, false));
    assert IsRun(Apply(done, ReceivePut), []);
    RunCons(done, ReceivePut, []);
    RunCons(s.(exitedClean := true, main := ClosePipe(false, false)), CloseWriter, [ReceivePut] + []);
    acts := [CloseWriter] + ([ReceivePut] + []);
    RunCons(s.(main := Running), ExitClean, acts);
    acts := [ExitClean] + acts;
    RunCons(s, StartOk, acts);
    acts := [StartOk] + acts;
  }

  lemma RunCons(s: State, a: Action, rest: seq<Action>)
    requires Enabled(s, a) && IsRun(Apply(s, a), rest)
    ensures IsRun(s, [a] + rest) && End(s, [a] + rest) == End(Apply(s, a), rest)
  {
    assert ([a] + rest)[1..] == rest;
  }
}
