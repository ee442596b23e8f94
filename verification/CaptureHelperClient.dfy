/** The client of the elevated capture process (src/acquisition/CaptureHelperClient.cpp and
    src/acquisition/CaptureHelperRecordingControl.cpp). Everything outside the client is a
    Platform whose answers are arbitrary. Each method runs under one lock, as one step. */
module CaptureHelperClient {
  import opened Machine

  const POLL_INTERVAL := 50

  datatype ClientState = Idle | Starting | Running | StopRequested | Completed | Failed

  datatype StartFailure =
    | NoFailure
    | InvalidConfiguration
    | UacDenied
    | HelperMissing
    | LaunchFailed
    | ReadyTimeout
    | EarlyExit
    | InvalidStatus

  /** What a wait on the process handle gives. */
  datatype Poll = StillRunning | Exited(code: Option<uint32>) | PollFailed | PollThrew

  datatype Answer = Yes | No | Threw

  datatype Disposition = Started | Denied | NotFound | NotStarted | LaunchThrew

  datatype Launch = Launch(disposition: Disposition, process: nat, processId: uint32)

  datatype FatalReason =
    | NoReason
    | QueueOrByteLoss
    | IdentityChanged
    | FramingLost
    | WriterFailed
    | ConfigurationInvalid
    | OtherReason

  datatype Ready = Ready(helperPid: uint32, parentPid: uint32)

  datatype Health = Health(completed: bool, fatal: FatalReason)

  /** The answers of the platform, by the number of the question. An unreadable or malformed
      status file is None. */
  datatype Platform = Platform(
    poll: nat -> Poll,
    answer: nat -> Answer,
    ready: nat -> Option<Ready>,
    health: nat -> Option<Health>,
    error: nat -> Option<FatalReason>,
    launch: Launch,
    currentProcess: uint32)

  /** What the client has done to the process and to its control files. */
  datatype Action =
    | Launched(process: nat)
    | Waited(process: nat)
    | Terminated(process: nat)
    | Closed(process: nat)
    | CreatedControls
    | RemovedControls

  /** The handle held after a list of actions. */
  function HeldAfter(log: seq<Action>): Option<nat> {
    if log == [] then None
    else
      match log[|log| - 1]
      case Launched(process) => Some(process)
      case Closed(_) => None
      case _ => HeldAfter(log[..|log| - 1])
  }

  predicate Allowed(held: Option<nat>, action: Action) {
    match action
    case Launched(_) => held.None?
    case Waited(process) => held == Some(process)
    case Terminated(process) => held == Some(process)
    case Closed(process) => held == Some(process)
    case CreatedControls => held.None?
    case RemovedControls => held.None?
  }

  /** A handle is waited on, terminated and closed only while it is held, so it is closed at
      most once and not used afterwards; control files are removed only while none is. */
  ghost predicate Disciplined(log: seq<Action>) {
    forall i :: 0 <= i < |log| ==> Allowed(HeldAfter(log[..i]), log[i])
  }

  function Launches(log: seq<Action>): nat {
    if log == [] then 0 else Launches(log[..|log| - 1]) + (if log[|log| - 1].Launched? then 1 else 0)
  }

  lemma Acts(log: seq<Action>, action: Action)
    requires Disciplined(log) && Allowed(HeldAfter(log), action)
    ensures Disciplined(log + [action])
    ensures Launches(log + [action]) == Launches(log) + (if action.Launched? then 1 else 0)
    ensures HeldAfter(log + [action])
         == (match action
             case Launched(process) => Some(process)
             case Closed(_) => None
             case _ => HeldAfter(log))
  {
    var grown := log + [action];
    assert grown[..|log|] == log;
    forall i | 0 <= i < |grown|
      ensures Allowed(HeldAfter(grown[..i]), grown[i])
    {
      if i < |log| {
        assert grown[..i] == log[..i];
      }
    }
  }

  /** Between the launch of a process and anything that follows, it is closed at most once. */
  lemma {:induction false} ClosedOnce(log: seq<Action>, process: nat)
    requires Disciplined(log) && Launches(log) <= 1
    ensures Closes(log, process) + (if HeldAfter(log) == Some(process) then 1 else 0) <= Launches(log)
    decreases |log|
  {
    if log != [] {
      var k := |log| - 1;
      forall i | 0 <= i < k
        ensures Allowed(HeldAfter(log[..k][..i]), log[..k][i])
      {
        assert log[..k][..i] == log[..i];
      }
      assert Disciplined(log[..k]);
      ClosedOnce(log[..k], process);
      assert Allowed(HeldAfter(log[..k]), log[k]);
    }
  }

  function Closes(log: seq<Action>, process: nat): nat {
    if log == [] then 0
    else Closes(log[..|log| - 1], process) + (if log[|log| - 1] == Closed(process) then 1 else 0)
  }

  // ---------------------------------------------------------------------
  // The client
  // ---------------------------------------------------------------------

  datatype Config = Config(valid: bool, readinessTimeout: nat, shutdownTimeout: nat)

  datatype ClientSnapshot = ClientSnapshot(
    state: ClientState,
    exitCode: Option<uint32>,
    ready: Option<Ready>,
    health: Option<Health>,
    error: Option<FatalReason>,
    processAlive: bool)

  datatype StopResult = StopResult(stopped: bool, forced: bool, exitCode: Option<uint32>)

  /** What a client hears while it waits for the helper to be ready. */
  datatype Heard =
    | Polled(poll: Poll)
    | ErrorRead(reason: Option<FatalReason>)
    | ReadyRead(ready: Option<Ready>)
    | LookedInVain
    | TimeUp

  /** Nothing that decides a start: the process runs, or a file is not there yet as it should be. */
  predicate Undecided(e: Heard, ours: Ready) {
    e == Polled(StillRunning) || e == ErrorRead(None) || (e.ReadyRead? && e.ready != Some(ours))
  }

  /** Event k is the first that decides, and this is what it decides: a ready file with the right
      process IDs, an error file or an exit, a wait or a look at the files that fails, or the end of
      the time, which is told apart by whether another ready file was seen. */
  ghost predicate DecidedAt(heard: seq<Heard>, ours: Ready, k: nat, failure: StartFailure) {
    && k < |heard| && (forall j :: 0 <= j < k ==> Undecided(heard[j], ours))
    && match failure
       case NoFailure => heard[k] == ReadyRead(Some(ours))
       case EarlyExit => (FoundError(heard, k) && !Broke(heard[k + 1])) || (heard[k].Polled? && heard[k].poll.Exited?)
       case LaunchFailed =>
         || heard[k] == Polled(PollFailed) || heard[k].LookedInVain? || Broke(heard[k])
         || (FoundError(heard, k) && Broke(heard[k + 1]))
       case InvalidStatus => heard[k].TimeUp? && SawReady(heard[..k])
       case ReadyTimeout => heard[k].TimeUp? && !SawReady(heard[..k])
       case _ => false
  }

  predicate Broke(e: Heard) {
    e == Polled(PollThrew)
  }

  /** An error file was read, and then the process was waited on. */
  predicate FoundError(heard: seq<Heard>, k: nat) {
    k + 1 < |heard| && heard[k].ErrorRead? && heard[k].reason.Some? && heard[k + 1].Polled?
  }

  /** What is heard afterwards changes no decision. */
  lemma DecidedStays(a: seq<Heard>, b: seq<Heard>, ours: Ready, k: nat, failure: StartFailure)
    requires DecidedAt(a, ours, k, failure) && a <= b
    ensures DecidedAt(b, ours, k, failure)
  {
    assert b[..k] == a[..k];
  }

  /** Nor does what is undecided before it, unless it is the time that decides. */
  lemma DecidedLater(before: seq<Heard>, heard: seq<Heard>, ours: Ready, k: nat, failure: StartFailure)
    requires AllUndecided(before, 0, ours) && DecidedAt(heard, ours, k, failure)
    requires !failure.InvalidStatus? && !failure.ReadyTimeout?
    ensures DecidedAt(before + heard, ours, |before| + k, failure)
  {
    hide Undecided;
    var all := before + heard;
    forall j | 0 <= j < |before| + k
      ensures Undecided(all[j], ours)
    {
      assert j >= |before| ==> all[j] == heard[j - |before|];
    }
    assert all[|before| + k] == heard[k];
    assert k + 1 < |heard| ==> all[|before| + k + 1] == heard[k + 1];
  }

  lemma UndecidedFrom(heard: seq<Heard>, start: nat, ours: Ready)
    requires start <= |heard| && AllUndecided(heard[start..], 0, ours)
    ensures AllUndecided(heard, start, ours)
  {
    hide Undecided;
    forall j | start <= j < |heard|
      ensures Undecided(heard[j], ours)
    {
      assert heard[j] == heard[start..][j - start];
    }
  }

  lemma StillUndecided(before: seq<Heard>, after: seq<Heard>, start: nat, ours: Ready)
    requires start <= |before| && before <= after
    requires AllUndecided(before[start..], 0, ours) && AllUndecided(after, |before|, ours)
    ensures AllUndecided(after[start..], 0, ours)
    ensures SawReady(after[start..]) <==> SawReady(before[start..]) || SawReady(after[|before|..])
  {
    hide Undecided;
    var a, b := before[start..], after[|before|..];
    assert after[start..] == a + b;
    forall j | 0 <= j < |a + b|
      ensures Undecided((a + b)[j], ours)
    {
      assert j >= |a| ==> (a + b)[j] == after[|before| + (j - |a|)];
    }
    if SawReady(b) {
      var j :| 0 <= j < |b| && b[j].ReadyRead?;
      assert (a + b)[|a| + j] == b[j];
    }
    if SawReady(a) {
      var j :| 0 <= j < |a| && a[j].ReadyRead?;
      assert (a + b)[j] == a[j];
    }
  }

  /** Some event from `start` on decides. */
  ghost predicate Decided(heard: seq<Heard>, start: nat, ours: Ready, failure: StartFailure) {
    start <= |heard| && exists k: nat :: DecidedAt(heard[start..], ours, k, failure)
  }

  lemma NowDecided(before: seq<Heard>, after: seq<Heard>, start: nat, ours: Ready, failure: StartFailure)
    requires start <= |before| && before <= after && AllUndecided(before[start..], 0, ours)
    requires Decided(after, |before|, ours, failure) && !failure.InvalidStatus? && !failure.ReadyTimeout?
    ensures Decided(after, start, ours, failure)
  {
    var k: nat :| DecidedAt(after[|before|..], ours, k, failure);
    hide DecidedAt, AllUndecided;
    DecidedLater(before[start..], after[|before|..], ours, k, failure);
    assert before[start..] + after[|before|..] == after[start..];
  }

  lemma Expired(heard: seq<Heard>, start: nat, ours: Ready, failure: StartFailure)
    requires start < |heard| && heard[|heard| - 1].TimeUp? && AllUndecided(heard[start..|heard| - 1], 0, ours)
    requires failure == (if SawReady(heard[start..|heard| - 1]) then InvalidStatus else ReadyTimeout)
    ensures Decided(heard, start, ours, failure)
  {
    hide Undecided, SawReady;
    var rest, k := heard[start..], |heard| - 1 - start;
    assert rest[..k] == heard[start..|heard| - 1];
    assert forall j :: 0 <= j < k ==> rest[j] == heard[start..|heard| - 1][j];
    assert DecidedAt(rest, ours, k, failure);
  }

  lemma DecidedOnwards(before: seq<Heard>, after: seq<Heard>, start: nat, ours: Ready, failure: StartFailure)
    requires Decided(before, start, ours, failure) && before <= after
    ensures Decided(after, start, ours, failure)
  {
    var k: nat :| DecidedAt(before[start..], ours, k, failure);
    hide DecidedAt;
    assert before[start..] <= after[start..];
    DecidedStays(before[start..], after[start..], ours, k, failure);
  }

  ghost predicate AllUndecided(heard: seq<Heard>, from: nat, ours: Ready) {
    forall j :: from <= j < |heard| ==> Undecided(heard[j], ours)
  }

  ghost predicate SawReady(heard: seq<Heard>) {
    exists j :: 0 <= j < |heard| && heard[j].ReadyRead?
  }

  /** Why a start did not get as far as waiting: the answers of the platform, from question `at` on. */
  function Unprepared(p: Platform, config: Config, at: nat): StartFailure {
    if p.answer(at).Threw? then LaunchFailed
    else if !config.valid then InvalidConfiguration
    else if p.answer(at + 1).No? then HelperMissing
    else if p.answer(at + 1).Threw? || p.answer(at + 2).Threw? || p.answer(at + 3).Threw? || p.currentProcess == 0 then
      LaunchFailed
    else Unlaunched(p.launch)
  }

  /** Why a launch gave no process, if it gave none. */
  function Unlaunched(launch: Launch): StartFailure {
    match launch.disposition
    case Denied => UacDenied
    case NotFound => HelperMissing
    case NotStarted => LaunchFailed
    case LaunchThrew => LaunchFailed
    case Started => if launch.process == 0 || launch.processId == 0 then LaunchFailed else NoFailure
  }

  /** One turn of waiting for the helper to be ready. */
  datatype Verdict = GoOn(readySeen: bool) | Settled(failure: StartFailure) | Aborted

  /** What a wait on the process means for the start. */
  function VerdictOf(poll: Poll): Verdict {
    match poll
    case StillRunning => GoOn(false)
    case PollThrew => Aborted
    case Exited(_) => Settled(EarlyExit)
    case PollFailed => Settled(LaunchFailed)
  }

  /** The failure that Start answers; an exception on the way is a failed launch. */
  function FailureOf(verdict: Verdict): StartFailure {
    if verdict.Settled? then verdict.failure else LaunchFailed
  }

  class Client {
    const platform: Platform
    var shutdownTimeout: nat
    var process: nat
    var launchedId: uint32
    var parentId: uint32
    var state: ClientState
    var exitCode: Option<uint32>
    var ready: Option<Ready>
    var health: Option<Health>
    var error: Option<FatalReason>
    var controlsCreated: bool
    var startAttempted: bool
    var forced: bool
    var asked: nat
    ghost var log: seq<Action>
    ghost var heard: seq<Heard>

    /** What holds in the middle of a step, too. */
    ghost predicate Sane()
      reads this
    {
      && Disciplined(log) && Launches(log) <= 1
      && HeldAfter(log) == (if process != 0 then Some(process) else None)
      && (process != 0 ==> controlsCreated)
      && (!startAttempted ==> log == [] && !controlsCreated && process == 0 && ready.None? && heard == [])
      && (ready.Some? ==> ready.value == Ready(launchedId, parentId))
    }

    /** What holds between steps. */
    ghost predicate Valid()
      reads this
    {
      && Sane()
      && (state.Idle? <==> !startAttempted) && !state.Starting?
      && (state.Running? || state.StopRequested? ==> process != 0 && ready.Some?)
      && (state.Completed? ==> process == 0 && exitCode == Some(0) && !forced && ready.Some?)
      && (ready.Some? && process == 0 && exitCode == Some(0) && !forced ==> state.Completed?)
      && (state.Failed? && process != 0 ==> forced)
    }

    constructor (platform: Platform)
      ensures Valid() && state.Idle? && log == []
    {
      this.platform := platform;
      shutdownTimeout, process, launchedId, parentId, state := 10_000, 0, 0, 0, Idle;
      exitCode, ready, health, error := None, None, None, None;
      controlsCreated, startAttempted, forced, asked, log := false, false, false, 0, [];
      heard := [];
    }

    method Wait() returns (poll: Poll)
      requires Sane() && process != 0
      modifies `asked, `log, `heard
      ensures Sane() && log == old(log) + [Waited(process)]
      ensures poll == platform.poll(old(asked)) && heard == old(heard) + [Polled(poll)]
    {
      hide Disciplined, HeldAfter, Launches;
      Acts(log, Waited(process));
      log := log + [Waited(process)];
      poll := platform.poll(asked);
      asked := asked + 1;
      heard := heard + [Polled(poll)];
    }

    method Ask() returns (answer: Answer)
      modifies `asked
      ensures answer == platform.answer(old(asked)) && asked == old(asked) + 1
    {
      answer := platform.answer(asked);
      asked := asked + 1;
    }

    /** Advisory: whatever goes wrong, the last complete status is kept. */
    method ObserveHealthAndError()
      modifies `asked, `health, `error
      ensures (old(health).Some? ==> health.Some?) && (old(error).Some? ==> error.Some?)
      ensures !controlsCreated ==> health == old(health) && error == old(error)
    {
      if !controlsCreated {
        return;
      }
      var present := Ask();
      if present.Threw? {
        return;
      }
      if present.Yes? {
        var read := platform.health(asked);
        asked := asked + 1;
        if read.None? {
          return;
        }
        health := read;
      }
      present := Ask();
      if present.Yes? {
        var read := platform.error(asked);
        asked := asked + 1;
        if read.Some? {
          error := read;
        }
      }
    }

    method CleanupControls()
      requires Sane()
      modifies `controlsCreated, `log
      ensures Sane()
      ensures log == old(log) + (if old(controlsCreated) && process == 0 then [RemovedControls] else [])
      ensures controlsCreated == (old(controlsCreated) && process != 0)
    {
      hide Disciplined, HeldAfter, Launches;
      assert log + [] == log;
      if !controlsCreated || process != 0 {
        return;
      }
      Acts(log, RemovedControls);
      log := log + [RemovedControls];
      controlsCreated := false;
    }

    method CloseHandle()
      requires Sane() && process != 0
      modifies `process, `log
      ensures Sane() && process == 0 && log == old(log) + [Closed(old(process))]
    {
      hide Disciplined, HeldAfter, Launches;
      Acts(log, Closed(process));
      log := log + [Closed(process)];
      process := 0;
    }

    /** The process has exited: close the handle, and only a voluntary exit with code 0
        completes the capture. */
    method FinishExited(code: Option<uint32>)
      requires Sane() && startAttempted
      modifies `exitCode, `process, `state, `controlsCreated, `log
      ensures Sane() && process == 0 && !controlsCreated && old(log) <= log
      ensures exitCode == code
      ensures state == if code == Some(0) && !forced then Completed else Failed
    {
      hide Disciplined, HeldAfter, Launches;
      exitCode := code;
      if process != 0 {
        CloseHandle();
      }
      state := if code == Some(0) && !forced then Completed else Failed;
      CleanupControls();
    }

    /** Terminate and wait; true if the process is known to have exited. */
    method Kill() returns (poll: Poll)
      requires Sane() && process != 0
      modifies `asked, `log, `heard
      ensures Sane() && old(log) <= log && old(heard) <= heard
    {
      hide Disciplined, HeldAfter, Launches;
      Acts(log, Terminated(process));
      log := log + [Terminated(process)];
      var answer := Ask();
      if answer.Threw? {
        return PollThrew;
      }
      poll := Wait();
    }

    method TerminateFailedStart()
      requires Sane() && startAttempted
      modifies `forced, `asked, `log, `heard, `exitCode, `process, `controlsCreated
      ensures Sane() && old(log) <= log && old(heard) <= heard
      ensures process == 0 || (process == old(process) && forced)
    {
      hide Disciplined, HeldAfter, Launches;
      if process == 0 {
        return;
      }
      forced := true;
      var poll := Kill();
      if !poll.Exited? {
        return;
      }
      exitCode := poll.code;
      CloseHandle();
      CleanupControls();
    }

    /** The steps of Start before the launch. */
    method Prepare(config: Config) returns (failure: StartFailure)
      requires Sane() && startAttempted && process == 0 && ready.None? && Launches(log) == 0
      modifies `asked, `controlsCreated, `parentId, `log
      ensures Sane() && old(log) <= log && Launches(log) == 0
      ensures failure.NoFailure? ==> controlsCreated && parentId == platform.currentProcess
      ensures !failure.NoFailure? ==> failure == Unprepared(platform, config, old(asked))
      ensures failure.NoFailure? ==> Unprepared(platform, config, old(asked)) == Unlaunched(platform.launch)
    {
      hide Disciplined, HeldAfter, Launches;
      var located := Ask();
      if located.Threw? {
        return LaunchFailed;
      }
      if !config.valid {
        return InvalidConfiguration;
      }
      var regular := Ask();
      if regular.Threw? {
        return LaunchFailed;
      }
      if regular.No? {
        return HelperMissing;
      }
      var created := Ask();
      if created.Threw? {
        return LaunchFailed;
      }
      Acts(log, CreatedControls);
      log := log + [CreatedControls];
      controlsCreated := true;
      var written := Ask();
      if written.Threw? {
        return LaunchFailed;
      }
      parentId := platform.currentProcess;
      return if parentId == 0 then LaunchFailed else NoFailure;
    }

    method LaunchHelper() returns (failure: StartFailure)
      requires Sane() && startAttempted && process == 0 && ready.None? && controlsCreated && Launches(log) == 0
      modifies `process, `launchedId, `log
      ensures Sane() && old(log) <= log
      ensures failure == Unlaunched(platform.launch) && (failure.NoFailure? <==> process != 0)
      ensures failure.NoFailure? ==> launchedId == platform.launch.processId
    {
      hide Disciplined, HeldAfter, Launches;
      var launched := platform.launch;
      match launched.disposition {
        case LaunchThrew => return LaunchFailed;
        case Denied => return UacDenied;
        case NotFound => return HelperMissing;
        case NotStarted => return LaunchFailed;
        case Started =>
          if launched.process == 0 || launched.processId == 0 {
            return LaunchFailed;
          }
          Acts(log, Launched(launched.process));
          log := log + [Launched(launched.process)];
          process, launchedId := launched.process, launched.processId;
          return NoFailure;
      }
    }

    /** An error file while waiting: take the exit, or terminate. */
    method EarlyError() returns (threw: bool)
      requires Sane() && startAttempted && process != 0
      modifies `forced, `asked, `log, `heard, `exitCode, `process, `state, `controlsCreated
      ensures Sane() && old(log) <= log && old(heard) <= heard
      ensures |old(heard)| < |heard| && heard[|old(heard)|].Polled?
      ensures threw <==> heard[|old(heard)|] == Polled(PollThrew)
      ensures !threw ==> state.Failed? && (process != 0 ==> forced)
      ensures threw ==> process != 0 && state == old(state)
    {
      hide Disciplined, HeldAfter, Launches;
      var poll := Wait();
      if poll.PollThrew? {
        return true;
      }
      if poll.Exited? {
        FinishExited(poll.code);
      } else {
        TerminateFailedStart();
      }
      state := Failed;
      return false;
    }

    /** Look at the error file once. */
    method CheckError() returns (verdict: Verdict)
      requires Sane() && startAttempted && process != 0 && ready.None? && state.Starting?
      modifies `forced, `asked, `log, `heard, `exitCode, `process, `state, `controlsCreated, `error
      ensures Sane() && old(log) <= log && old(heard) <= heard
      ensures verdict.GoOn? ==> process != 0 && state.Starting? && !verdict.readySeen
      ensures verdict.GoOn? ==> heard == old(heard) || heard == old(heard) + [ErrorRead(None)]
      ensures match platform.answer(old(asked))
              case Threw => heard == old(heard) + [LookedInVain]
              case No => heard == old(heard)
              case Yes => old(heard) + [ErrorRead(platform.error(old(asked) + 1))] <= heard
      ensures !verdict.GoOn? ==>
                && Decided(heard, |old(heard)|, Ready(launchedId, parentId), FailureOf(verdict))
                && (FailureOf(verdict).EarlyExit? || FailureOf(verdict).LaunchFailed?)
      ensures verdict.Settled? ==> state.Failed? && (process != 0 ==> forced)
    {
      hide Disciplined, HeldAfter, Launches;
      var present := Ask();
      if present.Threw? {
        heard := heard + [LookedInVain];
        assert DecidedAt(heard[|old(heard)|..], Ready(launchedId, parentId), 0, LaunchFailed);
        return Aborted;
      }
      if present.Yes? {
        var read := platform.error(asked);
        asked := asked + 1;
        heard := heard + [ErrorRead(read)];
        if read.Some? {
          error := read;
          var threw := EarlyError();
          verdict := if threw then Aborted else Settled(EarlyExit);
          assert DecidedAt(heard[|old(heard)|..], Ready(launchedId, parentId), 0, FailureOf(verdict));
          return;
        }
      }
      return GoOn(false);
    }

    /** Look at the ready file once. */
    method CheckReady() returns (verdict: Verdict)
      requires Sane() && startAttempted && process != 0 && ready.None? && state.Starting?
      modifies `asked, `heard, `state, `ready, `health, `error
      ensures Sane() && old(heard) <= heard
      ensures verdict.GoOn? ==>
                && ready.None? && state.Starting? && AllUndecided(heard, |old(heard)|, Ready(launchedId, parentId))
                && (verdict.readySeen <==> SawReady(heard[|old(heard)|..]))
      ensures !verdict.GoOn? ==>
                && Decided(heard, |old(heard)|, Ready(launchedId, parentId), FailureOf(verdict))
                && (verdict.Aborted? || verdict.failure.NoFailure?)
      ensures verdict.Aborted? ==> ready.None?
      ensures verdict.Settled? ==> state.Running? && ready.Some?
      ensures match platform.answer(old(asked))
              case Threw => heard == old(heard) + [LookedInVain]
              case No => heard == old(heard)
              case Yes => heard == old(heard) + [ReadyRead(platform.ready(old(asked) + 1))]
    {
      hide Disciplined, HeldAfter, Launches;
      var present := Ask();
      if present.Threw? {
        heard := heard + [LookedInVain];
        assert DecidedAt(heard[|old(heard)|..], Ready(launchedId, parentId), 0, LaunchFailed);
        return Aborted;
      }
      if present.Yes? {
        var read := platform.ready(asked);
        asked := asked + 1;
        heard := heard + [ReadyRead(read)];
        if read == Some(Ready(launchedId, parentId)) {
          ready := read;
          state := Running;
          ObserveHealthAndError();
          assert DecidedAt(heard[|old(heard)|..], Ready(launchedId, parentId), 0, NoFailure);
          return Settled(NoFailure);
        }
        assert heard[|old(heard)|..][0].ReadyRead?;
        return GoOn(true);
      }
      return GoOn(false);
    }

    /** Look at the error and ready files once. */
    method CheckFiles() returns (verdict: Verdict)
      requires Sane() && startAttempted && process != 0 && ready.None? && state.Starting?
      modifies `forced, `asked, `log, `heard, `exitCode, `process, `state, `controlsCreated, `ready, `health, `error
      ensures Sane() && old(log) <= log && old(heard) <= heard
      ensures verdict.GoOn? ==>
                && AllUndecided(heard, |old(heard)|, Ready(launchedId, parentId))
                && (verdict.readySeen <==> SawReady(heard[|old(heard)|..]))
      ensures !verdict.GoOn? ==>
                && Decided(heard, |old(heard)|, Ready(launchedId, parentId), FailureOf(verdict))
                && !FailureOf(verdict).InvalidStatus? && !FailureOf(verdict).ReadyTimeout?
      ensures verdict.GoOn? ==> process != 0 && ready.None? && state.Starting?
      ensures verdict != Settled(NoFailure) ==> ready.None?
      ensures verdict == Settled(NoFailure) ==> state.Running? && process != 0 && ready.Some?
      ensures verdict.Settled? && !verdict.failure.NoFailure? ==> state.Failed? && (process != 0 ==> forced)
    {
      hide Disciplined, HeldAfter, Launches, DecidedAt;
      ghost var start, ours := |heard|, Ready(launchedId, parentId);
      verdict := CheckError();
      if !verdict.GoOn? {
        return;
      }
      ghost var before := heard;
      assert AllUndecided(before[start..], 0, ours) && !SawReady(before[start..]);
      verdict := CheckReady();
      if verdict.GoOn? {
        StillUndecided(before, heard, start, ours);
        UndecidedFrom(heard, start, ours);
      } else {
        NowDecided(before, heard, start, ours, FailureOf(verdict));
      }
    }

    /** Wait on the process for one slice of the time that is left. */
    method WaitSlice() returns (verdict: Verdict)
      requires Sane() && startAttempted && process != 0 && ready.None? && state.Starting?
      modifies `forced, `asked, `log, `heard, `exitCode, `process, `state, `controlsCreated, `health, `error
      ensures Sane() && old(log) <= log && old(heard) <= heard
      ensures verdict.GoOn? ==> heard == old(heard) + [Polled(StillRunning)] && !verdict.readySeen
      ensures !verdict.GoOn? ==>
                && Decided(heard, |old(heard)|, Ready(launchedId, parentId), FailureOf(verdict))
                && (FailureOf(verdict).EarlyExit? || FailureOf(verdict).LaunchFailed?)
      ensures verdict.GoOn? ==> process != 0 && state.Starting?
      ensures verdict.Settled? ==>
                !verdict.failure.NoFailure? && state.Failed? && (process != 0 ==> forced)
    {
      hide Disciplined, HeldAfter, Launches;
      var poll := Wait();
      ghost var reached, decided := heard, FailureOf(VerdictOf(poll));
      if !poll.StillRunning? {
        assert DecidedAt(reached[|old(heard)|..], Ready(launchedId, parentId), 0, decided);
      }
      match poll {
        case StillRunning => return GoOn(false);
        case PollThrew => return Aborted;
        case Exited(code) =>
          ObserveHealthAndError();
          FinishExited(code);
          state := Failed;
          return Settled(EarlyExit);
        case PollFailed =>
          state := Failed;
          TerminateFailedStart();
          DecidedOnwards(reached, heard, |old(heard)|, Ready(launchedId, parentId), decided);
          return Settled(LaunchFailed);
      }
    }

    /** The wait for the ready file; None stands for an exception on the way. */
    method AwaitReady(timeout: nat) returns (failure: Option<StartFailure>)
      requires Sane() && startAttempted && process != 0 && ready.None? && state.Starting?
      modifies `forced, `asked, `log, `heard, `exitCode, `process, `state, `controlsCreated, `ready, `health, `error
      ensures Sane() && old(log) <= log && old(heard) <= heard
      ensures Decided(heard, |old(heard)|, Ready(launchedId, parentId),
                      if failure.Some? then failure.value else LaunchFailed)
      ensures failure == Some(NoFailure) ==> state.Running? && process != 0 && ready.Some?
      ensures failure != Some(NoFailure) ==> ready.None?
      ensures failure.Some? && failure != Some(NoFailure) ==> state.Failed? && (process != 0 ==> forced)
    {
      hide Disciplined, HeldAfter, Launches;
      var remaining := timeout;
      var readySeen := false;
      ghost var start, ours := |heard|, Ready(launchedId, parentId);
      while remaining > 0
        invariant Sane() && startAttempted && process != 0 && ready.None? && state.Starting? && old(log) <= log
        invariant old(heard) <= heard && launchedId == ours.helperPid && parentId == ours.parentPid
        invariant AllUndecided(heard[start..], 0, ours) && (readySeen <==> SawReady(heard[start..]))
      {
        ghost var before := heard;
        var verdict := CheckFiles();
        if verdict.GoOn? {
          StillUndecided(before, heard, start, ours);
          readySeen := readySeen || verdict.readySeen;
          before := heard;
          var slice := if remaining < POLL_INTERVAL then remaining else POLL_INTERVAL;
          verdict := WaitSlice();
          remaining := remaining - slice;
        }
        if verdict.GoOn? {
          StillUndecided(before, heard, start, ours);
        } else {
          NowDecided(before, heard, start, ours, FailureOf(verdict));
        }
        if verdict.Aborted? {
          return None;
        }
        if verdict.Settled? {
          return Some(verdict.failure);
        }
      }
      heard := heard + [TimeUp];
      ghost var outOfTime := heard;
      Expired(heard, start, ours, if readySeen then InvalidStatus else ReadyTimeout);
      state := Failed;
      TerminateFailedStart();
      DecidedOnwards(outOfTime, heard, start, ours, if readySeen then InvalidStatus else ReadyTimeout);
      return Some(if readySeen then InvalidStatus else ReadyTimeout);
    }

    method PrepareAndLaunch(config: Config) returns (failure: StartFailure)
      requires Sane() && startAttempted && process == 0 && ready.None? && Launches(log) == 0
      modifies `asked, `controlsCreated, `parentId, `log, `process, `launchedId
      ensures Sane() && old(log) <= log
      ensures failure == Unprepared(platform, config, old(asked))
      ensures failure.NoFailure? <==> process != 0
      ensures failure.NoFailure? ==> launchedId == platform.launch.processId && parentId == platform.currentProcess
    {
      hide Disciplined, HeldAfter, Launches, Unprepared, Unlaunched;
      failure := Prepare(config);
      if failure.NoFailure? {
        failure := LaunchHelper();
      }
    }

    /** The wait, and what an exception in it leads to. */
    method WaitUntilReady(timeout: nat) returns (failure: StartFailure)
      requires Sane() && startAttempted && process != 0 && ready.None? && state.Starting?
      modifies `forced, `asked, `log, `heard, `exitCode, `process, `state, `controlsCreated, `ready, `health, `error
      ensures Sane() && old(log) <= log && |old(heard)| <= |heard|
      ensures Decided(heard, |old(heard)|, Ready(launchedId, parentId), failure)
      ensures failure.NoFailure? ==> state.Running? && process != 0 && ready.Some?
      ensures !failure.NoFailure? ==> ready.None? && state.Failed? && (process != 0 ==> forced)
    {
      hide Disciplined, HeldAfter, Launches, Decided;
      var awaited := AwaitReady(timeout);
      if awaited.Some? {
        return awaited.value;
      }
      state := Failed;
      ghost var reached := heard;
      TerminateFailedStart();
      DecidedOnwards(reached, heard, |old(heard)|, Ready(launchedId, parentId), LaunchFailed);
      CleanupControls();
      return LaunchFailed;
    }

    /** Start is single-shot. */
    method Start(config: Config) returns (failure: StartFailure)
      requires Valid()
      modifies this
      ensures Valid() && old(log) <= log
      ensures old(startAttempted) ==> failure.InvalidConfiguration? && unchanged(this)
      ensures !old(startAttempted) ==> (failure.NoFailure? <==> state.Running?) && !state.Idle?
      ensures !old(startAttempted) && !failure.NoFailure? ==> state.Failed?
      ensures !old(startAttempted) ==>
                var unprepared := Unprepared(platform, config, old(asked));
                if !unprepared.NoFailure? then failure == unprepared
                else
                  && launchedId == platform.launch.processId && parentId == platform.currentProcess
                  && Decided(heard, 0, Ready(launchedId, parentId), failure)
      ensures old(state).Completed? ==> state.Completed? && exitCode == old(exitCode)
    {
      hide Disciplined, HeldAfter, Launches, Unprepared, Unlaunched, Decided;
      if startAttempted {
        return InvalidConfiguration;
      }
      NothingLaunched();
      startAttempted := true;
      state := Starting;
      shutdownTimeout := config.shutdownTimeout;
      failure := PrepareAndLaunch(config);
      if !failure.NoFailure? {
        state := Failed;
        CleanupControls();
        return failure;
      }
      failure := WaitUntilReady(config.readinessTimeout);
    }

    /** None if waiting on the process throws. */
    method Snapshot() returns (result: Option<ClientSnapshot>)
      requires Valid()
      modifies this
      ensures Valid() && old(log) <= log
      ensures result.Some? ==> result.value == Picture()
      ensures process == old(process) ==> state == old(state)
      ensures process != old(process) ==>
                process == 0 && state == if exitCode == Some(0) && !old(forced) then Completed else Failed
      ensures old(state).Completed? ==> state.Completed? && exitCode == old(exitCode)
      ensures startAttempted == old(startAttempted)
    {
      hide Disciplined, HeldAfter, Launches;
      ObserveHealthAndError();
      if process != 0 {
        var poll := Wait();
        if poll.PollThrew? {
          return None;
        }
        if poll.Exited? {
          ObserveHealthAndError();
          FinishExited(poll.code);
        }
      }
      return Some(Picture());
    }

    function Picture(): ClientSnapshot
      reads this
    {
      ClientSnapshot(state, exitCode, ready, health, error, process != 0)
    }

    method RequestStop() returns (requested: bool)
      requires Valid()
      modifies `state, `asked
      ensures Valid()
      ensures requested == (if process == 0 then old(state).Completed?
                            else old(state).StopRequested?
                                 || (ready.Some? && !platform.answer(old(asked)).Threw?))
      ensures state == if process != 0 && requested then StopRequested else old(state)
    {
      hide Disciplined, HeldAfter, Launches;
      if process == 0 {
        return state.Completed?;
      }
      if state.StopRequested? {
        return true;
      }
      if ready.None? {
        return false;
      }
      var written := Ask();
      if written.Threw? {
        return false;
      }
      state := StopRequested;
      return true;
    }

    /** The graceful part of StopAndWait: true when the process has exited. */
    method AwaitExit() returns (exited: bool)
      requires Valid() && process != 0
      modifies `asked, `log, `heard, `exitCode, `process, `state, `controlsCreated, `health, `error
      ensures Valid() && old(log) <= log
      ensures exited <==> process == 0
      ensures process != 0 ==> state == old(state)
      ensures exited ==> state == if exitCode == Some(0) && !forced then Completed else Failed
    {
      hide Disciplined, HeldAfter, Launches;
      var remaining := shutdownTimeout;
      while remaining > 0
        invariant Valid() && process != 0 && old(log) <= log && state == old(state)
      {
        var slice := if remaining < POLL_INTERVAL then remaining else POLL_INTERVAL;
        var poll := Wait();
        remaining := remaining - slice;
        if poll.Exited? {
          ObserveHealthAndError();
          FinishExited(poll.code);
          return true;
        }
        if poll.PollFailed? || poll.PollThrew? {
          return false;
        }
      }
      return false;
    }

    /** The forced part: the process is gone, or it is kept together with its control files. */
    method ForceExit() returns (result: StopResult)
      requires Valid() && process != 0
      modifies `forced, `asked, `log, `heard, `exitCode, `process, `state, `controlsCreated, `health, `error
      ensures Valid() && old(log) <= log && state.Failed? && forced
      ensures result == StopResult(process == 0, true, exitCode)
      ensures process != 0 ==> process == old(process) && controlsCreated == old(controlsCreated)
    {
      hide Disciplined, HeldAfter, Launches;
      forced := true;
      var poll := Kill();
      if poll.Exited? {
        ObserveHealthAndError();
        FinishExited(poll.code);
      }
      state := Failed;
      return StopResult(poll.Exited?, true, exitCode);
    }

    method StopAndWait() returns (result: StopResult)
      requires Valid()
      modifies this
      ensures Valid() && old(log) <= log
      ensures old(process) == 0 ==> state == old(state) && (result.stopped <==> state.Completed?)
      ensures old(process) != 0 ==> (result.stopped <==> process == 0) && (!result.stopped ==> result.forced)
      ensures process != 0 ==> forced
      ensures result.forced == forced && result.exitCode == exitCode
      ensures result.stopped && !result.forced && old(process) != 0 && exitCode == Some(0) ==> state.Completed?
      ensures old(state).Completed? ==> state.Completed? && exitCode == old(exitCode)
      ensures startAttempted == old(startAttempted)
    {
      hide Disciplined, HeldAfter, Launches;
      if process == 0 {
        CleanupControls();
        return StopResult(state.Completed?, forced, exitCode);
      }
      if ready.Some? && !state.StopRequested? {
        var written := Ask();
        if !written.Threw? {
          state := StopRequested;
        }
      }
      var exited := AwaitExit();
      if exited {
        return StopResult(true, forced, exitCode);
      }
      result := ForceExit();
    }

    lemma NothingLaunched()
      requires Sane() && !startAttempted
      ensures Launches(log) == 0
    {
    }
  }

  // ---------------------------------------------------------------------
  // What recording sees of the client
  // ---------------------------------------------------------------------

  datatype Issue =
    | NativeQueueOverflow
    | SelectedDeviceChanged
    | PcapFramingLost
    | StorageWriteFailed
    | IntegrityFailed
    | CaptureHelperLost

  datatype RecordingSnapshot = RecordingSnapshot(
    ready: bool,
    running: bool,
    stopRequested: bool,
    stopComplete: bool,
    shutdownFailed: bool,
    cleanStop: bool,
    fatal: Option<Issue>,
    helperPid: uint32)

  const EMPTY_SNAPSHOT := RecordingSnapshot(false, false, false, false, false, false, None, 0)

  function FatalIssueFor(reason: FatalReason): Issue {
    match reason
    case QueueOrByteLoss => NativeQueueOverflow
    case IdentityChanged => SelectedDeviceChanged
    case FramingLost => PcapFramingLost
    case WriterFailed => StorageWriteFailed
    case ConfigurationInvalid => IntegrityFailed
    case _ => CaptureHelperLost
  }

  function FatalOf(snapshot: ClientSnapshot): Option<Issue> {
    if snapshot.error.Some? && !snapshot.error.value.NoReason? then Some(FatalIssueFor(snapshot.error.value))
    else if snapshot.health.Some? && !snapshot.health.value.fatal.NoReason? then
      Some(FatalIssueFor(snapshot.health.value.fatal))
    else if snapshot.state.Failed? then Some(CaptureHelperLost)
    else None
  }

  function MapSnapshot(snapshot: ClientSnapshot): RecordingSnapshot {
    RecordingSnapshot(
      snapshot.ready.Some?,
      snapshot.processAlive || snapshot.state.Running? || snapshot.state.StopRequested?,
      snapshot.state.StopRequested?,
      snapshot.state.Completed? || (snapshot.state.Failed? && !snapshot.processAlive),
      snapshot.state.Failed? && snapshot.processAlive,
      snapshot.health.Some? && snapshot.state.Completed? && snapshot.health.value.completed
        && snapshot.health.value.fatal.NoReason?,
      FatalOf(snapshot),
      if snapshot.ready.Some? then snapshot.ready.value.helperPid else 0)
  }

  /** What recording can rely on in a snapshot. */
  predicate Consistent(r: RecordingSnapshot) {
    && !(r.running && r.stopComplete)
    && (r.shutdownFailed ==> r.running && r.fatal.Some?)
    && (r.cleanStop ==> r.stopComplete && !r.running)
  }

  /** The reason that the files give: the error file's comes first. */
  function GivenReason(error: Option<FatalReason>, health: Option<Health>): FatalReason {
    if error.Some? && !error.value.NoReason? then error.value
    else if health.Some? then health.value.fatal
    else NoReason
  }

  /** Which issue stands for which reason; a failure without one is a lost helper. */
  predicate IssueShown(fatal: Option<Issue>, reason: FatalReason, failed: bool) {
    && (fatal == Some(NativeQueueOverflow) <==> reason.QueueOrByteLoss?)
    && (fatal == Some(SelectedDeviceChanged) <==> reason.IdentityChanged?)
    && (fatal == Some(PcapFramingLost) <==> reason.FramingLost?)
    && (fatal == Some(StorageWriteFailed) <==> reason.WriterFailed?)
    && (fatal == Some(IntegrityFailed) <==> reason.ConfigurationInvalid?)
    && (fatal == Some(CaptureHelperLost) <==> reason.OtherReason? || (reason.NoReason? && failed))
  }

  /** Once started, a client is seen as running or as stopped for good, never both and never
      neither. It is seen as running exactly while the process is held, and its stop is clean
      exactly when a helper that had become ready ended by itself with code 0 and its last
      health says that it completed without a fatal reason. */
  lemma MappedConsistently(client: Client)
    requires client.Valid()
    ensures var mapped := MapSnapshot(client.Picture());
            && Consistent(mapped)
            && (mapped.running <==> client.process != 0)
            && (mapped.stopComplete <==> client.startAttempted && client.process == 0)
            && (mapped.ready <==> client.ready.Some?)
            && mapped.helperPid == (if client.ready.Some? then client.launchedId else 0)
            && (mapped.stopRequested <==> client.state.StopRequested?)
            && (mapped.shutdownFailed <==> client.process != 0 && client.state.Failed?)
            && (mapped.cleanStop <==>
                  && client.ready.Some? && client.process == 0 && client.exitCode == Some(0) && !client.forced
                  && client.health.Some? && client.health.value.completed && client.health.value.fatal.NoReason?)
            && IssueShown(mapped.fatal, GivenReason(client.error, client.health), client.state.Failed?)
  {
    hide Disciplined, HeldAfter, Launches;
  }

  /** The recording's view of a client: one begin, one stop, and a snapshot at any time. */
  class RecordingControl {
    const client: Client
    const config: Config
    var beginCalled: bool
    var stopCalled: bool
    var startFailure: Option<RecordingSnapshot>
    var inProgress: Option<RecordingSnapshot>

    ghost predicate Valid()
      reads this, client
    {
      && client.Valid()
      && (beginCalled <==> client.startAttempted)
      && (stopCalled ==> beginCalled)
      && (inProgress.Some? ==> stopCalled && Consistent(inProgress.value))
      && (startFailure.Some? ==> Consistent(startFailure.value))
    }

    constructor (platform: Platform, config: Config)
      ensures Valid() && fresh(client) && !beginCalled && !stopCalled
    {
      client := new Client(platform);
      this.config := config;
      beginCalled, stopCalled, startFailure, inProgress := false, false, None, None;
    }

    /** False stands for the exception: a second begin, or a start that failed. */
    method BeginCapture() returns (started: bool)
      requires Valid()
      modifies this, client
      ensures Valid() && beginCalled
      ensures old(beginCalled) ==> !started && client.log == old(client.log)
      ensures !old(beginCalled) ==> (started <==> client.state.Running?)
      ensures !old(beginCalled) && !started ==>
                startFailure == Some(RecordingSnapshot(false, false, false, true, false, false,
                                                       Some(CaptureHelperLost), 0))
      ensures old(beginCalled) || started ==> startFailure == old(startFailure)
    {
      if beginCalled {
        return false;
      }
      beginCalled := true;
      var failure := client.Start(config);
      if !failure.NoFailure? {
        startFailure := Some(EMPTY_SNAPSHOT.(stopComplete := true, fatal := Some(CaptureHelperLost)));
        return false;
      }
      return true;
    }

    /** Only the first stop after a begin does anything; the wait for the exit is left to
        another thread (FinishStop). None if the snapshot on the way throws. */
    method RequestStop() returns (done: Option<bool>)
      requires Valid()
      modifies this, client
      ensures Valid()
      ensures !old(beginCalled) || old(stopCalled) ==> done == Some(false) && unchanged(this) && unchanged(client)
      ensures old(beginCalled) && !old(stopCalled) ==> stopCalled
      ensures done == Some(true) ==>
                inProgress.Some? && inProgress.value.stopRequested
                && inProgress.value == MapSnapshot(client.Picture()).(stopRequested := true)
      ensures startFailure == old(startFailure)
    {
      if !beginCalled || stopCalled {
        return Some(false);
      }
      stopCalled := true;
      var _ := client.RequestStop();
      var picture := client.Snapshot();
      if picture.None? {
        return None;
      }
      MappedConsistently(client);
      inProgress := Some(MapSnapshot(picture.value).(stopRequested := true));
      return Some(true);
    }

    /** The other thread's StopAndWait, and what Snapshot does when it finds it finished. */
    method FinishStop()
      requires Valid() && stopCalled
      modifies this, client
      ensures Valid() && inProgress.None? && stopCalled == old(stopCalled) && beginCalled == old(beginCalled)
      ensures client.process != 0 ==> client.forced
      ensures startFailure == old(startFailure)
    {
      var _ := client.StopAndWait();
      inProgress := None;
    }

    /** While the stop is under way its first picture is shown again; afterwards, and before,
        the client is asked. No snapshot is ever running and stopped for good at once. */
    method Snapshot() returns (result: Option<RecordingSnapshot>)
      requires Valid()
      modifies client
      ensures Valid()
      ensures result.Some? ==> Consistent(result.value)
      ensures startFailure.Some? ==> result == startFailure
      ensures startFailure.None? && beginCalled && inProgress.None? && result.Some? ==>
                result.value == MapSnapshot(client.Picture()) && (result.value.running <==> !result.value.stopComplete)
    {
      if startFailure.Some? {
        return startFailure;
      }
      if !beginCalled {
        return Some(EMPTY_SNAPSHOT);
      }
      if inProgress.Some? {
        return inProgress;
      }
      var picture := client.Snapshot();
      if picture.None? {
        return None;
      }
      MappedConsistently(client);
      return Some(MapSnapshot(picture.value));
    }
  }

  // ---------------------------------------------------------------------
  // Every sequence of calls
  // ---------------------------------------------------------------------

  datatype Call = CallStart(config: Config) | CallSnapshot | CallRequestStop | CallStopAndWait

  /** What every picture of a client shows, whenever it is taken. */
  predicate Shows(picture: ClientSnapshot) {
    && (picture.state.Running? || picture.state.StopRequested? ==> picture.processAlive && picture.ready.Some?)
    && (picture.state.Completed? ==> !picture.processAlive && picture.exitCode == Some(0))
    && Consistent(MapSnapshot(picture))
  }

  lemma ValidShows(client: Client)
    requires client.Valid()
    ensures Shows(client.Picture())
  {
    hide Disciplined, HeldAfter, Launches;
  }

  /** However a client is used and whatever the platform answers: there is one launch at most,
      the handle is used only while it is held and closed at most once, control files are never
      removed while it is held, and a completed capture stays completed. `shown` has the picture
      after each call. */
  method Use(platform: Platform, calls: seq<Call>) returns (client: Client, shown: seq<ClientSnapshot>)
    ensures fresh(client) && client.Valid()
    ensures Disciplined(client.log) && Launches(client.log) <= 1
    ensures forall process: nat :: Closes(client.log, process) <= 1
    ensures |shown| == |calls| && (shown != [] ==> shown[|shown| - 1] == client.Picture())
    ensures forall i :: 0 <= i < |shown| ==> Shows(shown[i])
    ensures forall i, j :: 0 <= i < j < |shown| && shown[i].state.Completed? ==> shown[j].state.Completed?
  {
    hide Disciplined, Client.Sane, Shows;
    client := new Client(platform);
    shown := [];
    for i := 0 to |calls|
      invariant fresh(client) && client.Valid()
      invariant |shown| == i && (shown != [] ==> shown[|shown| - 1] == client.Picture())
      invariant forall k :: 0 <= k < |shown| ==> Shows(shown[k])
      invariant forall k, l :: 0 <= k < l < |shown| && shown[k].state.Completed? ==> shown[l].state.Completed?
    {
      match calls[i] {
        case CallStart(config) =>
          var _ := client.Start(config);
        case CallSnapshot =>
          var _ := client.Snapshot();
        case CallRequestStop =>
          var _ := client.RequestStop();
        case CallStopAndWait =>
          var _ := client.StopAndWait();
      }
      ValidShows(client);
      shown := shown + [client.Picture()];
    }
    DisciplineOf(client);
  }

  lemma DisciplineOf(client: Client)
    requires client.Sane()
    ensures Disciplined(client.log) && Launches(client.log) <= 1
    ensures forall process: nat :: Closes(client.log, process) <= 1
  {
    hide Disciplined, HeldAfter, Launches, Closes;
    forall process: nat
      ensures Closes(client.log, process) <= 1
    {
      ClosedOnce(client.log, process);
    }
  }
}
