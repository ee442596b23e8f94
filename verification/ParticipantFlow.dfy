/** The participant's way through a session (src/app/ParticipantFlow.cpp), and what holds in
    every state that any sequence of events can reach. */
module ParticipantFlow {
  import opened Machine

  datatype Stage =
    | WelcomePrivacy
    | ChooseMouse
    | CertificationReady
    | Certifying
    | CertificationNeedsAction
    | ConfigureSession
    | ReadyToStart
    | StartingCapture
    | Ready
    | Countdown
    | Playing
    | Paused
    | ResumeCountdown
    | StoppingAndSaving
    | StoppingAndPreserving
    | Complete
    | Error
    | Cancelled

  datatype RunLength = FullResearch | QuickPractice

  datatype Problem = Ambiguous | NoActivity | PermissionDenied

  datatype Warning = CaptureTimingAnomaly | DecodeAnomaly | ClockUncertainty | InputWitnessUnavailable

  datatype Failure =
    | HelperLost
    | CaptureLost
    | SelectedDeviceChanged
    | QueueOverflow
    | FramingCorruption
    | StorageFailure
    | IntegrityFailure

  datatype Prefix = NotRequired | Pending | Preserved | ArchiveWithoutVerifiedSource | PreservationFailed

  datatype Blocker = Focus | Minimized | Display | GameplayInput

  /** A sensitivity that is not finite carries no number. */
  datatype Event =
    | AcceptPrivacy
    | SelectPhysicalMouse
    | BeginCertification
    | CertificationSucceeded
    | CertificationFailed(problem: Problem)
    | RetryCertification
    | ChooseDifferentMouse
    | SetSensitivity(value: Option<real>)
    | ChooseRunLength(length: RunLength)
    | ConfirmConfiguration
    | EditConfiguration
    | StartCapture
    | CaptureStarted
    | BeginCountdown
    | CountdownFinished
    | ManualPause
    | EnvironmentLost(blocker: Blocker)
    | EnvironmentRestored(blocker: Blocker)
    | Resume
    | ResumeCountdownFinished
    | AddOptionalWarning(warning: Warning)
    | FinishSession
    | SaveCompleted
    | PreservationEnded(outcome: Prefix)
    | DestructiveFailure(failure: Failure)
    | Cancel

  datatype Annotation = Annotation(kind: Warning, occurrences: uint32)

  datatype State = State(
    stage: Stage,
    sensitivity: Option<real>,
    runLength: Option<RunLength>,
    problem: Option<Problem>,
    failure: Option<Failure>,
    attempts: uint32,
    discarded: uint32,
    warnings: seq<Annotation>,
    prefix: Prefix,
    sendThis: bool,
    blockers: set<Blocker>,
    manuallyPaused: bool)

  const START := State(WelcomePrivacy, None, None, None, None, 0, 0, [], NotRequired, false, {}, false)

  function Increment(x: uint32): uint32 {
    (x + 1) % 0x1_0000_0000
  }

  predicate IsGameplay(stage: Stage) {
    stage.Ready? || stage.Countdown? || stage.Playing? || stage.Paused? || stage.ResumeCountdown?
  }

  predicate IsPreCapture(stage: Stage) {
    stage.WelcomePrivacy? || stage.ChooseMouse? || stage.CertificationReady? || stage.Certifying?
    || stage.CertificationNeedsAction? || stage.ConfigureSession? || stage.ReadyToStart?
  }

  /** Stages in which warnings are kept and destructive failures can strike. */
  predicate IsCapturing(stage: Stage) {
    stage.StartingCapture? || IsGameplay(stage) || stage.StoppingAndSaving?
  }

  predicate IsTerminal(stage: Stage) {
    stage.Complete? || stage.Error? || stage.Cancelled?
  }

  predicate CanResume(s: State) {
    s.stage.Paused? && s.blockers == {}
  }

  predicate CanBeginCountdown(s: State) {
    s.stage.Ready? && s.blockers == {}
  }

  // ---------------------------------------------------------------------
  // One event
  // ---------------------------------------------------------------------

  function AddWarning(warnings: seq<Annotation>, warning: Warning): seq<Annotation> {
    if warnings == [] then [Annotation(warning, 1)]
    else if warnings[0].kind == warning then
      [warnings[0].(occurrences := Increment(warnings[0].occurrences))] + warnings[1..]
    else [warnings[0]] + AddWarning(warnings[1..], warning)
  }

  /** Ready is not interrupted: there is nothing to pause yet. */
  function PauseForBlocker(s: State, blocker: Blocker): Option<State> {
    if !IsGameplay(s.stage) || s.stage.Ready? then None
    else
      Some(s.(blockers := s.blockers + {blocker},
              discarded := if s.stage.Playing? then Increment(s.discarded) else s.discarded,
              stage := Paused))
  }

  function ClearBlocker(s: State, blocker: Blocker): Option<State> {
    if !s.stage.Paused? || blocker !in s.blockers then None
    else
      var left := s.blockers - {blocker};
      Some(s.(blockers := left, stage := if left == {} && !s.manuallyPaused then ResumeCountdown else Paused))
  }

  function When(accepted: bool, next: State): Option<State> {
    if accepted then Some(next) else None
  }

  /** The state after an event, or None if the event is not accepted. */
  function ApplyTo(s: State, event: Event): Option<State> {
    match event
    case AcceptPrivacy => When(s.stage.WelcomePrivacy?, s.(stage := ChooseMouse))
    case SelectPhysicalMouse => When(s.stage.ChooseMouse?, s.(problem := None, stage := CertificationReady))
    case BeginCertification =>
      When(s.stage.CertificationReady?, s.(attempts := Increment(s.attempts), stage := Certifying))
    case CertificationSucceeded => When(s.stage.Certifying?, s.(problem := None, stage := ConfigureSession))
    case CertificationFailed(problem) =>
      When(s.stage.Certifying?, s.(problem := Some(problem), stage := CertificationNeedsAction))
    case RetryCertification =>
      When(s.stage.CertificationNeedsAction?, s.(problem := None, stage := CertificationReady))
    case ChooseDifferentMouse =>
      When(s.stage.CertificationReady? || s.stage.CertificationNeedsAction?, s.(problem := None, stage := ChooseMouse))
    case SetSensitivity(value) =>
      if s.stage.ConfigureSession? && value.Some? && value.value > 0.0 then Some(s.(sensitivity := value)) else None
    case ChooseRunLength(length) => When(s.stage.ConfigureSession?, s.(runLength := Some(length)))
    case ConfirmConfiguration =>
      When(s.stage.ConfigureSession? && s.sensitivity.Some? && s.runLength.Some?, s.(stage := ReadyToStart))
    case EditConfiguration => When(s.stage.ReadyToStart?, s.(stage := ConfigureSession))
    case StartCapture => When(s.stage.ReadyToStart?, s.(stage := StartingCapture))
    case CaptureStarted => When(s.stage.StartingCapture?, s.(stage := Ready))
    case BeginCountdown => When(CanBeginCountdown(s), s.(stage := Countdown))
    case CountdownFinished => When(s.stage.Countdown?, s.(stage := Playing))
    case ManualPause =>
      When(s.stage.Playing? || s.stage.Countdown? || s.stage.ResumeCountdown?,
           s.(discarded := if s.stage.Playing? then Increment(s.discarded) else s.discarded,
              manuallyPaused := true, stage := Paused))
    case EnvironmentLost(blocker) =>
      if blocker.GameplayInput? && s.stage.Ready? then
        When(blocker !in s.blockers, s.(blockers := s.blockers + {blocker}))
      else PauseForBlocker(s, blocker)
    case EnvironmentRestored(blocker) =>
      if blocker.GameplayInput? && s.stage.Ready? && blocker in s.blockers then
        Some(s.(blockers := s.blockers - {blocker}))
      else ClearBlocker(s, blocker)
    case Resume => When(CanResume(s), s.(manuallyPaused := false, stage := ResumeCountdown))
    case ResumeCountdownFinished => When(s.stage.ResumeCountdown?, s.(stage := Playing))
    case AddOptionalWarning(warning) =>
      When(IsCapturing(s.stage), s.(warnings := AddWarning(s.warnings, warning)))
    case FinishSession =>
      When(IsGameplay(s.stage), s.(blockers := {}, manuallyPaused := false, stage := StoppingAndSaving))
    case SaveCompleted => When(s.stage.StoppingAndSaving?, s.(sendThis := true, stage := Complete))
    case PreservationEnded(outcome) =>
      When(s.stage.StoppingAndPreserving? && !outcome.NotRequired? && !outcome.Pending?,
           s.(prefix := outcome, sendThis := !outcome.PreservationFailed?, stage := Error))
    case DestructiveFailure(failure) =>
      When(IsCapturing(s.stage),
           s.(failure := Some(failure), prefix := Pending, blockers := {}, manuallyPaused := false,
              stage := StoppingAndPreserving))
    case Cancel => When(IsPreCapture(s.stage), s.(stage := Cancelled))
  }

  datatype Transition = Transition(accepted: bool, discardedActiveEvent: bool)

  class Flow {
    var state: State

    constructor ()
      ensures state == START
    {
      state := START;
    }

    /** Apply works on a copy of the state, so a rejected event leaves it as it was. */
    method Apply(event: Event) returns (result: Transition)
      modifies this
      ensures result.accepted <==> ApplyTo(old(state), event).Some?
      ensures state == (if result.accepted then ApplyTo(old(state), event).value else old(state))
      ensures result.discardedActiveEvent <==>
                result.accepted && old(state).stage.Playing? && state.stage.Paused?
    {
      hide ApplyTo;
      var before := state.discarded;
      var next := ApplyTo(state, event);
      if next.None? {
        return Transition(false, false);
      }
      DiscardedWhenPaused(state, event);
      state := next.value;
      return Transition(true, state.discarded != before);
    }
  }

  lemma DiscardedWhenPaused(s: State, event: Event)
    ensures var next := ApplyTo(s, event);
            next.Some? ==>
              next.value.discarded
                == if s.stage.Playing? && next.value.stage.Paused? then Increment(s.discarded) else s.discarded
  {
  }

  // ---------------------------------------------------------------------
  // Every reachable state
  // ---------------------------------------------------------------------

  function Next(s: State, event: Event): State {
    match ApplyTo(s, event)
    case None => s
    case Some(next) => next
  }

  /** The state after a sequence of events, accepted or not. */
  function After(events: seq<Event>): State {
    if events == [] then START else Next(After(events[..|events| - 1]), events[|events| - 1])
  }

  ghost predicate PauseHolds(s: State) {
    && (s.stage.Paused? <==> s.manuallyPaused || (s.blockers != {} && !s.stage.Ready?))
    && (s.stage.Ready? ==> s.blockers <= {GameplayInput} && !s.manuallyPaused)
    && (!s.stage.Paused? && !s.stage.Ready? ==> s.blockers == {} && !s.manuallyPaused)
  }

  ghost predicate EndHolds(s: State) {
    && (s.prefix.Pending? <==> s.stage.StoppingAndPreserving?)
    && (s.failure.Some? <==> s.stage.StoppingAndPreserving? || s.stage.Error?)
    && (s.prefix.NotRequired? <==> s.failure.None?)
    && (s.sendThis <==> s.stage.Complete? || (s.stage.Error? && !s.prefix.PreservationFailed?))
  }

  predicate AfterConfiguration(stage: Stage) {
    stage.ReadyToStart? || IsCapturing(stage) || stage.StoppingAndPreserving? || stage.Complete? || stage.Error?
  }

  ghost predicate SetupHolds(s: State) {
    && (s.problem.Some? ==> s.stage.CertificationNeedsAction? || s.stage.Cancelled?)
    && (s.stage.CertificationNeedsAction? ==> s.problem.Some?)
    && (s.sensitivity.Some? ==> s.sensitivity.value > 0.0)
    && (AfterConfiguration(s.stage) ==> s.sensitivity.Some? && s.runLength.Some?)
    && (IsPreCapture(s.stage) ==> s.warnings == [] && s.discarded == 0)
  }

  ghost predicate DistinctKinds(warnings: seq<Annotation>) {
    forall i, j :: 0 <= i < j < |warnings| ==> warnings[i].kind != warnings[j].kind
  }

  lemma {:induction false} AddWarningKinds(warnings: seq<Annotation>, warning: Warning)
    requires DistinctKinds(warnings)
    ensures var added := AddWarning(warnings, warning);
            && DistinctKinds(added)
            && (forall i :: 0 <= i < |added| ==>
                  added[i].kind == warning || exists j :: 0 <= j < |warnings| && warnings[j].kind == added[i].kind)
  {
    if warnings != [] && warnings[0].kind != warning {
      AddWarningKinds(warnings[1..], warning);
      var others := AddWarning(warnings[1..], warning);
      forall i | 0 <= i < |others|
        ensures others[i].kind != warnings[0].kind
        ensures others[i].kind == warning || exists j :: 0 <= j < |warnings| && warnings[j].kind == others[i].kind
      {
        if others[i].kind != warning {
          var j :| 0 <= j < |warnings[1..]| && warnings[1..][j].kind == others[i].kind;
          assert warnings[j + 1].kind == others[i].kind;
        }
      }
    } else if warnings != [] {
      var added := AddWarning(warnings, warning);
      forall i | 0 <= i < |added|
        ensures added[i].kind == warnings[i].kind
      {
        assert i > 0 ==> added[i] == warnings[1..][i - 1];
      }
    }
  }

  /** What every reachable state satisfies. */
  ghost predicate Sound(s: State) {
    PauseHolds(s) && EndHolds(s) && SetupHolds(s) && DistinctKinds(s.warnings)
  }

  lemma StepKeepsPauses(s: State, event: Event)
    requires PauseHolds(s) && ApplyTo(s, event).Some?
    ensures PauseHolds(ApplyTo(s, event).value)
  {
    hide AddWarning;
    if event.EnvironmentRestored? {
      assert s.blockers <= {GameplayInput} ==> s.blockers - {GameplayInput} == {};
    }
  }

  lemma StepKeepsEnds(s: State, event: Event)
    requires EndHolds(s) && ApplyTo(s, event).Some?
    ensures EndHolds(ApplyTo(s, event).value)
  {
    hide AddWarning;
  }

  lemma StepKeepsSetup(s: State, event: Event)
    requires SetupHolds(s) && ApplyTo(s, event).Some?
    ensures SetupHolds(ApplyTo(s, event).value)
  {
    hide AddWarning;
  }

  lemma StepIsSound(s: State, event: Event)
    requires Sound(s)
    ensures Sound(Next(s, event))
  {
    hide PauseHolds, EndHolds, SetupHolds, AddWarning, DistinctKinds;
    if ApplyTo(s, event).Some? {
      StepKeepsPauses(s, event);
      StepKeepsEnds(s, event);
      StepKeepsSetup(s, event);
      if event.AddOptionalWarning? {
        AddWarningKinds(s.warnings, event.warning);
      }
    }
  }

  lemma {:induction false} ReachableIsSound(events: seq<Event>)
    ensures Sound(After(events))
  {
    if events == [] {
      StartIsSound();
    } else {
      hide Next;
      ReachableIsSound(events[..|events| - 1]);
      StepIsSound(After(events[..|events| - 1]), events[|events| - 1]);
    }
  }

  lemma StartIsSound()
    ensures Sound(START)
  {
  }

  /** Once a session has ended nothing is accepted any more, and where it has not ended
      something is. */
  lemma TerminalIff(events: seq<Event>)
    ensures IsTerminal(After(events).stage) <==> forall event :: ApplyTo(After(events), event).None?
  {
    hide AddWarning;
    var s := After(events);
    var way := WayOn(s);
    if !IsTerminal(s.stage) {
      assert ApplyTo(s, way).Some?;
    }
  }

  /** An event that each unfinished stage accepts. */
  function WayOn(s: State): Event {
    if IsPreCapture(s.stage) then Cancel
    else if s.stage.StartingCapture? then CaptureStarted
    else if IsGameplay(s.stage) then FinishSession
    else if s.stage.StoppingAndSaving? then SaveCompleted
    else PreservationEnded(PreservationFailed)
  }

  // ---------------------------------------------------------------------
  // Whole runs
  // ---------------------------------------------------------------------

  /** How often the run went from Playing to Paused. */
  function Interruptions(events: seq<Event>): nat {
    if events == [] then 0
    else
      var before := After(events[..|events| - 1]);
      Interruptions(events[..|events| - 1])
        + (if before.stage.Playing? && After(events).stage.Paused? then 1 else 0)
  }

  lemma {:induction false} DiscardedCountsInterruptions(events: seq<Event>)
    ensures After(events).discarded == Interruptions(events) % 0x1_0000_0000
  {
    hide ApplyTo;
    if events != [] {
      var k := |events| - 1;
      DiscardedCountsInterruptions(events[..k]);
      DiscardedWhenPaused(After(events[..k]), events[k]);
    }
  }

  /** The events of a run that were accepted. */
  function AcceptedEvents(events: seq<Event>): seq<Event> {
    if events == [] then []
    else
      var k := |events| - 1;
      AcceptedEvents(events[..k]) + (if ApplyTo(After(events[..k]), events[k]).Some? then [events[k]] else [])
  }

  function WarningCount(events: seq<Event>, warning: Warning): nat {
    if events == [] then 0
    else
      var k := |events| - 1;
      WarningCount(events[..k], warning) + (if events[k] == AddOptionalWarning(warning) then 1 else 0)
  }

  function Occurrences(warnings: seq<Annotation>, warning: Warning): uint32 {
    if warnings == [] then 0
    else if warnings[0].kind == warning then warnings[0].occurrences
    else Occurrences(warnings[1..], warning)
  }

  lemma {:induction false} AddWarningCounts(warnings: seq<Annotation>, added: Warning, warning: Warning)
    ensures Occurrences(AddWarning(warnings, added), warning)
         == if added == warning then Increment(Occurrences(warnings, warning)) else Occurrences(warnings, warning)
  {
    if warnings != [] && warnings[0].kind != added {
      AddWarningCounts(warnings[1..], added, warning);
      assert AddWarning(warnings, added)[1..] == AddWarning(warnings[1..], added);
    } else if warnings != [] {
      assert AddWarning(warnings, added)[1..] == warnings[1..];
    } else {
      assert [Annotation(added, 1)][1..] == [];
    }
  }

  lemma StepWarnings(s: State, event: Event)
    requires ApplyTo(s, event).Some?
    ensures ApplyTo(s, event).value.warnings
         == if event.AddOptionalWarning? then AddWarning(s.warnings, event.warning) else s.warnings
  {
    hide AddWarning;
  }

  lemma WarningCountGrows(events: seq<Event>, event: Event, warning: Warning)
    ensures WarningCount(events + [event], warning)
         == WarningCount(events, warning) + (if event == AddOptionalWarning(warning) then 1 else 0)
  {
    assert (events + [event])[..|events|] == events;
  }

  /** Each kind of warning is counted as often as it was accepted. */
  lemma {:induction false} WarningsCounted(events: seq<Event>, warning: Warning)
    ensures Occurrences(After(events).warnings, warning)
         == WarningCount(AcceptedEvents(events), warning) % 0x1_0000_0000
  {
    hide AddWarning, Occurrences, ApplyTo, WarningCount;
    if events == [] {
      NoOccurrences(warning);
    } else {
      var k := |events| - 1;
      WarningsCounted(events[..k], warning);
      var before, accepted := After(events[..k]), AcceptedEvents(events[..k]);
      assert accepted + [] == accepted;
      WarningCountGrows(accepted, events[k], warning);
      if ApplyTo(before, events[k]).Some? {
        StepWarnings(before, events[k]);
        if events[k].AddOptionalWarning? {
          AddWarningCounts(before.warnings, events[k].warning, warning);
        }
      }
    }
  }

  lemma NoOccurrences(warning: Warning)
    ensures Occurrences([], warning) == 0 && WarningCount([], warning) == 0
  {
  }

  predicate AfterPrivacy(stage: Stage) {
    !stage.WelcomePrivacy? && !stage.Cancelled?
  }

  predicate AfterCertification(stage: Stage) {
    stage.ConfigureSession? || AfterConfiguration(stage)
  }

  predicate AfterStart(stage: Stage) {
    AfterConfiguration(stage) && !stage.ReadyToStart?
  }

  /** Nothing is captured without the participant's consent, a certified mouse and an
      explicit start: a run can be past each of these only if the event was accepted. */
  lemma {:induction false} ConsentComesFirst(events: seq<Event>)
    ensures var s, accepted := After(events), AcceptedEvents(events);
            && (AfterPrivacy(s.stage) ==> AcceptPrivacy in accepted)
            && (AfterCertification(s.stage) ==> CertificationSucceeded in accepted)
            && (AfterStart(s.stage) ==> StartCapture in accepted)
  {
    hide AddWarning;
    if events != [] {
      var k := |events| - 1;
      ConsentComesFirst(events[..k]);
      var before := After(events[..k]);
      if ApplyTo(before, events[k]).Some? {
        StageSteps(before, events[k]);
      }
    }
  }

  /** How each threshold is crossed. */
  lemma StageSteps(s: State, event: Event)
    requires ApplyTo(s, event).Some?
    ensures var stage := ApplyTo(s, event).value.stage;
            && (AfterPrivacy(stage) && !AfterPrivacy(s.stage) ==> event == AcceptPrivacy)
            && (AfterCertification(stage) && !AfterCertification(s.stage) ==> event == CertificationSucceeded)
            && (AfterStart(stage) && !AfterStart(s.stage) ==> event == StartCapture)
            && (AfterStart(s.stage) ==> AfterStart(stage))
  {
    hide AddWarning;
  }

  /** A capture that has begun is never silently dropped: from then on the run stays in the
      capture, in its saving or preserving, or in one of the two ends that follow these. */
  lemma {:induction false} NoWayBack(events: seq<Event>, n: nat)
    requires n <= |events| && AfterStart(After(events[..n]).stage)
    ensures AfterStart(After(events).stage)
    decreases |events|
  {
    hide ApplyTo;
    if n == |events| {
      assert events[..n] == events;
    } else {
      var k := |events| - 1;
      assert events[..k][..n] == events[..n];
      NoWayBack(events[..k], n);
      if ApplyTo(After(events[..k]), events[k]).Some? {
        StageSteps(After(events[..k]), events[k]);
      }
    }
  }
}
