/** A session told by its history: which events are taken when, and how every part of the state
    follows from the events taken so far (src/app/ParticipantFlow.cpp). */
module ParticipantHistory {
  import opened Machine
  import opened ParticipantFlow

  // ---------------------------------------------------------------------
  // Which events are taken
  // ---------------------------------------------------------------------

  /** The stages in which an event can be taken at all. */
  function StagesFor(event: Event): set<Stage> {
    match event
    case AcceptPrivacy => {WelcomePrivacy}
    case SelectPhysicalMouse => {ChooseMouse}
    case BeginCertification => {CertificationReady}
    case CertificationSucceeded => {Certifying}
    case CertificationFailed(_) => {Certifying}
    case RetryCertification => {CertificationNeedsAction}
    case ChooseDifferentMouse => {CertificationReady, CertificationNeedsAction}
    case SetSensitivity(_) => {ConfigureSession}
    case ChooseRunLength(_) => {ConfigureSession}
    case ConfirmConfiguration => {ConfigureSession}
    case EditConfiguration => {ReadyToStart}
    case StartCapture => {ReadyToStart}
    case CaptureStarted => {StartingCapture}
    case BeginCountdown => {Ready}
    case CountdownFinished => {Countdown}
    case ManualPause => {Countdown, Playing, ResumeCountdown}
    case EnvironmentLost(blocker) =>
      {Countdown, Playing, Paused, ResumeCountdown} + (if blocker == GameplayInput then {Ready} else {})
    case EnvironmentRestored(blocker) => {Paused} + (if blocker == GameplayInput then {Ready} else {})
    case Resume => {Paused}
    case ResumeCountdownFinished => {ResumeCountdown}
    case AddOptionalWarning(_) => Captures()
    case FinishSession => {Ready, Countdown, Playing, Paused, ResumeCountdown}
    case SaveCompleted => {StoppingAndSaving}
    case PreservationEnded(_) => {StoppingAndPreserving}
    case DestructiveFailure(_) => Captures()
    case Cancel =>
      {WelcomePrivacy, ChooseMouse, CertificationReady, Certifying, CertificationNeedsAction, ConfigureSession,
       ReadyToStart}
  }

  function Captures(): set<Stage> {
    {StartingCapture, Ready, Countdown, Playing, Paused, ResumeCountdown, StoppingAndSaving}
  }

  /** What an event asks for besides its stage. */
  predicate Admitted(s: State, event: Event) {
    match event
    case SetSensitivity(value) => value.Some? && value.value > 0.0
    case ConfirmConfiguration => s.sensitivity.Some? && s.runLength.Some?
    case BeginCountdown => s.blockers == {}
    case Resume => s.blockers == {}
    case EnvironmentLost(blocker) => s.stage == Ready ==> blocker !in s.blockers
    case EnvironmentRestored(blocker) => blocker in s.blockers
    case PreservationEnded(outcome) => outcome != NotRequired && outcome != Pending
    case _ => true
  }

  lemma TakenIff(s: State, event: Event)
    ensures ApplyTo(s, event).Some? <==> s.stage in StagesFor(event) && Admitted(s, event)
  {
    hide AddWarning;
  }

  // ---------------------------------------------------------------------
  // What the events taken say
  // ---------------------------------------------------------------------

  /** What the last event that speaks of something says of it. */
  function Latest<T>(taken: seq<Event>, says: Event -> Option<T>, start: T): T {
    if taken == [] then start
    else
      var k := |taken| - 1;
      if says(taken[k]).Some? then says(taken[k]).value else Latest(taken[..k], says, start)
  }

  function OfSensitivity(event: Event): Option<Option<real>> {
    match event
    case SetSensitivity(value) => Some(value)
    case _ => None
  }

  function OfRunLength(event: Event): Option<Option<RunLength>> {
    match event
    case ChooseRunLength(length) => Some(Some(length))
    case _ => None
  }

  /** A problem is forgotten when a mouse is chosen, tried again or certified. */
  function OfProblem(event: Event): Option<Option<Problem>> {
    match event
    case CertificationFailed(problem) => Some(Some(problem))
    case SelectPhysicalMouse => Some(None)
    case CertificationSucceeded => Some(None)
    case RetryCertification => Some(None)
    case ChooseDifferentMouse => Some(None)
    case _ => None
  }

  function OfFailure(event: Event): Option<Option<Failure>> {
    match event
    case DestructiveFailure(failure) => Some(Some(failure))
    case _ => None
  }

  function OfPrefix(event: Event): Option<Prefix> {
    match event
    case DestructiveFailure(_) => Some(Pending)
    case PreservationEnded(outcome) => Some(outcome)
    case _ => None
  }

  /** The session file can be sent after a save, and after a preservation that did not fail. */
  function OfSending(event: Event): Option<bool> {
    match event
    case SaveCompleted => Some(true)
    case PreservationEnded(outcome) => Some(outcome != PreservationFailed)
    case _ => None
  }

  function OfManualPause(event: Event): Option<bool> {
    match event
    case ManualPause => Some(true)
    case Resume => Some(false)
    case FinishSession => Some(false)
    case DestructiveFailure(_) => Some(false)
    case _ => None
  }

  function OfBlocker(blocker: Blocker): Event -> Option<bool> {
    (event: Event) =>
      if event == EnvironmentLost(blocker) then Some(true)
      else if event == EnvironmentRestored(blocker) || event == FinishSession || event.DestructiveFailure? then
        Some(false)
      else None
  }

  function Blocked(taken: seq<Event>): set<Blocker> {
    set b: Blocker | b in {Focus, Minimized, Display, GameplayInput} && Latest(taken, OfBlocker(b), false)
  }

  /** The stage an event leads to. None leaves the stage as it is; the environment's events are
      not among these. */
  function Destination(event: Event): Option<Stage> {
    match event
    case AcceptPrivacy => Some(ChooseMouse)
    case SelectPhysicalMouse => Some(CertificationReady)
    case BeginCertification => Some(Certifying)
    case CertificationSucceeded => Some(ConfigureSession)
    case CertificationFailed(_) => Some(CertificationNeedsAction)
    case RetryCertification => Some(CertificationReady)
    case ChooseDifferentMouse => Some(ChooseMouse)
    case ConfirmConfiguration => Some(ReadyToStart)
    case EditConfiguration => Some(ConfigureSession)
    case StartCapture => Some(StartingCapture)
    case CaptureStarted => Some(Ready)
    case BeginCountdown => Some(Countdown)
    case CountdownFinished => Some(Playing)
    case ManualPause => Some(Paused)
    case Resume => Some(ResumeCountdown)
    case ResumeCountdownFinished => Some(Playing)
    case FinishSession => Some(StoppingAndSaving)
    case SaveCompleted => Some(Complete)
    case PreservationEnded(_) => Some(Error)
    case DestructiveFailure(_) => Some(StoppingAndPreserving)
    case Cancel => Some(Cancelled)
    case _ => None
  }

  /** The stage that a history leads to. What the environment does leaves a session that is Ready
      there; otherwise a loss pauses it, and the last recovery starts the resume countdown
      unless the participant has paused, too. */
  function StageOf(taken: seq<Event>): Stage {
    if taken == [] then WelcomePrivacy
    else
      var k := |taken| - 1;
      var before := StageOf(taken[..k]);
      if Destination(taken[k]).Some? then Destination(taken[k]).value
      else if taken[k].EnvironmentLost? && before != Ready then Paused
      else if taken[k].EnvironmentRestored? && before != Ready
              && Blocked(taken) == {} && !Latest(taken, OfManualPause, false) then ResumeCountdown
      else before
  }

  function Times(taken: seq<Event>, event: Event): nat {
    if taken == [] then 0
    else Times(taken[..|taken| - 1], event) + (if taken[|taken| - 1] == event then 1 else 0)
  }

  // ---------------------------------------------------------------------
  // The state follows from the history
  // ---------------------------------------------------------------------

  ghost predicate SetupTold(s: State, taken: seq<Event>) {
    && s.sensitivity == Latest(taken, OfSensitivity, None)
    && s.runLength == Latest(taken, OfRunLength, None)
    && s.problem == Latest(taken, OfProblem, None)
    && s.attempts == Times(taken, BeginCertification) % 0x1_0000_0000
  }

  ghost predicate EndTold(s: State, taken: seq<Event>) {
    && s.failure == Latest(taken, OfFailure, None)
    && s.prefix == Latest(taken, OfPrefix, NotRequired)
    && s.sendThis == Latest(taken, OfSending, false)
  }

  ghost predicate PausesTold(s: State, taken: seq<Event>) {
    && (forall b :: b in s.blockers <==> Latest(taken, OfBlocker(b), false))
    && s.manuallyPaused == Latest(taken, OfManualPause, false)
    && s.stage == StageOf(taken)
  }

  lemma LatestOfNext<T>(taken: seq<Event>, event: Event, says: Event -> Option<T>, start: T)
    ensures Latest(taken + [event], says, start)
         == if says(event).Some? then says(event).value else Latest(taken, says, start)
  {
    assert (taken + [event])[..|taken|] == taken;
  }

  lemma TimesOfNext(taken: seq<Event>, event: Event, counted: Event)
    ensures Times(taken + [event], counted) == Times(taken, counted) + (if event == counted then 1 else 0)
  {
    assert (taken + [event])[..|taken|] == taken;
  }

  lemma SetupStep(s: State, event: Event, taken: seq<Event>)
    requires SetupTold(s, taken) && ApplyTo(s, event).Some?
    ensures SetupTold(ApplyTo(s, event).value, taken + [event])
  {
    hide AddWarning, Latest, Times;
    LatestOfNext(taken, event, OfSensitivity, None);
    LatestOfNext(taken, event, OfRunLength, None);
    LatestOfNext(taken, event, OfProblem, None);
    TimesOfNext(taken, event, BeginCertification);
  }

  lemma EndStep(s: State, event: Event, taken: seq<Event>)
    requires EndTold(s, taken) && ApplyTo(s, event).Some?
    ensures EndTold(ApplyTo(s, event).value, taken + [event])
  {
    hide AddWarning, Latest;
    LatestOfNext(taken, event, OfFailure, None);
    LatestOfNext(taken, event, OfPrefix, NotRequired);
    LatestOfNext(taken, event, OfSending, false);
  }

  lemma BlockersTold(s: State, taken: seq<Event>)
    requires forall b :: b in s.blockers <==> Latest(taken, OfBlocker(b), false)
    ensures Blocked(taken) == s.blockers
  {
    hide Latest, OfBlocker;
    forall b
      ensures b in Blocked(taken) <==> b in s.blockers
    {
      assert b == Focus || b == Minimized || b == Display || b == GameplayInput;
    }
  }

  lemma StageOfNext(taken: seq<Event>, event: Event)
    ensures StageOf(taken + [event])
         == (if Destination(event).Some? then Destination(event).value
             else if event.EnvironmentLost? && StageOf(taken) != Ready then Paused
             else if event.EnvironmentRestored? && StageOf(taken) != Ready
                     && Blocked(taken + [event]) == {} && !Latest(taken + [event], OfManualPause, false)
             then ResumeCountdown
             else StageOf(taken))
  {
    hide Blocked, Latest;
    assert (taken + [event])[..|taken|] == taken;
  }

  lemma BlockersAfter(s: State, event: Event)
    requires ApplyTo(s, event).Some?
    ensures ApplyTo(s, event).value.blockers
         == (if event.EnvironmentLost? then s.blockers + {event.blocker}
             else if event.EnvironmentRestored? then s.blockers - {event.blocker}
             else if event.FinishSession? || event.DestructiveFailure? then {}
             else s.blockers)
  {
    hide AddWarning;
  }

  lemma BlockersStep(s: State, event: Event, taken: seq<Event>, b: Blocker)
    requires ApplyTo(s, event).Some?
    requires b in s.blockers <==> Latest(taken, OfBlocker(b), false)
    ensures b in ApplyTo(s, event).value.blockers <==> Latest(taken + [event], OfBlocker(b), false)
  {
    hide ApplyTo, Latest;
    BlockersAfter(s, event);
    LatestOfNext(taken, event, OfBlocker(b), false);
  }

  lemma ManualStep(s: State, event: Event, taken: seq<Event>)
    requires ApplyTo(s, event).Some? && s.manuallyPaused == Latest(taken, OfManualPause, false)
    ensures ApplyTo(s, event).value.manuallyPaused == Latest(taken + [event], OfManualPause, false)
  {
    hide AddWarning, Latest;
    LatestOfNext(taken, event, OfManualPause, false);
  }

  lemma StageStep(s: State, event: Event, taken: seq<Event>)
    requires ApplyTo(s, event).Some? && s.stage == StageOf(taken)
    requires Blocked(taken + [event]) == ApplyTo(s, event).value.blockers
    requires ApplyTo(s, event).value.manuallyPaused == Latest(taken + [event], OfManualPause, false)
    ensures ApplyTo(s, event).value.stage == StageOf(taken + [event])
  {
    hide AddWarning, Latest, Blocked, StageOf;
    StageOfNext(taken, event);
  }

  lemma PausesStep(s: State, event: Event, taken: seq<Event>)
    requires PausesTold(s, taken) && ApplyTo(s, event).Some?
    ensures PausesTold(ApplyTo(s, event).value, taken + [event])
  {
    hide ApplyTo, Latest, Blocked, StageOf, OfBlocker, OfManualPause;
    forall b
      ensures b in ApplyTo(s, event).value.blockers <==> Latest(taken + [event], OfBlocker(b), false)
    {
      BlockersStep(s, event, taken, b);
    }
    ManualStep(s, event, taken);
    BlockersTold(ApplyTo(s, event).value, taken + [event]);
    StageStep(s, event, taken);
  }

  /** The whole state but its warnings and its interruptions, which have their own theorems,
      follows from the events that were taken. */
  lemma {:induction false} HistoryTells(events: seq<Event>)
    ensures var s, taken := After(events), AcceptedEvents(events);
            SetupTold(s, taken) && EndTold(s, taken) && PausesTold(s, taken)
  {
    hide ApplyTo, SetupTold, EndTold, PausesTold;
    if events == [] {
      NothingTold();
    } else {
      var k := |events| - 1;
      HistoryTells(events[..k]);
      var before, taken := After(events[..k]), AcceptedEvents(events[..k]);
      assert taken + [] == taken;
      if ApplyTo(before, events[k]).Some? {
        SetupStep(before, events[k], taken);
        EndStep(before, events[k], taken);
        PausesStep(before, events[k], taken);
      }
    }
  }

  lemma NothingTold()
    ensures SetupTold(START, []) && EndTold(START, []) && PausesTold(START, [])
  {
  }
}
