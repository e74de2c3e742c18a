/**
 The race between the password prompt and the fingerprint (`first_success` and
 `cancel_pending` in `src/desktop.rs`), as a state machine over polls.
 */
module UnlockRace {
  import opened Wrappers

  datatype Attempt = Pin | Bio

  function Other(a: Attempt): Attempt {
    if a == Pin then Bio else Pin
  }

  /** A finished attempt has a password, or failed. */
  datatype Progress = Pending | Finished(password: Option<string>)

  datatype Exit = Password(password: string) | NeitherSucceeded | Cancelled

  datatype Phase =
    | Racing
    | Won(winner: Attempt, password: string) // waiting for the other attempt's cleanup
    | Stopping(attempt: Attempt) // cancelled: waiting for this attempt's cleanup
    | Exited(exit: Exit)

  /** What `first_success` knows of one attempt: its progress, its `done` flag, its stop sender. */
  datatype Side = Side(progress: Progress, done: bool, held: bool)

  datatype State = State(
    phase: Phase,
    pin: Side,
    bio: Side,
    signals: seq<Attempt>, // history of stop signals sent
    finished: seq<(Attempt, Option<string>)>) // history of attempts finishing, in order
  {
    function Of(a: Attempt): Side {
      if a == Pin then pin else bio
    }

    function With(a: Attempt, side: Side): State {
      if a == Pin then this.(pin := side) else this.(bio := side)
    }
  }

  const INITIAL := State(Racing, Side(Pending, false, true), Side(Pending, false, true), [], [])

  datatype Action =
    | Poll(attempt: Attempt, outcome: Progress)
    | Cancel
    | CleanupTimeout

  /** Which attempt the current await may poll, if any. */
  predicate MayPoll(s: State, a: Attempt) {
    match s.phase
    case Racing => !s.Of(a).done
    case Won(winner, _) => a == Other(winner) && !s.Of(a).done
    case Stopping(stopping) => a == stopping && !s.Of(a).done
    case Exited(_) => false
  }

  /** `sender.take()` and `send`: at most one signal per attempt. */
  function Signal(s: State, a: Attempt): State {
    if s.Of(a).held then s.With(a, s.Of(a).(held := false)).(signals := s.signals + [a]) else s
  }

  /** Signals an attempt and waits for it if it is pending. */
  function StopOther(s: State, winner: Attempt, password: string): State {
    var t := Signal(s, Other(winner));
    t.(phase := if t.Of(Other(winner)).done then Exited(Password(password)) else Won(winner, password))
  }

  function StopBio(s: State): State {
    var t := Signal(s, Bio);
    t.(phase := if t.Of(Bio).done then Exited(Cancelled) else Stopping(Bio))
  }

  function StopBoth(s: State): State {
    var t := Signal(s, Pin);
    if t.Of(Pin).done then StopBio(t) else t.(phase := Stopping(Pin))
  }

  /** The await on a stopped attempt ends: it finished, or its cleanup timed out. */
  function CleanupOver(s: State): State {
    match s.phase
    case Won(_, password) => s.(phase := Exited(Password(password)))
    case Stopping(Pin) => StopBio(s)
    case Stopping(Bio) => s.(phase := Exited(Cancelled))
    case _ => s
  }

  function Record(s: State, a: Attempt, password: Option<string>): State {
    s.With(a, s.Of(a).(progress := Finished(password))).(finished := s.finished + [(a, password)])
  }

  function OnFinished(s: State, a: Attempt, password: Option<string>): State {
    var t := Record(s, a, password);
    if s.phase != Racing then CleanupOver(t)
    else
      var u := t.With(a, t.Of(a).(done := true));
      match password
      case Some(text) => StopOther(u, a, text)
      case None => if u.Of(Pin).done && u.Of(Bio).done then u.(phase := Exited(NeitherSucceeded)) else u
  }

  function Step(s: State, action: Action): Option<State> {
    match action
    case Poll(a, outcome) =>
      if !MayPoll(s, a) then None
      else if outcome.Pending? then Some(s)
      else Some(OnFinished(s, a, outcome.password))
    case Cancel => if s.phase == Racing then Some(StopBoth(s)) else None
    case CleanupTimeout => if s.phase.Won? || s.phase.Stopping? then Some(CleanupOver(s)) else None
  }

  function Run(s: State, actions: seq<Action>): Option<State>
    decreases |actions|
  {
    if |actions| == 0 then Some(s)
    else
      match Step(s, actions[0])
      case None => None
      case Some(t) => Run(t, actions[1..])
  }

  /** The password of the first attempt that succeeded. */
  function FirstSuccess(finished: seq<(Attempt, Option<string>)>): Option<string> {
    if |finished| == 0 then None
    else if finished[0].1.Some? then finished[0].1
    else FirstSuccess(finished[1..])
  }

  lemma {:induction false} FirstSuccessOfSum(f: seq<(Attempt, Option<string>)>, g: seq<(Attempt, Option<string>)>)
    ensures FirstSuccess(f + g) == if FirstSuccess(f).Some? then FirstSuccess(f) else FirstSuccess(g)
  {
    if |f| == 0 {
      assert f + g == g;
    } else {
      FirstSuccessOfSum(f[1..], g);
      assert (f + g)[1..] == f[1..] + g;
    }
  }

  predicate Over(s: State, a: Attempt) {
    s.Of(a).progress.Finished? || a in s.signals
  }

  ghost predicate Inv(s: State) {
    SignalsFit(s) && ResultFits(s)
  }

  /** What is known of one attempt; in particular, a finished one is never polled again. */
  ghost predicate SideFits(s: State, a: Attempt) {
    && (MayPoll(s, a) ==> s.Of(a).progress.Pending?)
    && (s.Of(a).done ==> s.Of(a).progress.Finished?)
    && (s.Of(a).held <==> a !in s.signals)
  }

  ghost predicate SignalledOnce(signals: seq<Attempt>) {
    forall i, j :: 0 <= i < j < |signals| ==> signals[i] != signals[j]
  }

  ghost predicate SignalsFit(s: State) {
    && SideFits(s, Pin) && SideFits(s, Bio) && SignalledOnce(s.signals)
    && match s.phase {
         case Racing => s.signals == [] && !(s.pin.done && s.bio.done)
         case Won(_, _) => Over(s, Pin) && Over(s, Bio)
         case Stopping(Pin) => Over(s, Pin) && (s.bio.done || s.bio.progress.Pending?)
         case Stopping(Bio) => Over(s, Pin) && Over(s, Bio)
         case Exited(_) => Over(s, Pin) && Over(s, Bio)
       }
  }

  ghost predicate ResultFits(s: State) {
    match s.phase
    case Racing => FirstSuccess(s.finished).None?
    case Won(_, password) => FirstSuccess(s.finished) == Some(password)
    case Stopping(_) => true
    case Exited(Password(password)) => FirstSuccess(s.finished) == Some(password)
    case Exited(NeitherSucceeded) =>
      FirstSuccess(s.finished).None? && s.pin.progress.Finished? && s.bio.progress.Finished?
    case Exited(Cancelled) => true
  }

  lemma FinishKeepsSignals(s: State, a: Attempt, password: Option<string>)
    requires SignalsFit(s) && MayPoll(s, a)
    ensures SignalsFit(OnFinished(s, a, password))
  {
    hide FirstSuccess, ResultFits;
    assert a == Pin || a == Bio;
  }

  lemma FinishKeepsResult(s: State, a: Attempt, password: Option<string>)
    requires Inv(s) && MayPoll(s, a)
    ensures ResultFits(OnFinished(s, a, password))
  {
    hide SignalledOnce;
    FirstSuccessOfSum(s.finished, [(a, password)]);
    assert FirstSuccess([(a, password)]) == password by { assert [(a, password)][1..] == []; }
    hide FirstSuccess;
    assert OnFinished(s, a, password).finished == s.finished + [(a, password)];
  }

  lemma StepKeepsInv(s: State, action: Action)
    requires Inv(s) && Step(s, action).Some?
    ensures Inv(Step(s, action).value)
  {
    if action.Poll? && action.outcome.Finished? {
      FinishKeepsSignals(s, action.attempt, action.outcome.password);
      FinishKeepsResult(s, action.attempt, action.outcome.password);
    }
  }

  lemma {:induction false} RunKeepsInv(s: State, actions: seq<Action>)
    requires Inv(s) && Run(s, actions).Some?
    ensures Inv(Run(s, actions).value)
    decreases |actions|
  {
    if |actions| > 0 {
      StepKeepsInv(s, actions[0]);
      RunKeepsInv(Step(s, actions[0]).value, actions[1..]);
    }
  }

  /** In every state of every run: what may be polled is pending, and no stop signal is sent twice. */
  lemma NeverPollsFinished(actions: seq<Action>)
    requires Run(INITIAL, actions).Some?
    ensures var s := Run(INITIAL, actions).value;
            && (forall a: Attempt :: MayPoll(s, a) ==> s.Of(a).progress.Pending?)
            && (forall i, j :: 0 <= i < j < |s.signals| ==> s.signals[i] != s.signals[j])
  {
    assert Inv(INITIAL);
    RunKeepsInv(INITIAL, actions);
  }

  predicate IsCancelled(s: State) {
    s.phase.Stopping? || s.phase == Exited(Cancelled)
  }

  lemma StepCancels(s: State, action: Action)
    requires Step(s, action).Some?
    ensures IsCancelled(Step(s, action).value) <==> IsCancelled(s) || action == Cancel
  {
  }

  /** A run ends cancelled, or is about to, exactly if it was cancelled at some step. */
  lemma {:induction false} RunCancels(s: State, actions: seq<Action>)
    requires Run(s, actions).Some?
    ensures IsCancelled(Run(s, actions).value) <==> IsCancelled(s) || Cancel in actions
    decreases |actions|
  {
    hide Step, IsCancelled;
    if |actions| > 0 {
      StepCancels(s, actions[0]);
      RunCancels(Step(s, actions[0]).value, actions[1..]);
      assert Cancel in actions <==> actions[0] == Cancel || Cancel in actions[1..];
    }
  }

  /**
   On every exit each attempt is finished or was signalled to stop, and a
   password is returned exactly when it is the first success and the race was
   not cancelled.
   */
  lemma ExitIsClean(actions: seq<Action>)
    requires Run(INITIAL, actions).Some? && Run(INITIAL, actions).value.phase.Exited?
    ensures var s := Run(INITIAL, actions).value;
            && (forall a: Attempt :: Over(s, a))
            && (forall password ::
                  s.phase.exit == Password(password)
                  <==> Cancel !in actions && FirstSuccess(s.finished) == Some(password))
            && (s.phase.exit == Cancelled <==> Cancel in actions)
            && (s.phase.exit == NeitherSucceeded ==> forall a: Attempt :: s.Of(a).progress.Finished?)
  {
    assert Inv(INITIAL);
    RunKeepsInv(INITIAL, actions);
    RunCancels(INITIAL, actions);
  }

  // ---- who is polled, signalled and awaited ----------------------------------------------

  /** Exactly which signals were sent, and which attempts are still to be polled. */
  ghost predicate SentFits(s: State) {
    && (s.pin.held <==> Pin !in s.signals) && (s.bio.held <==> Bio !in s.signals)
    && match s.phase
       case Racing =>
         && s.signals == [] && !(s.pin.done && s.bio.done)
         && (s.pin.done <==> s.pin.progress.Finished?) && (s.bio.done <==> s.bio.progress.Finished?)
       case Won(winner, password) =>
         && s.signals == [Other(winner)] && s.Of(winner).progress == Finished(Some(password))
         && !s.Of(Other(winner)).done
       case Stopping(Pin) => s.signals == [Pin] && !s.pin.done
       case Stopping(Bio) => s.signals == [Pin, Bio] && !s.bio.done
       case Exited(Password(password)) =>
         && (s.signals == [Pin] || s.signals == [Bio])
         && s.Of(Other(s.signals[0])).progress == Finished(Some(password))
       case Exited(NeitherSucceeded) => s.signals == []
       case Exited(Cancelled) => s.signals == [Pin, Bio]
  }

  lemma FinishKeepsSent(s: State, a: Attempt, password: Option<string>)
    requires SentFits(s) && MayPoll(s, a)
    ensures SentFits(OnFinished(s, a, password))
  {
  }

  lemma StepKeepsSent(s: State, action: Action)
    requires SentFits(s) && Step(s, action).Some?
    ensures SentFits(Step(s, action).value)
  {
    if action.Poll? && action.outcome.Finished? {
      FinishKeepsSent(s, action.attempt, action.outcome.password);
      hide OnFinished;
    }
  }

  lemma {:induction false} RunKeepsSent(s: State, actions: seq<Action>)
    requires SentFits(s) && Run(s, actions).Some?
    ensures SentFits(Run(s, actions).value)
    decreases |actions|
  {
    hide SentFits, Step;
    if |actions| > 0 {
      StepKeepsSent(s, actions[0]);
      RunKeepsSent(Step(s, actions[0]).value, actions[1..]);
    }
  }

  /**
   In every state of every run: while both race, exactly the attempts that are not
   finished may be polled, and there is one; then exactly the one whose cleanup is awaited.
   */
  lemma PollsExactly(actions: seq<Action>, a: Attempt)
    requires Run(INITIAL, actions).Some?
    ensures var s := Run(INITIAL, actions).value;
            match s.phase
            case Racing => (MayPoll(s, a) <==> s.Of(a).progress.Pending?) && (MayPoll(s, Pin) || MayPoll(s, Bio))
            case Won(winner, _) => MayPoll(s, a) <==> a != winner
            case Stopping(stopping) => MayPoll(s, a) <==> a == stopping
            case Exited(_) => !MayPoll(s, a)
  {
    RunKeepsSent(INITIAL, actions);
  }

  /** On every exit exactly the loser was signalled to stop, or both if cancelled, or neither if both had failed. */
  lemma SignalsExactly(actions: seq<Action>)
    requires Run(INITIAL, actions).Some? && Run(INITIAL, actions).value.phase.Exited?
    ensures var s := Run(INITIAL, actions).value;
            match s.phase.exit
            case Password(password) =>
              exists winner :: s.signals == [Other(winner)] && s.Of(winner).progress == Finished(Some(password))
            case NeitherSucceeded => s.signals == []
            case Cancelled => s.signals == [Pin, Bio]
  {
    RunKeepsSent(INITIAL, actions);
    var s := Run(INITIAL, actions).value;
    if s.phase.exit.Password? { assert s.signals == [Other(Other(s.signals[0]))]; }
  }

  /** Without a cleanup that timed out, whoever is no longer awaited is finished. */
  ghost predicate AwaitedFits(s: State) {
    match s.phase
    case Racing => true
    case Won(winner, _) => s.Of(winner).progress.Finished?
    case Stopping(Pin) => s.bio.done ==> s.bio.progress.Finished?
    case Stopping(Bio) => s.pin.progress.Finished?
    case Exited(_) => s.pin.progress.Finished? && s.bio.progress.Finished?
  }

  lemma StepKeepsAwaited(s: State, action: Action)
    requires Inv(s) && AwaitedFits(s) && Step(s, action).Some? && action != CleanupTimeout
    ensures AwaitedFits(Step(s, action).value)
  {
    hide FirstSuccess, SignalledOnce;
  }

  lemma {:induction false} RunKeepsAwaited(s: State, actions: seq<Action>)
    requires Inv(s) && AwaitedFits(s) && Run(s, actions).Some? && CleanupTimeout !in actions
    ensures AwaitedFits(Run(s, actions).value)
    decreases |actions|
  {
    hide Inv, AwaitedFits, Step;
    if |actions| > 0 {
      StepKeepsAwaited(s, actions[0]);
      StepKeepsInv(s, actions[0]);
      RunKeepsAwaited(Step(s, actions[0]).value, actions[1..]);
    }
  }

  /** The race returns only once both attempts are finished, unless a cleanup ran out of its time. */
  lemma ExitWaits(actions: seq<Action>, a: Attempt)
    requires Run(INITIAL, actions).Some? && Run(INITIAL, actions).value.phase.Exited?
    ensures Run(INITIAL, actions).value.Of(a).progress.Finished? || CleanupTimeout in actions
  {
    assert Inv(INITIAL);
    if CleanupTimeout !in actions { RunKeepsAwaited(INITIAL, actions); }
  }

  // ---- the race goes on, and ends ------------------------------------------------------------

  /** In every state of every run: who may finish, and when a cancellation and a cleanup's timeout are heeded. */
  lemma GoesOn(actions: seq<Action>, a: Attempt, password: Option<string>)
    requires Run(INITIAL, actions).Some?
    ensures var s := Run(INITIAL, actions).value;
            && (Step(s, Poll(a, Pending)).Some? ==> Step(s, Poll(a, Pending)) == Some(s))
            && (Step(s, Poll(a, Finished(password))).Some?
                <==> || (s.phase.Racing? && s.Of(a).progress.Pending?)
                     || (s.phase.Won? && a != s.phase.winner)
                     || s.phase == Stopping(a))
            && (Step(s, Poll(a, Pending)).Some? <==> Step(s, Poll(a, Finished(password))).Some?)
            && (Step(s, Cancel).Some? <==> s.phase.Racing?)
            && (Step(s, CleanupTimeout).Some? <==> s.phase.Won? || s.phase.Stopping?)
  {
    PollsExactly(actions, a);
    hide Run;
  }

  /** How many more steps the race can take. */
  function Rank(s: State): nat {
    match s.phase
    case Racing => 1 + (if s.pin.done then 0 else 1) + (if s.bio.done then 0 else 1)
    case Won(_, _) => 1
    case Stopping(Pin) => if s.bio.done then 1 else 2
    case Stopping(Bio) => 1
    case Exited(_) => 0
  }

  /** The steps that are not polls in vain. */
  function Moves(actions: seq<Action>): nat {
    if |actions| == 0 then 0
    else (if actions[0].Poll? && actions[0].outcome.Pending? then 0 else 1) + Moves(actions[1..])
  }

  lemma StepLowersRank(s: State, action: Action)
    requires SentFits(s) && Step(s, action).Some?
    ensures Rank(Step(s, action).value) + Moves([action]) <= Rank(s)
  {
    assert [action][1..] == [];
  }

  lemma {:induction false} RunLowersRank(s: State, actions: seq<Action>)
    requires SentFits(s) && Run(s, actions).Some?
    ensures Rank(Run(s, actions).value) + Moves(actions) <= Rank(s)
    decreases |actions|
  {
    hide SentFits, Step, Rank;
    if |actions| > 0 {
      StepKeepsSent(s, actions[0]);
      StepLowersRank(s, actions[0]);
      assert [actions[0]][1..] == [];
      RunLowersRank(Step(s, actions[0]).value, actions[1..]);
    }
  }

  /** Whatever happens, the race is over after three steps that are not polls in vain. */
  lemma EndsSoon(actions: seq<Action>)
    requires Run(INITIAL, actions).Some?
    ensures Moves(actions) <= 3
    ensures Moves(actions) == 3 ==> Run(INITIAL, actions).value.phase.Exited?
  {
    RunLowersRank(INITIAL, actions);
    hide Run, Moves;
  }
}
