/**
 The fingerprint protocol (`verify` and `fingerprint_with_feedback` in
 `src/desktop.rs`) as a state machine over its awaits.

 A D-Bus call is issued, handled by the device some time later and in order, and
 only then answered; the scan can be interrupted (deadline or cancellation) at
 any await, which drops the answer but not the call. Notifications and progress
 reports change none of this state and are not part of this model.
 */
module Fingerprint {
  import opened Wrappers

  datatype Call = Claim | VerifyStart | VerifyStop | Release

  datatype ScanOutcome = Match | NoMatch | Retry

  const RETRIES := {
    "verify-retry-scan", "verify-swipe-too-short", "verify-finger-not-centered",
    "verify-remove-and-retry", "verify-too-fast"}

  function Outcome(status: string, done: bool): Result<ScanOutcome, ()> {
    if status == "verify-match" && done then Ok(Match)
    else if status == "verify-no-match" && done then Ok(NoMatch)
    else if status in RETRIES && !done then Ok(Retry)
    else Err(())
  }

  /** The three outcomes, each by its own statuses; anything else ends the verification. */
  lemma OutcomeExactly(status: string, done: bool)
    ensures Outcome(status, done) == Ok(Match) <==> (status, done) == ("verify-match", true)
    ensures Outcome(status, done) == Ok(NoMatch) <==> (status, done) == ("verify-no-match", true)
    ensures Outcome(status, done) == Ok(Retry) <==>
              && !done
              && (|| status == "verify-retry-scan" || status == "verify-swipe-too-short"
                  || status == "verify-finger-not-centered" || status == "verify-remove-and-retry"
                  || status == "verify-too-fast")
  {
    assert "verify-match"[7] != "verify-no-match"[7];
  }

  /** Where the client waits. The last three phases are the cleanup and the return. */
  datatype Phase =
    | Claiming
    | Subscribing
    | Starting
    | Scanning
    | Stopping
    | CleanStop
    | CleanRelease
    | Returned

  datatype State = State(
    phase: Phase,
    attempt: nat,
    issued: bool, // the call of this phase is on its way
    reply: Option<bool>,
    claimed: bool,
    started: bool,
    verified: bool, // the result of `verify`
    stopped: bool,
    released: bool,
    queue: seq<Call>, // issued, not yet handled by the device
    deviceClaimed: bool,
    deviceVerifying: bool,
    calls: seq<Call>, // history of calls issued
    statuses: seq<(string, bool)>) // history of status signals received

  const INITIAL :=
    State(Claiming, 0, false, None, false, false, false, true, true, [], false, false, [], [])

  datatype Action =
    | Issue
    | Device(ok: bool)
    | Answered
    | Subscribed(ok: bool)
    | Status(status: string, done: bool)
    | FingerSelected
    | StreamEnded
    | Interrupt
    | CleanupTimeout

  function CallOf(phase: Phase): Option<Call> {
    match phase
    case Claiming => Some(Claim)
    case Starting => Some(VerifyStart)
    case Stopping | CleanStop => Some(VerifyStop)
    case CleanRelease => Some(Release)
    case _ => None
  }

  predicate InVerify(phase: Phase) {
    phase.Claiming? || phase.Subscribing? || phase.Starting? || phase.Scanning? || phase.Stopping?
  }

  function GoTo(s: State, phase: Phase): State {
    s.(phase := phase, issued := false, reply := None)
  }

  function AfterStop(s: State): State {
    GoTo(s, if s.claimed then CleanRelease else Returned)
  }

  /** `verify` is over, by returning or by being dropped: stop if started, then release if claimed. */
  function Finish(s: State, verified: bool): State {
    var t := s.(verified := verified);
    if t.started then GoTo(t, CleanStop) else AfterStop(t)
  }

  function OnReply(s: State, ok: bool): State {
    match s.phase
    case Claiming => if ok then GoTo(s.(claimed := true), Subscribing) else Finish(s, false)
    case Starting => if ok then GoTo(s, Scanning) else Finish(s, false)
    case Stopping =>
      if !ok then Finish(s, false)
      else
        var t := s.(started := false);
        if t.attempt == 2 then Finish(t, false) else GoTo(t.(attempt := t.attempt + 1), Subscribing)
    case CleanStop => AfterStop(s.(stopped := ok))
    case CleanRelease => GoTo(s.(released := ok), Returned)
    case _ => s
  }

  function OnStatus(s: State, status: string, done: bool): State {
    var t := s.(statuses := s.statuses + [(status, done)]);
    match Outcome(status, done)
    case Ok(Match) => Finish(t, true)
    case Ok(Retry) => t
    case Ok(NoMatch) => GoTo(t, Stopping)
    case Err(_) => Finish(t, false)
  }

  /** The device handles the oldest call; the answer is seen if the client still waits for that call. */
  function OnDevice(s: State, ok: bool): State
    requires s.queue != []
  {
    var call, rest := s.queue[0], s.queue[1..];
    s.(
    queue := rest,
    reply := if rest == [] && s.issued then Some(ok) else s.reply,
    deviceClaimed := if ok && call == Claim then true else if ok && call == Release then false else s.deviceClaimed,
    deviceVerifying :=
      if ok && call == VerifyStart then true
      else if ok && (call == VerifyStop || call == Release) then false
      else s.deviceVerifying)
  }

  /** The state after an action, or none when the action is not possible. */
  function Step(s: State, a: Action): Option<State> {
    match a
    case Issue =>
      if CallOf(s.phase).Some? && !s.issued then
        var call := CallOf(s.phase).value;
        Some(s.(issued := true, queue := s.queue + [call], calls := s.calls + [call]))
      else None
    case Device(ok) => if s.queue != [] then Some(OnDevice(s, ok)) else None
    case Answered => if s.reply.Some? then Some(OnReply(s, s.reply.value)) else None
    case Subscribed(ok) =>
      if s.phase != Subscribing then None
      else Some(if ok then GoTo(s.(started := true), Starting) else Finish(s, false))
    case Status(status, done) => if s.phase == Scanning then Some(OnStatus(s, status, done)) else None
    case FingerSelected => if s.phase == Scanning then Some(s) else None
    case StreamEnded => if s.phase == Scanning then Some(Finish(s, false)) else None
    case Interrupt => if InVerify(s.phase) then Some(Finish(s, false)) else None
    case CleanupTimeout =>
      if s.phase == CleanStop && s.issued then Some(AfterStop(s.(stopped := false)))
      else if s.phase == CleanRelease && s.issued then Some(GoTo(s.(released := false), Returned))
      else None
  }

  function Run(s: State, actions: seq<Action>): Option<State>
    decreases |actions|
  {
    if |actions| == 0 then Some(s)
    else
      match Step(s, actions[0])
      case None => None
      case Some(t) => Run(t, actions[1..])
  }

  // ---- what every run keeps --------------------------------------------------------

  function Rounds(k: nat): seq<Call> {
    if k == 0 then [] else Rounds(k - 1) + [VerifyStart, VerifyStop]
  }

  /** The calls of `verify`: nothing, a claim, then full rounds and perhaps an open one, three starts in all. */
  ghost predicate VerifyCalls(calls: seq<Call>) {
    || calls == []
    || (exists k: nat :: k <= 3 && calls == [Claim] + Rounds(k))
    || (exists k: nat :: k < 3 && calls == [Claim] + Rounds(k) + [VerifyStart])
  }

  /** The calls issued so far, phase by phase. */
  ghost predicate CallsFit(s: State) {
    var scan := [Claim] + Rounds(s.attempt);
    match s.phase
    case Claiming => s.attempt == 0 && s.calls == if s.issued then [Claim] else []
    case Subscribing => s.attempt < 3 && s.calls == scan
    case Starting => s.attempt < 3 && s.calls == if s.issued then scan + [VerifyStart] else scan
    case Scanning => s.attempt < 3 && s.calls == scan + [VerifyStart]
    case Stopping => s.attempt < 3 && s.calls == scan + if s.issued then [VerifyStart, VerifyStop] else [VerifyStart]
    case CleanStop => CleanedUp(s.calls, s.issued, false)
    case CleanRelease => CleanedUp(s.calls, s.started, s.issued)
    case Returned => CleanedUp(s.calls, s.started, s.claimed)
  }

  /** The calls of `verify`, then the cleanup calls. */
  ghost predicate CleanedUp(calls: seq<Call>, stop: bool, release: bool) {
    exists verify: seq<Call> ::
      VerifyCalls(verify) && calls == verify + (if stop then [VerifyStop] else []) + (if release then [Release] else [])
  }

  /** What the flags, the queue and the device say about each other. */
  ghost predicate FlagsFit(s: State) {
    && (s.phase.Claiming? ==> !s.claimed)
    && (s.phase.Subscribing? || s.phase.Starting? || s.phase.Scanning? || s.phase.Stopping? || s.phase.CleanRelease? ==>
          s.claimed)
    && (s.phase.Claiming? || s.phase.Subscribing? ==> !s.started)
    && (s.phase.Starting? || s.phase.Scanning? || s.phase.Stopping? || s.phase.CleanStop? ==> s.started)
    // a device in verification, or about to be, is one the client knows it has to stop
    && (s.deviceVerifying || VerifyStart in s.queue ==> s.started)
    // nothing but the awaited call is answered, and it is the last in the queue
    && (s.reply.Some? ==> s.queue == [] && s.issued)
    && (s.issued && s.reply.None? ==> s.queue != [] && CallOf(s.phase) == Some(s.queue[|s.queue| - 1]))
    && (s.reply == Some(true) && (s.phase.Stopping? || s.phase.CleanStop?) ==> !s.deviceVerifying)
    && (s.reply == Some(true) && s.phase.CleanRelease? ==> !s.deviceVerifying && !s.deviceClaimed)
  }

  /** What a successful verification leaves behind. */
  ghost predicate ResultFits(s: State) {
    && (!InVerify(s.phase) && s.verified ==>
          s.claimed && s.started && |s.statuses| > 0 && s.statuses[|s.statuses| - 1] == ("verify-match", true))
    && (s.phase.Returned? && s.verified && s.released ==>
          s.queue == [] && !s.deviceVerifying && !s.deviceClaimed)
  }

  ghost predicate Inv(s: State) {
    CallsFit(s) && FlagsFit(s) && ResultFits(s)
  }

  lemma FinishKeepsInv(s: State, verified: bool)
    requires InVerify(s.phase) && VerifyCalls(s.calls)
    requires s.deviceVerifying || VerifyStart in s.queue ==> s.started
    requires !s.phase.Claiming? <==> s.claimed
    requires verified ==>
               s.claimed && s.started && |s.statuses| > 0 && s.statuses[|s.statuses| - 1] == ("verify-match", true)
    ensures Inv(Finish(s, verified))
  {
    assert s.calls == s.calls + [] + [];
    assert CleanedUp(s.calls, false, false);
  }

  lemma FitsVerify(s: State)
    requires CallsFit(s) && InVerify(s.phase)
    ensures VerifyCalls(s.calls)
  {
    assert [Claim] == [Claim] + Rounds(0);
    if s.phase == Stopping && s.issued {
      assert s.calls == [Claim] + Rounds(s.attempt + 1);
    }
  }

  lemma StepKeepsInv(s: State, a: Action)
    requires Inv(s) && Step(s, a).Some?
    ensures Inv(Step(s, a).value)
  {
    if InVerify(s.phase) { FitsVerify(s); }
    match a
    case Issue => IssueKeepsInv(s);
    case Device(ok) => DeviceKeepsInv(s, ok);
    case Answered => ReplyKeepsInv(s);
    case Subscribed(ok) => if !ok { FinishKeepsInv(s, false); }
    case Status(status, done) => StatusKeepsInv(s, status, done);
    case FingerSelected =>
    case StreamEnded => FinishKeepsInv(s, false);
    case Interrupt => FinishKeepsInv(s, false);
    case CleanupTimeout => TimeoutKeepsInv(s);
  }

  lemma CallsFitFrame(s: State, t: State)
    requires CallsFit(s) && t.phase == s.phase && t.attempt == s.attempt && t.calls == s.calls
    requires t.issued == s.issued && t.claimed == s.claimed && t.started == s.started
    ensures CallsFit(t)
  {
    hide CleanedUp, Rounds;
  }

  lemma DeviceKeepsFlags(s: State, ok: bool)
    requires FlagsFit(s) && s.queue != []
    ensures FlagsFit(OnDevice(s, ok))
  {
    var call, rest := s.queue[0], s.queue[1..];
    assert s.queue == [call] + rest;
    assert call == VerifyStart ==> s.started;
    assert VerifyStart in rest ==> VerifyStart in s.queue;
    if rest != [] {
      assert rest[|rest| - 1] == s.queue[|s.queue| - 1];
    } else {
      assert s.queue[|s.queue| - 1] == call;
    }
  }

  lemma DeviceKeepsInv(s: State, ok: bool)
    requires Inv(s) && s.queue != []
    ensures Inv(OnDevice(s, ok))
  {
    hide CallsFit, FlagsFit;
    CallsFitFrame(s, OnDevice(s, ok));
    DeviceKeepsFlags(s, ok);
  }

  lemma TimeoutKeepsInv(s: State)
    requires Inv(s) && Step(s, CleanupTimeout).Some?
    ensures Inv(Step(s, CleanupTimeout).value)
  {
    hide CleanedUp, Rounds;
  }

  lemma IssueKeepsInv(s: State)
    requires Inv(s) && Step(s, Issue).Some?
    ensures Inv(Step(s, Issue).value)
  {
    if s.phase == CleanStop {
      var verify: seq<Call> :| VerifyCalls(verify) && s.calls == verify + [] + [];
      assert s.calls + [VerifyStop] == verify + [VerifyStop] + [];
    } else if s.phase == CleanRelease {
      var stop := if s.started then [VerifyStop] else [];
      var verify: seq<Call> :| VerifyCalls(verify) && s.calls == verify + stop + [];
      assert s.calls + [Release] == verify + stop + [Release];
    } else if s.phase == Stopping {
      assert s.calls + [VerifyStop] == [Claim] + Rounds(s.attempt) + [VerifyStart, VerifyStop];
    }
  }

  lemma ReplyKeepsInv(s: State)
    requires Inv(s) && Step(s, Answered).Some?
    ensures Inv(Step(s, Answered).value)
  {
    if InVerify(s.phase) {
      FitsVerify(s);
      if s.reply == Some(false) { FinishKeepsInv(s, false); } else { AcceptedKeepsInv(s); }
    } else {
      hide VerifyCalls, Rounds;
    }
  }

  lemma AcceptedKeepsInv(s: State)
    requires Inv(s) && InVerify(s.phase) && s.reply == Some(true) && VerifyCalls(s.calls)
    ensures Inv(OnReply(s, true))
  {
    match s.phase
    case Claiming => assert [Claim] == [Claim] + Rounds(0);
    case Stopping =>
      assert s.calls == [Claim] + Rounds(s.attempt + 1);
      if s.attempt == 2 { FinishKeepsInv(s.(started := false), false); }
    case _ =>
  }

  lemma StatusKeepsInv(s: State, status: string, done: bool)
    requires Inv(s) && Step(s, Status(status, done)).Some?
    ensures Inv(Step(s, Status(status, done)).value)
  {
    FitsVerify(s);
    var t := s.(statuses := s.statuses + [(status, done)]);
    if Outcome(status, done) == Ok(Match) { FinishKeepsInv(t, true); }
    if Outcome(status, done).Err? { FinishKeepsInv(t, false); }
  }

  /** The invariant holds in every state of every run. */
  lemma {:induction false} RunKeepsInv(s: State, actions: seq<Action>)
    requires Inv(s) && Run(s, actions).Some?
    ensures Inv(Run(s, actions).value)
    decreases |actions|
  {
    if |actions| > 0 {
      StepKeepsInv(s, actions[0]);
      RunKeepsInv(Step(s, actions[0]).value, actions[1..]);
    }
  }

  function Count(calls: seq<Call>, call: Call): nat {
    if |calls| == 0 then 0 else Count(calls[..|calls| - 1], call) + if calls[|calls| - 1] == call then 1 else 0
  }

  lemma {:induction false} CountOfSum(a: seq<Call>, b: seq<Call>, call: Call)
    ensures Count(a + b, call) == Count(a, call) + Count(b, call)
  {
    if |b| == 0 {
      assert a + b == a;
    } else {
      CountOfSum(a, b[..|b| - 1], call);
      assert (a + b)[..|a + b| - 1] == a + b[..|b| - 1];
    }
  }

  lemma {:induction false} StartsInRounds(k: nat)
    ensures Count(Rounds(k), VerifyStart) == k
  {
    if k > 0 {
      StartsInRounds(k - 1);
      CountOfSum(Rounds(k - 1), [VerifyStart, VerifyStop], VerifyStart);
      assert [VerifyStart, VerifyStop][..1] == [VerifyStart];
    }
  }

  lemma AtMostThreeStarts(calls: seq<Call>)
    requires VerifyCalls(calls)
    ensures Count(calls, VerifyStart) <= 3
  {
    if k: nat :| k <= 3 && calls == [Claim] + Rounds(k) {
      CountOfSum([Claim], Rounds(k), VerifyStart);
      StartsInRounds(k);
    } else if k: nat :| k < 3 && calls == [Claim] + Rounds(k) + [VerifyStart] {
      CountOfSum([Claim] + Rounds(k), [VerifyStart], VerifyStart);
      CountOfSum([Claim], Rounds(k), VerifyStart);
      StartsInRounds(k);
    }
  }

  /** In every state of every run, a device in verification implies the `started` flag. */
  lemma VerifyingImpliesStarted(actions: seq<Action>)
    requires Run(INITIAL, actions).Some?
    ensures Run(INITIAL, actions).value.deviceVerifying ==> Run(INITIAL, actions).value.started
  {
    RunKeepsInv(INITIAL, actions);
  }

  predicate LastIsMatch(statuses: seq<(string, bool)>) {
    |statuses| > 0 && statuses[|statuses| - 1] == ("verify-match", true)
  }

  /** A match is the last status exactly once `verify` has accepted it. */
  ghost predicate MatchFits(s: State) {
    if InVerify(s.phase) then !LastIsMatch(s.statuses) && !s.verified else s.verified <==> LastIsMatch(s.statuses)
  }

  /** The step stays in `verify`, or ends it with this result; outside, results stay. */
  predicate EndsWith(s: State, t: State, verified: bool) {
    && (InVerify(t.phase) ==> InVerify(s.phase) && t.verified == s.verified)
    && (!InVerify(t.phase) ==> t.verified == if InVerify(s.phase) then verified else s.verified)
  }

  lemma FinishEnds(s: State, verified: bool)
    ensures var t := Finish(s, verified); !InVerify(t.phase) && t.verified == verified && t.statuses == s.statuses
  {
  }

  lemma StoppingEnds(s: State, ok: bool)
    requires s.phase == Stopping
    ensures OnReply(s, ok).statuses == s.statuses && EndsWith(s, OnReply(s, ok), false)
  {
    var t := s.(started := false);
    FinishEnds(s, false);
    FinishEnds(t, false);
    hide Finish;
    if ok && t.attempt != 2 {
      var u := t.(attempt := t.attempt + 1);
      assert OnReply(s, ok) == GoTo(u, Subscribing);
      assert u.statuses == s.statuses && u.verified == s.verified;
    }
  }

  lemma VerifyReplyEnds(s: State, ok: bool)
    requires s.phase == Claiming || s.phase == Starting
    ensures OnReply(s, ok).statuses == s.statuses && EndsWith(s, OnReply(s, ok), false)
  {
    FinishEnds(s, false);
    hide Finish;
  }

  lemma OtherReplyEnds(s: State, ok: bool)
    requires || s.phase == Subscribing || s.phase == Scanning
             || s.phase == CleanStop || s.phase == CleanRelease || s.phase == Returned
    ensures OnReply(s, ok).statuses == s.statuses && EndsWith(s, OnReply(s, ok), false)
  {
    hide Finish;
  }

  lemma ReplyEnds(s: State, ok: bool)
    ensures OnReply(s, ok).statuses == s.statuses && EndsWith(s, OnReply(s, ok), false)
  {
    hide OnReply, EndsWith;
    match s.phase
    case Stopping => StoppingEnds(s, ok);
    case Claiming | Starting => VerifyReplyEnds(s, ok);
    case _ => OtherReplyEnds(s, ok);
  }

  lemma TimeoutEnds(s: State)
    requires Step(s, CleanupTimeout).Some?
    ensures var t := Step(s, CleanupTimeout).value; t.statuses == s.statuses && EndsWith(s, t, false)
  {
    if s.phase == CleanStop {
      assert Step(s, CleanupTimeout) == Some(AfterStop(s.(stopped := false)));
    } else {
      assert Step(s, CleanupTimeout) == Some(GoTo(s.(released := false), Returned));
    }
    hide Step;
  }

  lemma PlainEnds(s: State, a: Action)
    requires Step(s, a).Some? && (a.Issue? || a.Device? || a.FingerSelected?)
    ensures Step(s, a).value.statuses == s.statuses && EndsWith(s, Step(s, a).value, false)
  {
    hide OnReply, OnStatus, Finish, CallOf;
  }

  lemma BrokenEnds(s: State, a: Action)
    requires Step(s, a).Some? && (a.Subscribed? || a.StreamEnded? || a.Interrupt?)
    ensures Step(s, a).value.statuses == s.statuses && EndsWith(s, Step(s, a).value, false)
  {
    FinishEnds(s, false);
    hide Finish, OnReply, OnStatus, OnDevice;
  }

  lemma StepEnds(s: State, a: Action)
    requires Step(s, a).Some? && !a.Status?
    ensures Step(s, a).value.statuses == s.statuses && EndsWith(s, Step(s, a).value, false)
  {
    hide EndsWith;
    match a
    case Answered =>
      assert Step(s, a).value == OnReply(s, s.reply.value);
      hide Step;
      ReplyEnds(s, s.reply.value);
    case CleanupTimeout =>
      hide Step;
      TimeoutEnds(s);
    case Subscribed(_) | StreamEnded | Interrupt =>
      hide Step;
      BrokenEnds(s, a);
    case _ =>
      hide Step;
      PlainEnds(s, a);
  }

  lemma StatusEnds(s: State, status: string, done: bool)
    requires s.phase == Scanning
    ensures var t := OnStatus(s, status, done);
            && t.statuses == s.statuses + [(status, done)]
            && EndsWith(s, t, Outcome(status, done) == Ok(Match))
            && (Outcome(status, done) == Ok(Match) ==> !InVerify(t.phase))
  {
    var t := s.(statuses := s.statuses + [(status, done)]);
    FinishEnds(t, true);
    FinishEnds(t, false);
    hide Outcome, Finish;
  }

  lemma StepKeepsMatch(s: State, a: Action)
    requires MatchFits(s) && Step(s, a).Some?
    ensures MatchFits(Step(s, a).value)
  {
    if a.Status? {
      OutcomeExactly(a.status, a.done);
      assert s.phase == Scanning && Step(s, a).value == OnStatus(s, a.status, a.done);
      StatusEnds(s, a.status, a.done);
      var statuses := s.statuses + [(a.status, a.done)];
      assert LastIsMatch(statuses) <==> (a.status, a.done) == ("verify-match", true);
    } else {
      StepEnds(s, a);
    }
    hide Outcome, OnStatus, OnReply, LastIsMatch, Step, InVerify;
  }

  lemma {:induction false} RunKeepsMatch(s: State, actions: seq<Action>)
    requires MatchFits(s) && Run(s, actions).Some?
    ensures MatchFits(Run(s, actions).value)
    decreases |actions|
  {
    hide MatchFits, Step;
    if |actions| > 0 {
      StepKeepsMatch(s, actions[0]);
      RunKeepsMatch(Step(s, actions[0]).value, actions[1..]);
    }
  }

  /** `fingerprint_with_feedback` returned Ok: verified, and both cleanup calls that were due succeeded. */
  predicate Succeeded(s: State) {
    s.phase == Returned && s.verified && s.stopped && s.released
  }

  /**
   Whatever happened, on return the calls issued are those of `verify` (at most
   three starts), then VerifyStop if started, then Release if claimed; the
   verification succeeded exactly if a terminal match was the last status; and Ok
   means in addition that the reader was stopped and released.
   */
  lemma ReturnIsClean(actions: seq<Action>)
    requires Run(INITIAL, actions).Some? && Run(INITIAL, actions).value.phase == Returned
    ensures var s := Run(INITIAL, actions).value;
            && CleanedUp(s.calls, s.started, s.claimed)
            && Count(s.calls, VerifyStart) <= 3
            && (s.verified <==> |s.statuses| > 0 && s.statuses[|s.statuses| - 1] == ("verify-match", true))
            && (Succeeded(s) ==> s.queue == [] && !s.deviceVerifying && !s.deviceClaimed)
  {
    hide Run;
    RunKeepsInv(INITIAL, actions);
    RunKeepsMatch(INITIAL, actions);
    StartsAfterCleanup(Run(INITIAL, actions).value);
  }

  lemma StartsAfterCleanup(s: State)
    requires CleanedUp(s.calls, s.started, s.claimed)
    ensures Count(s.calls, VerifyStart) <= 3
  {
    var stop, release := if s.started then [VerifyStop] else [], if s.claimed then [Release] else [];
    var verify: seq<Call> :| VerifyCalls(verify) && s.calls == verify + stop + release;
    AtMostThreeStarts(verify);
    CountOfSum(verify + stop, release, VerifyStart);
    CountOfSum(verify, stop, VerifyStart);
    assert Count(stop, VerifyStart) == 0 && Count(release, VerifyStart) == 0;
  }

  // ---- where each answer leads ---------------------------------------------------------

  /**
   While scanning: a match or an invalid status ends `verify`, a failed try stops it,
   a retry or the selection of a finger changes nothing.
   */
  lemma StatusLeads(s: State, status: string, done: bool)
    requires s.phase == Scanning && s.started
    ensures Step(s, FingerSelected) == Some(s)
    ensures Step(s, Status(status, done)).Some?
    ensures var t := Step(s, Status(status, done)).value;
            && t.attempt == s.attempt && t.started && t.claimed == s.claimed
            && t.phase ==
                 (if Outcome(status, done) == Ok(Retry) then Scanning
                  else if (status, done) == ("verify-no-match", true) then Stopping
                  else CleanStop)
            && (t.phase == CleanStop ==> (t.verified <==> (status, done) == ("verify-match", true)))
  {
    OutcomeExactly(status, done);
  }

  /** A failed try that was stopped leads to the next, up to the third; a failed stop or a third failure ends it. */
  lemma StopLeads(s: State)
    requires s.phase == Stopping && s.reply.Some? && s.claimed && s.started
    ensures Step(s, Answered).Some?
    ensures var t := Step(s, Answered).value;
            && t.claimed
            && (if !s.reply.value then t.phase == CleanStop && t.started && !t.verified
                else if s.attempt == 2 then t.phase == CleanRelease && !t.started && !t.verified
                else t.phase == Subscribing && !t.started && t.attempt == s.attempt + 1)
  {
  }

  /** A cleanup call counts as done exactly if it was answered well in time. */
  lemma CleanupLeads(s: State)
    requires s.phase == CleanStop || s.phase == CleanRelease
    ensures s.reply.Some? ==>
              var t := Step(s, Answered).value;
              if s.phase == CleanStop then t.stopped == s.reply.value && t.released == s.released
              else t.released == s.reply.value && t.stopped == s.stopped && t.phase == Returned
    ensures s.issued ==>
              var t := Step(s, CleanupTimeout).value;
              if s.phase == CleanStop then !t.stopped && t.released == s.released
              else !t.released && t.stopped == s.stopped && t.phase == Returned
  {
  }

  /** Every failure, and an interruption at any await, ends `verify` in vain and leaves the cleanup that is due. */
  lemma FailureLeads(s: State, a: Action)
    requires InVerify(s.phase)
    requires || a == Interrupt
             || (a == Answered && s.reply == Some(false) && CallOf(s.phase).Some?)
             || (a == Subscribed(false) && s.phase == Subscribing)
             || (a == StreamEnded && s.phase == Scanning)
    ensures Step(s, a).Some?
    ensures var t := Step(s, a).value;
            && !t.verified && !t.issued && t.reply == None && t.queue == s.queue && t.calls == s.calls
            && t.claimed == s.claimed && t.started == s.started
            && t.phase == (if s.started then CleanStop else if s.claimed then CleanRelease else Returned)
  {
  }

  /**
   What a call does to the device depends on the call alone, whoever still waits for
   it, and a call that fails does nothing; the last call issued is the one answered.
   */
  lemma DeviceLeads(s: State, call: Call, rest: seq<Call>, ok: bool)
    requires s.queue == [call] + rest
    ensures Step(s, Device(ok)).Some?
    ensures var t := Step(s, Device(ok)).value;
            && t.queue == rest && t.phase == s.phase
            && t.reply == (if rest == [] && s.issued then Some(ok) else s.reply)
            && (!ok ==> t.deviceClaimed == s.deviceClaimed && t.deviceVerifying == s.deviceVerifying)
            && (ok && call == Claim ==> t.deviceClaimed && t.deviceVerifying == s.deviceVerifying)
            && (ok && call == VerifyStart ==> t.deviceClaimed == s.deviceClaimed && t.deviceVerifying)
            && (ok && call == VerifyStop ==> t.deviceClaimed == s.deviceClaimed && !t.deviceVerifying)
            && (ok && call == Release ==> !t.deviceClaimed && !t.deviceVerifying)
  {
    assert s.queue[1..] == rest;
  }

  // ---- runs that succeed and runs that do not --------------------------------------------

  lemma {:induction false} RunAppend(s: State, first: seq<Action>, rest: seq<Action>)
    ensures Run(s, first + rest) == if Run(s, first).Some? then Run(Run(s, first).value, rest) else None
    decreases |first|
  {
    hide Step;
    if |first| == 0 {
      assert first + rest == rest;
    } else {
      assert (first + rest)[1..] == first[1..] + rest;
      if Step(s, first[0]).Some? { RunAppend(Step(s, first[0]).value, first[1..], rest); }
    }
  }

  lemma RunOne(s: State, a: Action)
    ensures Run(s, [a]) == Step(s, a)
  {
    hide Step;
    assert [a][1..] == [];
  }

  /** A call that is issued, handled well and answered. */
  function Exchange(): seq<Action> {
    [Issue] + [Device(true)] + [Answered]
  }

  ghost function Handled(s: State): State
    requires CallOf(s.phase).Some?
  {
    OnDevice(s.(issued := true, queue := [CallOf(s.phase).value], calls := s.calls + [CallOf(s.phase).value]), true)
  }

  lemma Exchanges(s: State)
    requires CallOf(s.phase).Some? && !s.issued && s.queue == [] && s.reply == None
    ensures Run(s, Exchange()) == Some(OnReply(Handled(s), true))
  {
    var call := CallOf(s.phase).value;
    var asked := s.(issued := true, queue := [call], calls := s.calls + [call]);
    assert s.queue + [call] == [call];
    assert Step(s, Issue) == Some(asked) && Step(asked, Device(true)) == Some(Handled(s));
    assert Step(Handled(s), Answered) == Some(OnReply(Handled(s), true)) by { assert [call][1..] == []; }
    hide Step, OnReply, OnDevice;
    RunOne(s, Issue);
    RunOne(asked, Device(true));
    RunOne(Handled(s), Answered);
    RunAppend(s, [Issue], [Device(true)]);
    RunAppend(s, [Issue] + [Device(true)], [Answered]);
  }

  /** Claimed, with a try about to begin. */
  predicate Ready(s: State) {
    && s.phase == Subscribing && !s.issued && s.reply == None && s.queue == []
    && s.claimed && !s.started && !s.verified && s.stopped && s.released
  }

  function Scan(): seq<Action> {
    [Subscribed(true)] + Exchange()
  }

  lemma Scans(s: State)
    requires Ready(s)
    ensures Run(s, Scan()).Some?
    ensures var t := Run(s, Scan()).value;
            && t.phase == Scanning && !t.issued && t.reply == None && t.queue == []
            && t.claimed && t.started && !t.verified && t.stopped && t.released && t.attempt == s.attempt
  {
    var starting := Step(s, Subscribed(true)).value;
    RunOne(s, Subscribed(true));
    Exchanges(starting);
    assert [VerifyStart][1..] == [];
    hide Run;
    RunAppend(s, [Subscribed(true)], Exchange());
  }

  function FailedTry(): seq<Action> {
    Scan() + [Status("verify-no-match", true)] + Exchange()
  }

  /** A try that finds no match leads to the next one, and after the third to the release of the reader. */
  lemma FailedTryLeads(s: State)
    requires Ready(s)
    ensures Run(s, FailedTry()).Some?
    ensures var t := Run(s, FailedTry()).value;
            if s.attempt == 2
            then t.phase == CleanRelease && !t.verified && !t.issued && t.reply == None && t.queue == []
            else Ready(t) && t.attempt == s.attempt + 1
  {
    Scans(s);
    var scanning := Run(s, Scan()).value;
    StatusLeads(scanning, "verify-no-match", true);
    OutcomeExactly("verify-no-match", true);
    var stopping := Step(scanning, Status("verify-no-match", true)).value;
    RunOne(scanning, Status("verify-no-match", true));
    Exchanges(stopping);
    assert [VerifyStop][1..] == [];
    hide Run;
    RunAppend(s, Scan(), [Status("verify-no-match", true)]);
    RunAppend(s, Scan() + [Status("verify-no-match", true)], Exchange());
  }

  function MatchingTry(): seq<Action> {
    Scan() + [Status("verify-match", true)] + Exchange() + Exchange()
  }

  /** A try that finds a match succeeds, with the reader stopped and released. */
  lemma MatchingTryLeads(s: State)
    requires Ready(s)
    ensures Run(s, MatchingTry()).Some? && Succeeded(Run(s, MatchingTry()).value)
  {
    Scans(s);
    var scanning := Run(s, Scan()).value;
    OutcomeExactly("verify-match", true);
    var matched := Step(scanning, Status("verify-match", true)).value;
    RunOne(scanning, Status("verify-match", true));
    Exchanges(matched);
    assert [VerifyStop][1..] == [] && [Release][1..] == [];
    var releasing := Run(matched, Exchange()).value;
    Exchanges(releasing);
    hide Run;
    RunAppend(s, Scan(), [Status("verify-match", true)]);
    RunAppend(s, Scan() + [Status("verify-match", true)], Exchange());
    RunAppend(s, Scan() + [Status("verify-match", true)] + Exchange(), Exchange());
  }

  function FailedTries(n: nat): seq<Action> {
    if n == 0 then [] else FailedTries(n - 1) + FailedTry()
  }

  lemma {:induction false} ReadyAfter(n: nat)
    requires n <= 2
    ensures var r := Run(INITIAL, Exchange() + FailedTries(n)); r.Some? && Ready(r.value) && r.value.attempt == n
  {
    if n == 0 {
      Exchanges(INITIAL);
      assert [Claim][1..] == [] && Exchange() + [] == Exchange();
    } else {
      ReadyAfter(n - 1);
      hide Run, Ready;
      FailedTryLeads(Run(INITIAL, Exchange() + FailedTries(n - 1)).value);
      RunAppend(INITIAL, Exchange() + FailedTries(n - 1), FailedTry());
      assert Exchange() + FailedTries(n) == Exchange() + FailedTries(n - 1) + FailedTry();
    }
  }

  /** A match is accepted at the first try, and after one failed try, and after two; and three failed tries fail. */
  lemma ThreeTries(n: nat)
    ensures n <= 2 ==>
              var r := Run(INITIAL, Exchange() + FailedTries(n) + MatchingTry()); r.Some? && Succeeded(r.value)
    ensures n == 3 ==>
              var r := Run(INITIAL, Exchange() + FailedTries(n) + Exchange());
              r.Some? && r.value.phase == Returned && !r.value.verified && r.value.released
  {
    hide Run, Ready;
    if n <= 2 {
      ReadyAfter(n);
      MatchingTryLeads(Run(INITIAL, Exchange() + FailedTries(n)).value);
      RunAppend(INITIAL, Exchange() + FailedTries(n), MatchingTry());
    } else if n == 3 {
      ReadyAfter(2);
      var third := Run(INITIAL, Exchange() + FailedTries(2)).value;
      FailedTryLeads(third);
      RunAppend(INITIAL, Exchange() + FailedTries(2), FailedTry());
      assert Exchange() + FailedTries(3) == Exchange() + FailedTries(2) + FailedTry();
      var releasing := Run(third, FailedTry()).value;
      Exchanges(releasing);
      RunAppend(INITIAL, Exchange() + FailedTries(3), Exchange());
      assert [Release][1..] == [];
    }
  }

  /** A cleanup call that is issued and never answered. */
  function Unanswered(due: bool): seq<Action> {
    if due then [Issue] + [CleanupTimeout] else []
  }

  lemma RunUnanswered(s: State)
    requires (s.phase == CleanStop || s.phase == CleanRelease) && !s.issued
    ensures var r := Run(s, Unanswered(true));
            && r.Some? && r.value.queue == s.queue + [CallOf(s.phase).value] && !r.value.issued
            && r.value.claimed == s.claimed && r.value.verified == s.verified
            && r.value.phase == if s.phase == CleanStop && s.claimed then CleanRelease else Returned
  {
    var asked := Step(s, Issue).value;
    RunOne(s, Issue);
    RunOne(asked, CleanupTimeout);
    hide Run;
    RunAppend(s, [Issue], [CleanupTimeout]);
  }

  /** Interrupted at any await, with a device that never answers again, the client issues what is due and returns. */
  lemma InterruptReturns(s: State)
    requires InVerify(s.phase)
    ensures var r := Run(s, [Interrupt] + Unanswered(s.started) + Unanswered(s.claimed));
            && r.Some? && r.value.phase == Returned && !r.value.verified
            && r.value.queue
               == s.queue + (if s.started then [VerifyStop] else []) + (if s.claimed then [Release] else [])
  {
    FailureLeads(s, Interrupt);
    var cleaning := Step(s, Interrupt).value;
    RunOne(s, Interrupt);
    RunAppend(s, [Interrupt], Unanswered(s.started));
    RunAppend(s, [Interrupt] + Unanswered(s.started), Unanswered(s.claimed));
    hide Run, Step;
    if s.started {
      RunUnanswered(cleaning);
      if s.claimed { RunUnanswered(Run(cleaning, Unanswered(true)).value); }
    } else if s.claimed {
      RunUnanswered(cleaning);
    }
    RunNothing(cleaning);
    if s.started { RunNothing(Run(cleaning, Unanswered(true)).value); }
  }

  lemma RunNothing(s: State)
    ensures Run(s, []) == Some(s)
  {
  }
}
