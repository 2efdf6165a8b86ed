/** Delivery of async delegations as a transition system: the drain thread reserves a session's
    admission slot, claims the completion and hands both to a wakeup thread. Every critical section
    is one step; what the helpers answer, and whether they raise, is up to the environment. */
module DelegationAdmission {
  import opened Options

  type SessionId = string
  type ThreadId = nat

  /** Claims are numbered as they are obtained. */
  type ClaimId = nat

  datatype Drain =
    | Idle
    | Fresh(sid: SessionId)                       // about to look whether the session is busy
    | Reserving(sid: SessionId)                   // about to reserve the slot
    | Reserved(sid: SessionId)                    // about to claim
    | Formatting(sid: SessionId, claim: ClaimId)
    | Dispatching(sid: SessionId, claim: ClaimId) // about to start the wakeup thread
    | Dropping(sid: SessionId, claim: ClaimId)    // about to release the claim
    | Leaving(sid: SessionId)                     // about to release the slot

  /** How far a wakeup thread is. */
  datatype Stage =
    | Starting   // about to start the turn
    | Accepted   // about to acknowledge
    | Refused    // about to release the claim
    | Retrying   // released after a refusal, about to schedule the retry
    | Handling   // something raised: about to release the claim
    | Rearming   // released after an exception, about to schedule the retry
    | Finishing  // about to release the slot

  datatype Runner = Runner(sid: SessionId, claim: ClaimId, stage: Stage)

  /** A completion that took effect, or a release. */
  datatype Call = Complete(claim: ClaimId) | Release(claim: ClaimId)

  datatype State = State(
    inflight: set<SessionId>,
    drain: Drain,
    runners: map<ThreadId, Runner>,
    claims: seq<SessionId>,   // history: whose completion each claim is for
    calls: seq<Call>,         // history: every resolution of a claim
    raised: set<ClaimId>)     // history: claims whose helper raised when they were resolved already

  const START := State({}, Idle, map[], [], [], {})

  datatype ClaimAnswer = Obtained | NotObtained | ClaimRaised

  datatype TurnAnswer = TurnAccepted | TurnRefused | TurnRaised

  /** An acknowledgement that raises may or may not have completed the claim by then. */
  datatype AckAnswer = Acknowledged | RaisedBefore | RaisedAfter

  datatype Action =
    | Take(sid: SessionId)
    | LookBusy(busy: bool)
    | Reserve
    | Claim(answer: ClaimAnswer)
    | Format(formatted: bool)
    | StartThread(started: bool, thread: ThreadId)
    | Drop
    | Leave
    | Answer(thread: ThreadId, turn: TurnAnswer)
    | Acknowledge(thread: ThreadId, ack: AckAnswer)
    | ReleaseRefused(thread: ThreadId)
    | Retry(thread: ThreadId, raises: bool)
    | ReleaseHandling(thread: ThreadId)
    | Rearm(thread: ThreadId)
    | Finish(thread: ThreadId)

  // ---- Steps ----

  predicate ByDrain(a: Action) {
    a.Take? || a.LookBusy? || a.Reserve? || a.Claim? || a.Format? || a.StartThread? || a.Drop? || a.Leave?
  }

  function DrainStep(s: State, a: Action): Option<State>
    requires ByDrain(a)
  {
    match (a, s.drain)
    case (Take(sid), Idle) => Some(s.(drain := Fresh(sid)))
    case (LookBusy(busy), Fresh(sid)) => Some(s.(drain := if busy then Idle else Reserving(sid)))
    case (Reserve, Reserving(sid)) =>
      if sid in s.inflight then Some(s.(drain := Idle))
      else Some(s.(inflight := s.inflight + {sid}, drain := Reserved(sid)))
    case (Claim(answer), Reserved(sid)) =>
      if answer.Obtained? then Some(s.(claims := s.claims + [sid], drain := Formatting(sid, |s.claims|)))
      else Some(s.(drain := Leaving(sid)))
    case (Format(formatted), Formatting(sid, c)) =>
      Some(s.(drain := if formatted then Dispatching(sid, c) else Dropping(sid, c)))
    case (StartThread(started, id), Dispatching(sid, c)) =>
      if id in s.runners then None
      else if started then Some(s.(runners := s.runners[id := Runner(sid, c, Starting)], drain := Idle))
      else Some(s.(drain := Dropping(sid, c)))
    case (Drop, Dropping(sid, c)) => Some(s.(calls := s.calls + [Release(c)], drain := Leaving(sid)))
    case (Leave, Leaving(sid)) => Some(s.(inflight := s.inflight - {sid}, drain := Idle))
    case _ => None
  }

  function To(s: State, id: ThreadId, stage: Stage): State
    requires id in s.runners
  {
    s.(runners := s.runners[id := s.runners[id].(stage := stage)])
  }

  function RunnerStep(s: State, a: Action): Option<State>
    requires !ByDrain(a)
  {
    if a.thread !in s.runners then None
    else
      var (id, r) := (a.thread, s.runners[a.thread]);
      match (a, r.stage)
      case (Answer(_, turn), Starting) =>
        Some(To(s, id, match turn case TurnAccepted => Accepted case TurnRefused => Refused case TurnRaised => Handling))
      case (Acknowledge(_, ack), Accepted) =>
        Some(To(s, id, if ack.Acknowledged? then Finishing else Handling)
             .(calls := if ack.RaisedBefore? then s.calls else s.calls + [Complete(r.claim)],
               raised := if ack.RaisedAfter? then s.raised + {r.claim} else s.raised))
      case (ReleaseRefused(_), Refused) => Some(To(s, id, Retrying).(calls := s.calls + [Release(r.claim)]))
      case (Retry(_, raises), Retrying) =>
        Some(To(s, id, if raises then Handling else Finishing)
             .(raised := if raises then s.raised + {r.claim} else s.raised))
      case (ReleaseHandling(_), Handling) => Some(To(s, id, Rearming).(calls := s.calls + [Release(r.claim)]))
      case (Rearm(_), Rearming) => Some(To(s, id, Finishing))
      case (Finish(_), Finishing) => Some(s.(inflight := s.inflight - {r.sid}, runners := s.runners - {id}))
      case _ => None
  }

  function Next(s: State, a: Action): Option<State> {
    if ByDrain(a) then DrainStep(s, a)
    else RunnerStep(s, a)
  }

  function Run(s: State, actions: seq<Action>): Option<State>
    decreases |actions|
  {
    if actions == [] then Some(s)
    else
      match Next(s, actions[0])
      case None => None
      case Some(s') => Run(s', actions[1..])
  }

  // ---- Owners ----

  /** Who can hold a slot or a claim. */
  datatype Owner = TheDrain | Thread(id: ThreadId)

  /** `o` must release, or hand on, the slot of session `sid`. */
  predicate OwnsSlot(s: State, o: Owner, sid: SessionId) {
    match o
    case TheDrain => !s.drain.Idle? && !s.drain.Fresh? && !s.drain.Reserving? && s.drain.sid == sid
    case Thread(id) => id in s.runners && s.runners[id].sid == sid
  }

  /** `o` carries claim `c`. */
  predicate OwnsClaim(s: State, o: Owner, c: ClaimId) {
    match o
    case TheDrain => (s.drain.Formatting? || s.drain.Dispatching? || s.drain.Dropping?) && s.drain.claim == c
    case Thread(id) => id in s.runners && s.runners[id].claim == c
  }

  /** How often a claim was completed or released. */
  function Resolutions(calls: seq<Call>, c: ClaimId): nat {
    if calls == [] then 0
    else Resolutions(calls[..|calls| - 1], c) + if calls[|calls| - 1].claim == c then 1 else 0
  }

  /** How often the claim of a thread at `stage` was resolved so far. */
  function ResolvedAt(stage: Stage, raised: bool): nat {
    match stage
    case Starting => 0
    case Accepted => 0
    case Refused => 0
    case Retrying => 1
    case Handling => if raised then 1 else 0
    case Rearming => if raised then 2 else 1
    case Finishing => if raised then 2 else 1
  }

  // ---- The invariant ----

  ghost predicate SlotsOk(s: State) {
    && (forall o, p, sid | OwnsSlot(s, o, sid) && OwnsSlot(s, p, sid) :: o == p)
    && (forall sid :: sid in s.inflight <==> exists o :: OwnsSlot(s, o, sid))
  }

  /** Whoever carries a claim owns the slot of its session. */
  ghost predicate CarriersOwn(s: State) {
    forall o, c: ClaimId | OwnsClaim(s, o, c) :: c < |s.claims| && OwnsSlot(s, o, s.claims[c])
  }

  predicate Clean(s: State, c: ClaimId) {
    Resolutions(s.calls, c) == 0 && c !in s.raised
  }

  predicate RunnerCounts(s: State, r: Runner) {
    && Resolutions(s.calls, r.claim) == ResolvedAt(r.stage, r.claim in s.raised)
    && (r.stage in {Starting, Accepted, Refused, Retrying} ==> r.claim !in s.raised)
  }

  predicate Settled(s: State, c: ClaimId) {
    Resolutions(s.calls, c) == if c in s.raised then 2 else 1
  }

  ghost predicate ClaimsOk(s: State) {
    && CarriersOwn(s)
    && (forall c: ClaimId | OwnsClaim(s, TheDrain, c) :: Clean(s, c))
    && (forall id | id in s.runners :: RunnerCounts(s, s.runners[id]))
    && (forall c: ClaimId | c < |s.claims| && (forall o :: !OwnsClaim(s, o, c)) :: Settled(s, c))
    && (forall c: ClaimId | c >= |s.claims| :: Clean(s, c))
  }

  ghost predicate Inv(s: State) {
    SlotsOk(s) && ClaimsOk(s)
  }

  lemma ResolutionsAppend(calls: seq<Call>, call: Call)
    ensures forall c: ClaimId :: Resolutions(calls + [call], c) == Resolutions(calls, c) + if call.claim == c then 1 else 0
  {
    assert (calls + [call])[..|calls|] == calls;
  }

  /** Claims in different hands are different. */
  lemma OneHolder(s: State, o: Owner, p: Owner, c: ClaimId)
    requires Inv(s) && OwnsClaim(s, o, c) && OwnsClaim(s, p, c)
    ensures o == p
  {
    hide OwnsSlot, OwnsClaim, Resolutions, ResolvedAt;
  }

  lemma SlotsStep(s: State, a: Action)
    requires SlotsOk(s) && Next(s, a).Some?
    ensures SlotsOk(Next(s, a).value)
  {
    var s' := Next(s, a).value;
    if a.Reserve? && s'.drain.Reserved? {
      assert OwnsSlot(s', TheDrain, s.drain.sid);
      assert forall o, sid :: OwnsSlot(s', o, sid) <==> OwnsSlot(s, o, sid) || (o == TheDrain && sid == s.drain.sid);
    } else if a.StartThread? && a.started {
      assert forall o, sid :: OwnsSlot(s', o, sid) <==>
        (o != TheDrain && OwnsSlot(s, o, sid)) || (o == Thread(a.thread) && sid == s.drain.sid);
      assert OwnsSlot(s, TheDrain, s.drain.sid) && OwnsSlot(s', Thread(a.thread), s.drain.sid);
    } else if a.Leave? {
      assert OwnsSlot(s, TheDrain, s.drain.sid);
      assert forall o, sid :: OwnsSlot(s', o, sid) <==> o != TheDrain && OwnsSlot(s, o, sid);
    } else if a.Finish? {
      assert OwnsSlot(s, Thread(a.thread), s.runners[a.thread].sid);
      assert forall o, sid :: OwnsSlot(s', o, sid) <==> o != Thread(a.thread) && OwnsSlot(s, o, sid);
    } else {
      assert forall o, sid :: OwnsSlot(s', o, sid) <==> OwnsSlot(s, o, sid);
    }
  }

  /** Only claims that a step resolves, or whose helper raises, change their count. */
  lemma CountsElsewhere(s: State, a: Action, c: ClaimId)
    requires Next(s, a).Some?
    requires a.Drop? ==> c != s.drain.claim
    requires !ByDrain(a) ==> c != s.runners[a.thread].claim
    ensures var s' := Next(s, a).value;
      Resolutions(s'.calls, c) == Resolutions(s.calls, c) && (c in s'.raised <==> c in s.raised)
  {
    hide Resolutions;
    var s' := Next(s, a).value;
    if s'.calls != s.calls {
      ResolutionsAppend(s.calls, s'.calls[|s.calls|]);
    }
  }

  /** The drain thread obtains, hands over, or drops a claim. */
  lemma ClaimsDrainStep(s: State, a: Action)
    requires Inv(s) && Next(s, a).Some? && ByDrain(a)
    ensures ClaimsOk(Next(s, a).value)
  {
    hide Resolutions, Settled, RunnerCounts, SlotsOk;
    var s' := Next(s, a).value;
    var before, after := s.drain, s'.drain;
    forall c: ClaimId | !(a.Drop? && c == before.claim)
      ensures Clean(s', c) <==> Clean(s, c)
      ensures Settled(s', c) <==> Settled(s, c)
      ensures forall r: Runner | r.claim == c :: RunnerCounts(s', r) <==> RunnerCounts(s, r)
    {
      CountsElsewhere(s, a, c);
      SameCounts(s, s', c);
    }
    forall id | id in s.runners && !(a.Drop? && s.runners[id].claim == before.claim)
      ensures RunnerCounts(s', s.runners[id])
    {
      CountsElsewhere(s, a, s.runners[id].claim);
      SameCounts(s, s', s.runners[id].claim);
    }
    if a.Drop? {
      var c := before.claim;
      assert OwnsClaim(s, TheDrain, c);
      forall id | id in s.runners ensures s.runners[id].claim != c {
        if s.runners[id].claim == c {
          OneHolder(s, TheDrain, Thread(id), c);
        }
      }
      DropSettles(s, c);
      assert forall o, d: ClaimId :: OwnsClaim(s', o, d) <==> o != TheDrain && OwnsClaim(s, o, d);
    } else if a.Claim? && a.answer.Obtained? {
      assert OwnsClaim(s', TheDrain, |s.claims|);
      assert forall o, c: ClaimId :: OwnsClaim(s', o, c) <==> OwnsClaim(s, o, c) || (o == TheDrain && c == |s.claims|);
    } else if a.StartThread? && a.started {
      assert OwnsClaim(s, TheDrain, before.claim) && OwnsClaim(s', Thread(a.thread), before.claim);
      assert forall o, c: ClaimId :: OwnsClaim(s', o, c) <==>
        (o != TheDrain && OwnsClaim(s, o, c)) || (o == Thread(a.thread) && c == before.claim);
      CleanStarts(s', before.sid, before.claim);
    } else {
      assert forall o, c: ClaimId :: OwnsClaim(s', o, c) <==> OwnsClaim(s, o, c);
      assert s'.claims == s.claims && s'.runners == s.runners && s'.calls == s.calls && s'.raised == s.raised;
      assert CarriersOwn(s');
    }
  }

  lemma SameCounts(s: State, s': State, c: ClaimId)
    requires Resolutions(s'.calls, c) == Resolutions(s.calls, c) && (c in s'.raised <==> c in s.raised)
    ensures Clean(s', c) <==> Clean(s, c)
    ensures Settled(s', c) <==> Settled(s, c)
    ensures forall r: Runner | r.claim == c :: RunnerCounts(s', r) <==> RunnerCounts(s, r)
  {
    hide Resolutions;
  }

  lemma DropSettles(s: State, c: ClaimId)
    requires Clean(s, c) && s.drain.Dropping? && s.drain.claim == c
    ensures Settled(Next(s, Drop).value, c)
  {
    hide Resolutions;
    ResolutionsAppend(s.calls, Release(c));
  }

  lemma CleanStarts(s: State, sid: SessionId, c: ClaimId)
    ensures Clean(s, c) ==> RunnerCounts(s, Runner(sid, c, Starting))
  {
    hide Resolutions;
  }

  /** A wakeup thread goes on with its own claim. */
  lemma RunnerCountsStep(s: State, a: Action)
    requires Next(s, a).Some? && !ByDrain(a) && RunnerCounts(s, s.runners[a.thread])
    ensures var s' := Next(s, a).value;
      if a.Finish? then Settled(s', s.runners[a.thread].claim)
      else a.thread in s'.runners && RunnerCounts(s', s'.runners[a.thread])
  {
    hide Resolutions;
    ResolutionsAppend(s.calls, Complete(s.runners[a.thread].claim));
    ResolutionsAppend(s.calls, Release(s.runners[a.thread].claim));
  }

  /** A wakeup thread changes nothing about the others, and nothing about claims, but its own count. */
  lemma RunnerFrame(s: State, a: Action)
    requires Next(s, a).Some? && !ByDrain(a)
    ensures var s' := Next(s, a).value;
      && s'.claims == s.claims && s'.drain == s.drain && (a.Finish? ==> a.thread !in s'.runners)
      && (forall o, c: ClaimId :: OwnsClaim(s', o, c) <==> OwnsClaim(s, o, c) && !(a.Finish? && o == Thread(a.thread)))
      && (forall id | id != a.thread :: (id in s'.runners <==> id in s.runners) && (id in s.runners ==> s'.runners[id] == s.runners[id]))
      && (forall o, sid | OwnsSlot(s, o, sid) && !(a.Finish? && o == Thread(a.thread)) :: OwnsSlot(s', o, sid))
  {
  }

  lemma ClaimsRunnerStep(s: State, a: Action)
    requires Inv(s) && Next(s, a).Some? && !ByDrain(a)
    ensures ClaimsOk(Next(s, a).value)
  {
    hide Resolutions, Next, SlotsOk, Clean, Settled, RunnerCounts, OwnsClaim, OwnsSlot;
    var s' := Next(s, a).value;
    assert a.thread in s.runners by { RunnerPresent(s, a); }
    var c := s.runners[a.thread].claim;
    assert OwnsClaim(s, Thread(a.thread), c) by { Carries(s, a.thread); }
    RunnerFrame(s, a);
    RunnerCountsStep(s, a);
    forall o | OwnsClaim(s, o, c) ensures o == Thread(a.thread) {
      OneHolder(s, o, Thread(a.thread), c);
    }
    forall id | id in s'.runners ensures RunnerCounts(s', s'.runners[id]) {
      if id != a.thread {
        Carries(s, id);
        assert s.runners[id].claim != c;
        CountsElsewhere(s, a, s.runners[id].claim);
        SameCounts(s, s', s.runners[id].claim);
      }
    }
    forall d: ClaimId | d < |s.claims| && forall o :: !OwnsClaim(s', o, d) ensures Settled(s', d) {
      if d == c {
        assert !OwnsClaim(s', Thread(a.thread), c);
      } else {
        assert forall o :: !OwnsClaim(s, o, d) by {
          forall o ensures !OwnsClaim(s, o, d) {
            assert !OwnsClaim(s', o, d);
            assert OwnsClaim(s, Thread(a.thread), d) ==> d == c by { CarriesOnly(s, a.thread, d); }
          }
        }
        assert Settled(s, d);
        CountsElsewhere(s, a, d);
        SameCounts(s, s', d);
      }
    }
    forall d: ClaimId | d >= |s.claims| || OwnsClaim(s', TheDrain, d) ensures Clean(s', d) {
      assert OwnsClaim(s, TheDrain, d) || d >= |s.claims|;
      assert Clean(s, d) && d != c;
      CountsElsewhere(s, a, d);
      SameCounts(s, s', d);
    }
    assert CarriersOwn(s');
  }

  lemma CarriesOnly(s: State, id: ThreadId, c: ClaimId)
    ensures OwnsClaim(s, Thread(id), c) ==> id in s.runners && c == s.runners[id].claim
  {
  }

  lemma RunnerPresent(s: State, a: Action)
    requires Next(s, a).Some? && !ByDrain(a)
    ensures a.thread in s.runners
  {
  }

  lemma Carries(s: State, id: ThreadId)
    requires id in s.runners
    ensures OwnsClaim(s, Thread(id), s.runners[id].claim)
  {
  }

  lemma StepKeeps(s: State, a: Action)
    requires Inv(s) && Next(s, a).Some?
    ensures Inv(Next(s, a).value)
  {
    hide SlotsOk, ClaimsOk, DrainStep, RunnerStep;
    SlotsStep(s, a);
    if ByDrain(a) {
      ClaimsDrainStep(s, a);
    } else {
      ClaimsRunnerStep(s, a);
    }
  }

  lemma {:induction false} RunKeeps(s: State, actions: seq<Action>)
    requires Inv(s) && Run(s, actions).Some?
    ensures Inv(Run(s, actions).value)
    decreases |actions|
  {
    hide Inv, Next;
    if actions != [] {
      StepKeeps(s, actions[0]);
      RunKeeps(Next(s, actions[0]).value, actions[1..]);
    }
  }

  lemma StartInv()
    ensures Inv(START)
  {
  }

  // ---- The results ----

  /** After any run a session is in the in-flight set exactly when somebody owns its slot, and then
      exactly one does. */
  lemma AdmissionHasOneOwner(actions: seq<Action>, sid: SessionId)
    requires Run(START, actions).Some?
    ensures var s := Run(START, actions).value;
      sid in s.inflight <==> exists o :: OwnsSlot(s, o, sid) && forall p | OwnsSlot(s, p, sid) :: p == o
  {
    hide Run, Next, ClaimsOk, OwnsSlot;
    StartInv();
    RunKeeps(START, actions);
  }

  /** After any run a session has at most one claim that was neither completed nor released. */
  lemma OneOpenClaimPerSession(actions: seq<Action>, c: ClaimId, d: ClaimId)
    requires Run(START, actions).Some?
    requires var s := Run(START, actions).value;
      && c < |s.claims| && d < |s.claims| && s.claims[c] == s.claims[d]
      && Resolutions(s.calls, c) == 0 && Resolutions(s.calls, d) == 0
    ensures c == d
  {
    hide Run, Next, Resolutions, OwnsSlot;
    StartInv();
    RunKeeps(START, actions);
    var s := Run(START, actions).value;
    assert !Settled(s, c) && !Settled(s, d);
    var o :| OwnsClaim(s, o, c);
    var p :| OwnsClaim(s, p, d);
    assert OwnsSlot(s, o, s.claims[c]) && OwnsSlot(s, p, s.claims[d]);
    assert o == p;
    OneClaimEach(s, o, c, d);
  }

  lemma OneClaimEach(s: State, o: Owner, c: ClaimId, d: ClaimId)
    requires OwnsClaim(s, o, c) && OwnsClaim(s, o, d)
    ensures c == d
  {
  }

  /** After any run, a claim that nobody carries any more was completed or released, and exactly once
      unless its acknowledgement raised after it had completed the claim, or the retry after a refusal
      raised. */
  lemma ResolvedExactlyOnce(actions: seq<Action>, c: ClaimId)
    requires Run(START, actions).Some?
    requires var s := Run(START, actions).value; c < |s.claims| && forall o :: !OwnsClaim(s, o, c)
    ensures var s := Run(START, actions).value;
      && (Resolutions(s.calls, c) == 1 <==> c !in s.raised)
      && Resolutions(s.calls, c) >= 1
  {
    hide Run, Next, Resolutions, OwnsSlot, OwnsClaim;
    StartInv();
    RunKeeps(START, actions);
    assert Settled(Run(START, actions).value, c);
  }

  // ---- Claims resolved twice ----

  const ADMITTED := [Take("s"), LookBusy(false), Reserve, Claim(Obtained), Format(true), StartThread(true, 0)]
  const WOUND_UP := [ReleaseHandling(0), Rearm(0), Finish(0)]

  /** A run in which the turn is accepted and the acknowledgement raises. */
  function AcknowledgementRun(ack: AckAnswer): seq<Action> {
    ADMITTED + [Answer(0, TurnAccepted), Acknowledge(0, ack)] + WOUND_UP
  }

  /** A run in which the turn is refused and scheduling the retry raises. */
  function RetryRun(): seq<Action> {
    ADMITTED + [Answer(0, TurnRefused), ReleaseRefused(0), Retry(0, true)] + WOUND_UP
  }

  lemma RunStep(s: State, actions: seq<Action>, i: nat)
    requires i < |actions|
    ensures Run(s, actions[i..]) == match Next(s, actions[i]) case None => None case Some(s') => Run(s', actions[i + 1..])
  {
    assert actions[i..][1..] == actions[i + 1..];
  }

  lemma {:induction false} RunAppend(s: State, a: seq<Action>, b: seq<Action>)
    ensures Run(s, a + b) == match Run(s, a) case None => None case Some(s') => Run(s', b)
    decreases |a|
  {
    hide Next;
    if a == [] {
      assert a + b == b;
    } else {
      assert (a + b)[0] == a[0] && (a + b)[1..] == a[1..] + b;
      if Next(s, a[0]).Some? {
        RunAppend(Next(s, a[0]).value, a[1..], b);
      }
    }
  }

  /** The one thread at work for session "s". */
  function Working(stage: Stage, calls: seq<Call>, raised: set<ClaimId>): State {
    State({"s"}, Idle, map[0 := Runner("s", 0, stage)], ["s"], calls, raised)
  }

  lemma Moves(stage: Stage, next: Stage, calls: seq<Call>, raised: set<ClaimId>)
    ensures To(Working(stage, calls, raised), 0, next) == Working(next, calls, raised)
  {
    assert Working(stage, calls, raised).runners[0 := Runner("s", 0, next)] == Working(next, calls, raised).runners;
  }

  /** Every step of the thread but the last. */
  lemma Goes(a: Action, stage: Stage, next: Stage, calls: seq<Call>, raised: set<ClaimId>, calls': seq<Call>, raised': set<ClaimId>)
    requires !ByDrain(a) && a.thread == 0
    requires Next(Working(stage, calls, raised), a) == Some(To(Working(stage, calls, raised), 0, next).(calls := calls', raised := raised'))
    ensures Next(Working(stage, calls, raised), a) == Some(Working(next, calls', raised'))
  {
    Moves(stage, next, calls, raised);
  }

  lemma Follow(s: State, actions: seq<Action>, i: nat, s': State)
    requires i < |actions| && Next(s, actions[i]) == Some(s')
    ensures Run(s, actions[i..]) == Run(s', actions[i + 1..])
  {
    RunStep(s, actions, i);
  }

  lemma AdmittedRuns()
    ensures Run(START, ADMITTED) == Some(Working(Starting, [], {}))
  {
    hide Run, DrainStep, RunnerStep;
    var s := START.(inflight := {"s"});
    AdmittedSteps();
    Follow(START, ADMITTED, 0, START.(drain := Fresh("s")));
    Follow(START.(drain := Fresh("s")), ADMITTED, 1, START.(drain := Reserving("s")));
    Follow(START.(drain := Reserving("s")), ADMITTED, 2, s.(drain := Reserved("s")));
    Follow(s.(drain := Reserved("s")), ADMITTED, 3, s.(drain := Formatting("s", 0), claims := ["s"]));
    Follow(s.(drain := Formatting("s", 0), claims := ["s"]), ADMITTED, 4, s.(drain := Dispatching("s", 0), claims := ["s"]));
    Follow(s.(drain := Dispatching("s", 0), claims := ["s"]), ADMITTED, 5, Working(Starting, [], {}));
    assert ADMITTED[0..] == ADMITTED;
    RunEnds(Working(Starting, [], {}), ADMITTED);
  }

  lemma AdmittedSteps()
    ensures var s := START.(inflight := {"s"});
      && DrainStep(START, Take("s")) == Some(START.(drain := Fresh("s")))
      && DrainStep(START.(drain := Fresh("s")), LookBusy(false)) == Some(START.(drain := Reserving("s")))
      && DrainStep(START.(drain := Reserving("s")), Reserve) == Some(s.(drain := Reserved("s")))
      && DrainStep(s.(drain := Reserved("s")), Claim(Obtained)) == Some(s.(drain := Formatting("s", 0), claims := ["s"]))
      && DrainStep(s.(drain := Formatting("s", 0), claims := ["s"]), Format(true))
        == Some(s.(drain := Dispatching("s", 0), claims := ["s"]))
      && DrainStep(s.(drain := Dispatching("s", 0), claims := ["s"]), StartThread(true, 0)) == Some(Working(Starting, [], {}))
  {
    assert START.inflight + {"s"} == {"s"} && START.claims + ["s"] == ["s"];
    assert START.runners[0 := Runner("s", 0, Starting)] == Working(Starting, [], {}).runners;
  }

  lemma RunEnds(s: State, actions: seq<Action>)
    ensures Run(s, actions[|actions|..]) == Some(s)
  {
  }

  lemma Finishes(calls: seq<Call>, raised: set<ClaimId>)
    ensures Next(Working(Finishing, calls, raised), Finish(0)) == Some(State({}, Idle, map[], ["s"], calls, raised))
  {
    var last := Working(Finishing, calls, raised);
    assert last.runners - {0} == map[] && last.inflight - {"s"} == {};
  }

  lemma WindsUp(calls: seq<Call>, raised: set<ClaimId>)
    ensures Run(Working(Handling, calls, raised), WOUND_UP)
      == Some(State({}, Idle, map[], ["s"], calls + [Release(0)], raised))
  {
    hide Run;
    Goes(ReleaseHandling(0), Handling, Rearming, calls, raised, calls + [Release(0)], raised);
    Goes(Rearm(0), Rearming, Finishing, calls + [Release(0)], raised, calls + [Release(0)], raised);
    Finishes(calls + [Release(0)], raised);
    RunStep(Working(Handling, calls, raised), WOUND_UP, 0);
    RunStep(Working(Rearming, calls + [Release(0)], raised), WOUND_UP, 1);
    RunStep(Working(Finishing, calls + [Release(0)], raised), WOUND_UP, 2);
    RunEnds(State({}, Idle, map[], ["s"], calls + [Release(0)], raised), WOUND_UP);
    assert WOUND_UP[0..] == WOUND_UP;
  }

  /** An acknowledgement that raises after it completed the claim is followed by a release of the same
      claim. One that raises without effect is not a completion: the release is the only resolution. */
  lemma RaisedAcknowledgements()
    ensures Run(START, AcknowledgementRun(RaisedAfter)).Some? && Run(START, AcknowledgementRun(RaisedBefore)).Some?
    ensures Run(START, AcknowledgementRun(RaisedAfter)).value.calls == [Complete(0), Release(0)]
    ensures Run(START, AcknowledgementRun(RaisedBefore)).value.calls == [Release(0)]
  {
    hide Run;
    AdmittedRuns();
    forall ack: AckAnswer | !ack.Acknowledged?
      ensures var s := if ack.RaisedAfter? then Working(Handling, [Complete(0)], {0}) else Working(Handling, [], {});
        Run(START, AcknowledgementRun(ack)) == Run(s, WOUND_UP)
    {
      var middle := [Answer(0, TurnAccepted), Acknowledge(0, ack)];
      Goes(Answer(0, TurnAccepted), Starting, Accepted, [], {}, [], {});
      if ack.RaisedAfter? {
        assert [] + [Complete(0)] == [Complete(0)] && {} + {0} == {0};
        Goes(Acknowledge(0, ack), Accepted, Handling, [], {}, [Complete(0)], {0});
      } else {
        Goes(Acknowledge(0, ack), Accepted, Handling, [], {}, [], {});
      }
      RunAppend(START, ADMITTED + middle, WOUND_UP);
      RunAppend(START, ADMITTED, middle);
      RunStep(Working(Starting, [], {}), middle, 0);
      RunStep(Working(Accepted, [], {}), middle, 1);
      assert middle[0..] == middle;
      RunEnds(if ack.RaisedAfter? then Working(Handling, [Complete(0)], {0}) else Working(Handling, [], {}), middle);
    }
    WindsUp([Complete(0)], {0});
    WindsUp([], {});
  }

  /** When the retry after a refusal raises, the claim is released twice. */
  lemma RaisedRetryReleasesTwice()
    ensures Run(START, RetryRun()).Some? && Run(START, RetryRun()).value.calls == [Release(0), Release(0)]
  {
    hide Run;
    AdmittedRuns();
    var middle := [Answer(0, TurnRefused), ReleaseRefused(0), Retry(0, true)];
    Goes(Answer(0, TurnRefused), Starting, Refused, [], {}, [], {});
    assert [] + [Release(0)] == [Release(0)] && {} + {0} == {0};
    Goes(ReleaseRefused(0), Refused, Retrying, [], {}, [Release(0)], {});
    Goes(Retry(0, true), Retrying, Handling, [Release(0)], {}, [Release(0)], {0});
    RunAppend(START, ADMITTED + middle, WOUND_UP);
    RunAppend(START, ADMITTED, middle);
    RunStep(Working(Starting, [], {}), middle, 0);
    RunStep(Working(Refused, [], {}), middle, 1);
    RunStep(Working(Retrying, [Release(0)], {}), middle, 2);
    assert middle[0..] == middle;
    RunEnds(Working(Handling, [Release(0)], {0}), middle);
    WindsUp([Release(0)], {0});
  }

  // ---- The way out ----

  /** Steps an owner still has to take before the slot is free, at most. */
  function Remaining(s: State, o: Owner): nat {
    match o
    case TheDrain => (
      match s.drain
      case Reserved(_) => 5
      case Formatting(_, _) => 4
      case Dispatching(_, _) => 3
      case Dropping(_, _) => 2
      case Leaving(_) => 1
      case _ => 0)
    case Thread(id) =>
      if id !in s.runners then 0
      else
        match s.runners[id].stage
        case Starting => 6
        case Accepted => 5
        case Refused => 5
        case Retrying => 4
        case Handling => 3
        case Rearming => 2
        case Finishing => 1
  }

  predicate TakenBy(a: Action, o: Owner) {
    match o
    case TheDrain => ByDrain(a)
    case Thread(id) => !ByDrain(a) && a.thread == id
  }

  /** No exit path strands a slot: whatever its owner does next, the slot is free, or a started
      thread owns it, or the owner has fewer steps left. */
  lemma SlotIsOnItsWayOut(s: State, o: Owner, sid: SessionId, a: Action)
    requires Inv(s) && OwnsSlot(s, o, sid) && TakenBy(a, o) && Next(s, a).Some?
    ensures var s' := Next(s, a).value;
      || sid !in s'.inflight
      || (a.StartThread? && OwnsSlot(s', Thread(a.thread), sid))
      || (OwnsSlot(s', o, sid) && Remaining(s', o) < Remaining(s, o))
  {
    hide ClaimsOk, SlotsOk;
  }

  /** The owner of a slot can always go on, whatever the others do. */
  lemma OwnersCanGoOn(s: State, o: Owner, sid: SessionId) returns (a: Action)
    requires OwnsSlot(s, o, sid)
    ensures TakenBy(a, o) && Next(s, a).Some?
  {
    match o {
      case TheDrain =>
        if s.drain.Reserved? {
          a := Claim(NotObtained);
        } else if s.drain.Formatting? {
          a := Format(true);
        } else if s.drain.Dispatching? {
          var id := Unused(s.runners.Keys);
          a := StartThread(true, id);
        } else if s.drain.Dropping? {
          a := Drop;
        } else {
          a := Leave;
        }
      case Thread(id) =>
        match s.runners[id].stage {
          case Starting => a := Answer(id, TurnAccepted);
          case Accepted => a := Acknowledge(id, Acknowledged);
          case Refused => a := ReleaseRefused(id);
          case Retrying => a := Retry(id, false);
          case Handling => a := ReleaseHandling(id);
          case Rearming => a := Rearm(id);
          case Finishing => a := Finish(id);
        }
    }
  }

  /** Whose steps these are: the owner's, or those of the thread it starts. */
  predicate TakenByHeirs(actions: seq<Action>, o: Owner, heir: Owner) {
    && (forall i | 0 <= i < |actions| :: TakenBy(actions[i], o) || TakenBy(actions[i], heir))
    && (heir == o || (o.TheDrain? && heir.Thread? && StartThread(true, heir.id) in actions))
  }

  /** The slot gets free by steps of its owner, or of the thread that inherits it, alone. */
  lemma {:induction false} WayOut(s: State, o: Owner, sid: SessionId) returns (actions: seq<Action>, heir: Owner)
    requires Inv(s) && OwnsSlot(s, o, sid)
    ensures Run(s, actions).Some? && sid !in Run(s, actions).value.inflight
    ensures TakenByHeirs(actions, o, heir)
    ensures |actions| <= Remaining(s, o) + if o.TheDrain? then 5 else 0
    decreases o.TheDrain?, Remaining(s, o)
  {
    hide Next, Inv, OwnsSlot, TakenBy, Remaining;
    var a := OwnersCanGoOn(s, o, sid);
    var s' := Next(s, a).value;
    StepKeeps(s, a);
    SlotIsOnItsWayOut(s, o, sid, a);
    assert sid !in s'.inflight ==> Run(s, [a]) == Some(s') by {
      assert [a][1..] == [];
    }
    if sid !in s'.inflight {
      RemainsSome(s, o, sid);
      actions, heir := [a], o;
      assert TakenByHeirs(actions, o, o);
    } else if a.StartThread? && OwnsSlot(s', Thread(a.thread), sid) {
      StartedAt(s, o, sid, a);
      var more, next := WayOut(s', Thread(a.thread), sid);
      actions, heir := [a] + more, next;
      assert actions[1..] == more;
      assert next == Thread(a.thread);
    } else {
      var more, next := WayOut(s', o, sid);
      actions, heir := [a] + more, next;
      assert actions[1..] == more;
    }
  }

  lemma RemainsSome(s: State, o: Owner, sid: SessionId)
    requires OwnsSlot(s, o, sid)
    ensures Remaining(s, o) > 0
  {
  }

  lemma StartedAt(s: State, o: Owner, sid: SessionId, a: Action)
    requires OwnsSlot(s, o, sid) && TakenBy(a, o) && a.StartThread? && Next(s, a).Some?
    requires OwnsSlot(Next(s, a).value, Thread(a.thread), sid)
    ensures o == TheDrain && a == StartThread(true, a.thread)
    ensures Remaining(s, o) == 3 && Remaining(Next(s, a).value, Thread(a.thread)) == 6
  {
  }

  /** From every reachable state, whoever owns a slot, at most ten steps of the owner alone, or of the
      owner and the thread it starts, leave the slot free. */
  lemma SlotGetsFree(actions: seq<Action>, o: Owner, sid: SessionId) returns (more: seq<Action>, heir: Owner)
    requires Run(START, actions).Some? && OwnsSlot(Run(START, actions).value, o, sid)
    ensures |more| <= 10 && TakenByHeirs(more, o, heir)
    ensures Run(START, actions + more).Some? && sid !in Run(START, actions + more).value.inflight
  {
    hide Next, Inv, OwnsSlot, Run, TakenByHeirs;
    StartInv();
    RunKeeps(START, actions);
    more, heir := WayOut(Run(START, actions).value, o, sid);
    RunAppend(START, actions, more);
  }

  lemma Unused(used: set<ThreadId>) returns (id: ThreadId)
    ensures id !in used
  {
    id := 0;
    var below: set<ThreadId> := {};
    while id in used
      invariant below <= used && |below| == id && forall x | x in below :: x < id
      decreases |used| - |below|
    {
      below := below + {id};
      id := id + 1;
      assert used == below + (used - below);
    }
  }
}
