/** The order in which an owner of a delegation acts, and what every answer it gets leads to. */
module DelegationDecisions {
  import opened DelegationAdmission
  import opened Options

  /** `b` is what the program does after `a`, given the answer in `a`. */
  predicate ComesAfter(a: Action, b: Action) {
    match a
    case Take(_) => b.LookBusy?
    case LookBusy(busy) => if busy then b.Take? else b.Reserve?
    case Reserve => b.Claim? || b.Take?
    case Claim(answer) => if answer == Obtained then b.Format? else b.Leave?
    case Format(formatted) => if formatted then b.StartThread? else b.Drop?
    case StartThread(started, _) => if started then b.Take? else b.Drop?
    case Drop => b.Leave?
    case Leave => b.Take?
    case Answer(_, turn) =>
      if turn == TurnAccepted then b.Acknowledge? else if turn == TurnRefused then b.ReleaseRefused? else b.ReleaseHandling?
    case Acknowledge(_, ack) => if ack == Acknowledged then b.Finish? else b.ReleaseHandling?
    case ReleaseRefused(_) => b.Retry?
    case Retry(_, raises) => if raises then b.ReleaseHandling? else b.Finish?
    case ReleaseHandling(_) => b.Rearm?
    case Rearm(_) => b.Finish?
    case Finish(_) => false
  }

  predicate NoneBy(actions: seq<Action>, o: Owner) {
    forall i | 0 <= i < |actions| :: !TakenBy(actions[i], o)
  }

  lemma DrainFrame(s: State, a: Action)
    requires Next(s, a).Some? && !ByDrain(a)
    ensures Next(s, a).value.drain == s.drain
  {
  }

  lemma ThreadFrame(s: State, a: Action, id: ThreadId)
    requires Next(s, a).Some? && !TakenBy(a, Thread(id)) && id in s.runners
    ensures id in Next(s, a).value.runners && Next(s, a).value.runners[id] == s.runners[id]
  {
  }

  lemma {:induction false} DrainStays(s: State, actions: seq<Action>)
    requires NoneBy(actions, TheDrain) && Run(s, actions).Some?
    ensures Run(s, actions).value.drain == s.drain
    decreases |actions|
  {
    hide Next;
    if actions != [] {
      assert forall i | 0 <= i < |actions[1..]| :: actions[1..][i] == actions[i + 1];
      DrainFrame(s, actions[0]);
      DrainStays(Next(s, actions[0]).value, actions[1..]);
    }
  }

  lemma {:induction false} ThreadStays(s: State, actions: seq<Action>, id: ThreadId)
    requires NoneBy(actions, Thread(id)) && Run(s, actions).Some? && id in s.runners
    ensures id in Run(s, actions).value.runners && Run(s, actions).value.runners[id] == s.runners[id]
    decreases |actions|
  {
    hide Next;
    if actions != [] {
      assert forall i | 0 <= i < |actions[1..]| :: actions[1..][i] == actions[i + 1];
      ThreadFrame(s, actions[0], id);
      ThreadStays(Next(s, actions[0]).value, actions[1..], id);
    }
  }

  lemma RunThrough(actions: seq<Action>, a: Action, between: seq<Action>)
    requires Run(START, actions + [a] + between).Some?
    ensures Run(START, actions).Some? && Next(Run(START, actions).value, a).Some?
    ensures Run(START, actions + [a] + between) == Run(Next(Run(START, actions).value, a).value, between)
  {
    hide Next;
    RunAppend(START, actions + [a], between);
    RunAppend(START, actions, [a]);
    assert [a][1..] == [];
  }

  /** In every run, the next step of the drain thread or of a wakeup thread is the one that the answer to
      its last step calls for, whatever the others do in between. In particular a busy session costs
      nothing: the drain thread goes on to the next completion without slot and claim. */
  lemma OwnStepsFollow(actions: seq<Action>, a: Action, between: seq<Action>, b: Action, o: Owner)
    requires Run(START, actions + [a] + between).Some? && !a.Finish?
    requires TakenBy(a, o) && NoneBy(between, o) && TakenBy(b, o)
    requires Next(Run(START, actions + [a] + between).value, b).Some?
    ensures ComesAfter(a, b)
    ensures a.Reserve? ==>
      Run(START, actions).Some? && Run(START, actions).value.drain.Reserving?
      && (b.Claim? <==> Run(START, actions).value.drain.sid !in Run(START, actions).value.inflight)
  {
    hide Run, NoneBy;
    RunThrough(actions, a, between);
    var s := Next(Run(START, actions).value, a).value;
    match o
    case TheDrain => DrainStays(s, between);
    case Thread(id) => ThreadStays(s, between, id);
  }

  /** A look at a busy session, and a reservation of a taken slot, leave slots, claims and calls alone. */
  lemma DeferringIsFree(actions: seq<Action>, a: Action)
    requires a == LookBusy(true) || a == Reserve
    requires Run(START, actions + [a]).Some? && Run(START, actions + [a]).value.drain == Idle
    ensures Run(START, actions).Some?
    ensures Run(START, actions + [a]).value == Run(START, actions).value.(drain := Idle)
  {
    hide Run;
    assert actions + [a] + [] == actions + [a];
    RunThrough(actions, a, []);
    NothingRuns(Next(Run(START, actions).value, a).value);
  }

  lemma NothingRuns(s: State)
    ensures Run(s, []) == Some(s)
  {
  }

  /** Every step makes the calls its name says, about the claim its taker carries, and only a successful
      claim adds a claim, for the session whose slot was reserved. */
  lemma StepsMakeCalls(s: State, a: Action)
    requires Next(s, a).Some?
    ensures var s' := Next(s, a).value;
      && (a.Drop? ==> s.drain.Dropping? && s'.calls == s.calls + [Release(s.drain.claim)])
      && (a.ReleaseRefused? || a.ReleaseHandling? ==>
          a.thread in s.runners && s'.calls == s.calls + [Release(s.runners[a.thread].claim)])
      && (a.Acknowledge? && a.ack != RaisedBefore ==>
          a.thread in s.runners && s'.calls == s.calls + [Complete(s.runners[a.thread].claim)])
      && (a.Acknowledge? && a.ack == RaisedBefore ==> s'.calls == s.calls)
      && (!a.Drop? && !a.ReleaseRefused? && !a.ReleaseHandling? && !a.Acknowledge? ==> s'.calls == s.calls)
      && (if a == Claim(Obtained) then s.drain.Reserved? && s'.claims == s.claims + [s.drain.sid] && OwnsClaim(s', TheDrain, |s.claims|)
          else s'.claims == s.claims)
      && (a.StartThread? && a.started ==>
          s.drain.Dispatching? && OwnsClaim(s', Thread(a.thread), s.drain.claim) && OwnsSlot(s', Thread(a.thread), s.drain.sid))
  {
  }
}
