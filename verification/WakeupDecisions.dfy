/** What every look at a session leads to: an idle one to a turn, a busy one to the queue, and a turn
    teardown that finds the session idle to the oldest wakeup in its queue. */
module WakeupDecisions {
  import opened Options
  import opened Text
  import opened WakeupProtocol
  import opened WakeupSafety
  import opened WakeupStore

  // ---- Runs in parts ----

  lemma {:induction false} RunAppend(s: State, a: seq<Action>, b: seq<Action>)
    ensures Run(s, a + b) == match Run(s, a) case None => None case Some(s') => Run(s', b)
    decreases |a|
  {
    hide Next;
    if a == [] {
      assert a + b == b;
    } else {
      assert (a + b)[0] == a[0] && (a + b)[1..] == a[1..] + b;
      if Next(s, a[0]).Some? {
        RunAppend(Next(s, a[0]).value, a[1..], b);
      }
    }
  }

  lemma OneStep(s: State, a: Action)
    ensures Run(s, [a]) == Next(s, a)
  {
    hide Next;
    assert [a][1..] == [];
  }

  /** A step and then others. */
  lemma RunThrough(actions: seq<Action>, a: Action, between: seq<Action>)
    requires Run(START, actions + [a] + between).Some?
    ensures Run(START, actions).Some? && Next(Run(START, actions).value, a).Some?
    ensures Run(START, actions + [a] + between) == Run(Next(Run(START, actions).value, a).value, between)
  {
    hide Next;
    RunAppend(START, actions + [a], between);
    RunAppend(START, actions, [a]);
    OneStep(Run(START, actions).value, a);
  }

  predicate NoneByDrain(actions: seq<Action>) {
    forall i | 0 <= i < |actions| :: !ByDrain(actions[i])
  }

  lemma {:induction false} DrainStays(s: State, actions: seq<Action>)
    requires NoneByDrain(actions) && Run(s, actions).Some?
    ensures Run(s, actions).value.drain == s.drain && Run(s, actions).value.admitted == s.admitted
    decreases |actions|
  {
    hide Next, ByDrain;
    if actions != [] {
      assert forall i | 0 <= i < |actions[1..]| :: actions[1..][i] == actions[i + 1];
      GatesFrame(s, actions[0]);
      DrainStays(Next(s, actions[0]).value, actions[1..]);
    }
  }

  // ---- The drain thread's look ----

  /** In every run, when the drain thread holds a marked completion with a prompt and looks, its next step,
      whatever the others do before it, is the one the look calls for. After an idle look it is a spawn,
      and the wakeup is in a thread that runs its prompt in its session. After a busy look it is a
      deferral, and the wakeup is in the queue of its session. */
  lemma LookDecides(actions: seq<Action>, busy: bool, between: seq<Action>, a: Action)
    requires Run(START, actions + [Dispatch(busy)] + between).Some? && NoneByDrain(between) && ByDrain(a)
    requires var s := Run(START, actions); s.Some? && s.value.drain.Holding? && s.value.drain.stage == Marked && s.value.drain.entry.prompt != ""
    requires Next(Run(START, actions + [Dispatch(busy)] + between).value, a).Some?
    ensures var e := Run(START, actions).value.drain.entry;
      var s := Run(START, actions + [Dispatch(busy)] + between).value;
      var s' := Next(s, a).value;
      && e.ticket < |s.admitted| && s'.admitted == s.admitted
      && var completion := s.admitted[e.ticket];
      if busy then a == Defer && At(s', InQueue(completion.sid), e.ticket)
      else
        && a.Spawn? && At(s', InThread(a.thread), e.ticket)
        && s'.wakeups[a.thread] == Wakeup(completion.sid, Entry(e.ticket, completion.pid, completion.prompt), false)
  {
    hide Run, At, Next, NoneByDrain, ByDrain, Inv;
    RunThrough(actions, Dispatch(busy), between);
    var s0 := Run(START, actions).value;
    var s1 := Next(s0, Dispatch(busy)).value;
    Dispatches(s0, busy);
    DrainStays(s1, between);
    var s := Run(s1, between).value;
    StartInv();
    var w := RunKeeps(START, map[], actions + [Dispatch(busy)] + between);
    Follows(s, w, a);
  }

  lemma Dispatches(s: State, busy: bool)
    requires s.drain.Holding? && s.drain.stage == Marked && s.drain.entry.prompt != ""
    requires Next(s, Dispatch(busy)).Some?
    ensures Next(s, Dispatch(busy)).value.drain == Holding(if busy then Deferring else Spawning, s.drain.sid, s.drain.entry)
  {
  }

  lemma Follows(s: State, w: Places, a: Action)
    requires Inv(s, w) && s.drain.Holding? && s.drain.stage in {Deferring, Spawning} && ByDrain(a) && Next(s, a).Some?
    ensures var (s', e) := (Next(s, a).value, s.drain.entry);
      && e.ticket < |s.admitted| && s'.admitted == s.admitted
      && var completion := s.admitted[e.ticket];
      if s.drain.stage.Deferring? then a == Defer && At(s', InQueue(completion.sid), e.ticket)
      else
        && a.Spawn? && At(s', InThread(a.thread), e.ticket)
        && s'.wakeups[a.thread] == Wakeup(completion.sid, Entry(e.ticket, completion.pid, completion.prompt), false)
  {
    hide At, Gated, Logged, PromptsOk, QueuesOk, TeardownsOk, ThreadsOk, EndedOk, Recorded;
    if s.drain.stage.Deferring? {
      DeferKeeps(s, w);
      assert At(Next(s, a).value, w[s.drain.entry.ticket := InQueue(s.drain.sid)][s.drain.entry.ticket], s.drain.entry.ticket);
    } else {
      SpawnKeeps(s, w, a.thread);
      assert At(Next(s, a).value, w[s.drain.entry.ticket := InThread(a.thread)][s.drain.entry.ticket], s.drain.entry.ticket);
    }
  }

  /** A completion with nothing to say ends there, busy or not. */
  lemma SilentEnds(actions: seq<Action>, busy: bool)
    requires Run(START, actions + [Dispatch(busy)]).Some?
    requires var s := Run(START, actions); s.Some? && s.value.drain.Holding? && s.value.drain.entry.prompt == ""
    ensures var s := Run(START, actions + [Dispatch(busy)]).value;
      var t := Run(START, actions).value.drain.entry.ticket;
      t in s.outcomes && s.outcomes[t] == Silent && s.drain == Idle && s.started == Run(START, actions).value.started
  {
    hide Run;
    RunAppend(START, actions, [Dispatch(busy)]);
    OneStep(Run(START, actions).value, Dispatch(busy));
  }

  // ---- The duplicate gates ----

  /** A completion of process `pid` was admitted, or another consumer took it. */
  ghost predicate Known(s: State, actions: seq<Action>, pid: ProcessId) {
    ConsumedElsewhere(pid) in actions || exists t :: 0 <= t < |s.admitted| && s.admitted[t].pid == pid
  }

  ghost predicate GatesKnow(s: State, actions: seq<Action>) {
    && (forall pid | pid in s.consumed :: Known(s, actions, pid))
    && (forall sid, pid | pid in Seen(s, sid) :: Known(s, actions, pid))
    && (s.drain.Holding? ==> s.drain.entry.ticket < |s.admitted| && s.admitted[s.drain.entry.ticket].pid == s.drain.entry.pid)
  }

  lemma GatesStep(s: State, actions: seq<Action>, a: Action)
    requires GatesKnow(s, actions) && Next(s, a).Some?
    ensures GatesKnow(Next(s, a).value, actions + [a])
  {
    hide Strip, Recorded, Speaking, Queue;
    var s' := Next(s, a).value;
    GatesGrow(s, a);
    assert (actions + [a])[|actions|] == a && forall x | x in actions :: x in actions + [a];
    forall pid | Known(s, actions, pid) ensures Known(s', actions + [a], pid) {
      if ConsumedElsewhere(pid) !in actions {
        var t :| 0 <= t < |s.admitted| && s.admitted[t].pid == pid;
        assert s'.admitted[t].pid == pid;
      }
    }
    SeenGrows(s, a);
    hide Next, Seen;
    forall sid, pid | pid in Seen(s', sid) ensures Known(s', actions + [a], pid) {
    }
    forall pid | pid in s'.consumed ensures Known(s', actions + [a], pid) {
    }
  }

  /** Whoever enters the gates' memory is admitted. */
  lemma SeenGrows(s: State, a: Action)
    requires Next(s, a).Some?
    requires s.drain.Holding? ==> s.drain.entry.ticket < |s.admitted| && s.admitted[s.drain.entry.ticket].pid == s.drain.entry.pid
    ensures var s' := Next(s, a).value;
      && (forall sid, pid | pid in Seen(s', sid) ::
          pid in Seen(s, sid) || (|s'.admitted| > |s.admitted| && s'.admitted[|s.admitted|].pid == pid))
      && (forall pid | pid in s'.consumed ::
          || pid in s.consumed || a == ConsumedElsewhere(pid)
          || (s.drain.Holding? && s'.admitted == s.admitted && s.admitted[s.drain.entry.ticket].pid == pid))
      && (s'.drain.Holding? ==> s'.drain.entry.ticket < |s'.admitted| && s'.admitted[s'.drain.entry.ticket].pid == s'.drain.entry.pid)
  {
    hide TeardownStep, Strip, Recorded;
    GatesGrow(s, a);
    if !ByDrain(a) {
      hide DrainStep;
    }
  }

  lemma GatesGrow(s: State, a: Action)
    requires Next(s, a).Some?
    ensures var s' := Next(s, a).value;
      && s.admitted <= s'.admitted
      && (!a.MarkConsumed? && !a.ConsumedElsewhere? ==> s'.consumed == s.consumed)
      && (!a.CheckSeen? ==> s'.seen == s.seen && s'.admitted == s.admitted)
      && (!ByDrain(a) ==> s'.drain == s.drain)
  {
    hide DrainStep, TeardownStep;
    if ByDrain(a) {
      DrainGrows(s, a);
    } else if ByTeardown(a) {
      TeardownGrows(s, a);
    }
  }

  lemma DrainGrows(s: State, a: Action)
    requires ByDrain(a) && DrainStep(s, a).Some?
    ensures var s' := DrainStep(s, a).value;
      && s.admitted <= s'.admitted
      && (!a.MarkConsumed? ==> s'.consumed == s.consumed)
      && (!a.CheckSeen? ==> s'.seen == s.seen && s'.admitted == s.admitted)
  {
    hide Strip, Recorded, Seen;
  }

  lemma TeardownGrows(s: State, a: Action)
    requires ByTeardown(a) && TeardownStep(s, a).Some?
    ensures var s' := TeardownStep(s, a).value;
      s'.admitted == s.admitted && s'.consumed == s.consumed && s'.seen == s.seen && s'.drain == s.drain
  {
    hide Recorded, Speaking, Queue;
  }

  lemma {:induction false} GatesRun(actions: seq<Action>)
    requires Run(START, actions).Some?
    ensures GatesKnow(Run(START, actions).value, actions)
    decreases |actions|
  {
    hide Next;
    if actions != [] {
      var (before, a) := (actions[..|actions| - 1], actions[|actions| - 1]);
      assert actions == before + [a];
      RunAppend(START, before, [a]);
      OneStep(Run(START, before).value, a);
      GatesRun(before);
      GatesStep(Run(START, before).value, before, a);
    }
  }

  /** The gates drop duplicates only. In every run, a completion that a gate drops has a process id, and
      a completion of that process was admitted before or taken by another consumer. */
  lemma OnlyDuplicatesAreDropped(actions: seq<Action>, gate: Action)
    requires Run(START, actions + [gate]).Some? && gate in {CheckConsumed, CheckSeen}
    requires Run(START, actions + [gate]).value.drain == Idle
    ensures Run(START, actions).Some?
    ensures var d := Run(START, actions).value.drain;
      && (d.Taken? || d.Unconsumed?) && d.event.pid != "" && Known(Run(START, actions).value, actions, d.event.pid)
  {
    hide Run;
    RunAppend(START, actions, [gate]);
    OneStep(Run(START, actions).value, gate);
    GatesRun(actions);
  }

  /** What both gates let through is admitted, with its own session, process and prompt. */
  lemma FreshIsAdmitted(actions: seq<Action>)
    requires Run(START, actions + [CheckSeen]).Some? && Run(START, actions + [CheckSeen]).value.drain != Idle
    ensures Run(START, actions).Some? && Run(START, actions).value.drain.Unconsumed?
    ensures var (s, s') := (Run(START, actions).value, Run(START, actions + [CheckSeen]).value);
      var e := s.drain.event;
      && s'.admitted == s.admitted + [e] && s'.drain == Holding(Admitted, e.sid, Entry(|s.admitted|, e.pid, e.prompt))
      && (e.pid != "" ==> e.pid in Seen(s', e.sid))
  {
    hide Run;
    RunAppend(START, actions, [CheckSeen]);
    OneStep(Run(START, actions).value, CheckSeen);
  }

  lemma ConsumedGrows(s: State, a: Action)
    requires Next(s, a).Some?
    ensures s.consumed <= Next(s, a).value.consumed
  {
    hide TeardownStep, Seen, Strip, Recorded;
    GatesGrow(s, a);
  }

  lemma {:induction false} ConsumedStays(s: State, actions: seq<Action>)
    requires Run(s, actions).Some?
    ensures s.consumed <= Run(s, actions).value.consumed
    decreases |actions|
  {
    hide Next;
    if actions != [] {
      ConsumedGrows(s, actions[0]);
      ConsumedStays(Next(s, actions[0]).value, actions[1..]);
    }
  }

  /** Once a process is marked as consumed, by this drain or by another consumer, every completion of it
      that the drain checks from then on is dropped, and nothing else happens. */
  lemma ConsumedIsDropped(actions: seq<Action>, mark: Action, between: seq<Action>, pid: ProcessId)
    requires pid != "" && Run(START, actions + [mark] + between).Some?
    requires mark == ConsumedElsewhere(pid)
      || (mark.MarkConsumed? && Run(START, actions).Some? && Run(START, actions).value.drain.Holding?
          && Run(START, actions).value.drain.entry.pid == pid)
    requires var s := Run(START, actions + [mark] + between).value; s.drain.Taken? && s.drain.event.pid == pid
    ensures var s := Run(START, actions + [mark] + between).value;
      Next(s, CheckConsumed) == Some(s.(drain := Idle))
  {
    hide Run;
    RunThrough(actions, mark, between);
    ConsumedStays(Next(Run(START, actions).value, mark).value, between);
  }

  // ---- Wakeup threads ----

  /** The log tells what `start_session_turn` answered: only an accepted turn is a started one, and a lost
      race is no end at all. */
  lemma AnswersAreLogged(actions: seq<Action>, id: ThreadId, answer: Answer)
    requires Run(START, actions + [Answered(id, answer)]).Some?
    ensures Run(START, actions).Some? && id in Run(START, actions).value.wakeups
    ensures var (s, s') := (Run(START, actions).value, Run(START, actions + [Answered(id, answer)]).value);
      var e := s.wakeups[id].entry;
      if answer.Conflict? then
        && s'.outcomes == s.outcomes && s'.started == s.started
        && id in s'.wakeups && s'.wakeups[id] == Wakeup(s.wakeups[id].sid, e, true)
      else
        && id !in s'.wakeups && e.ticket in s'.outcomes
        && (s'.outcomes[e.ticket] == Started <==> answer.Accepted?)
        && (s'.outcomes[e.ticket] == Paused <==> answer.PausedConflict?)
        && s'.started == if answer.Accepted? then s.started + [Turn(e.ticket, s.wakeups[id].sid, e.prompt)] else s.started
  {
    hide Run;
    RunAppend(START, actions, [Answered(id, answer)]);
    OneStep(Run(START, actions).value, Answered(id, answer));
  }

  // ---- Turn teardowns ----

  predicate Own(a: Action, id: ThreadId) {
    ByTeardown(a) && a.thread == id
  }

  predicate NoneOwn(actions: seq<Action>, id: ThreadId) {
    forall i | 0 <= i < |actions| :: !Own(actions[i], id)
  }

  lemma TeardownFrame(s: State, a: Action, id: ThreadId)
    requires Next(s, a).Some? && !Own(a, id) && id in s.teardowns
    ensures id in Next(s, a).value.teardowns && Next(s, a).value.teardowns[id] == s.teardowns[id]
  {
    hide DrainStep, TeardownStep;
    if ByDrain(a) {
      DrainKeepsTeardowns(s, a);
    } else if ByTeardown(a) {
      OthersKeep(s, a, id);
    }
  }

  lemma DrainKeepsTeardowns(s: State, a: Action)
    requires ByDrain(a) && DrainStep(s, a).Some?
    ensures DrainStep(s, a).value.teardowns == s.teardowns
  {
    hide Strip, Recorded, Seen;
  }

  lemma OthersKeep(s: State, a: Action, id: ThreadId)
    requires ByTeardown(a) && TeardownStep(s, a).Some? && a.thread != id && id in s.teardowns
    ensures id in TeardownStep(s, a).value.teardowns && TeardownStep(s, a).value.teardowns[id] == s.teardowns[id]
  {
    hide Recorded, Speaking, Queue;
  }

  lemma {:induction false} TeardownStays(s: State, actions: seq<Action>, id: ThreadId)
    requires NoneOwn(actions, id) && Run(s, actions).Some? && id in s.teardowns
    ensures id in Run(s, actions).value.teardowns && Run(s, actions).value.teardowns[id] == s.teardowns[id]
    decreases |actions|
  {
    hide Next, Own;
    if actions != [] {
      assert forall i | 0 <= i < |actions[1..]| :: actions[1..][i] == actions[i + 1];
      TeardownFrame(s, actions[0], id);
      TeardownStays(Next(s, actions[0]).value, actions[1..], id);
    }
  }

  /** A teardown that finds its session busy leaves everything alone and is over. */
  lemma BusyTeardownLeaves(actions: seq<Action>, id: ThreadId)
    requires Run(START, actions + [CheckBusy(id, true)]).Some?
    ensures Run(START, actions).Some?
    ensures var (s, s') := (Run(START, actions).value, Run(START, actions + [CheckBusy(id, true)]).value);
      && id !in s'.teardowns && s' == s.(teardowns := s.teardowns - {id})
      && forall a | Own(a, id) :: Next(s', a).None?
  {
    hide Run;
    RunAppend(START, actions, [CheckBusy(id, true)]);
    OneStep(Run(START, actions).value, CheckBusy(id, true));
  }

  /** A teardown that finds its session idle goes on to peek, whatever the others do before that. When the
      queue is not empty then, it goes on to claim, and otherwise it is over. */
  lemma IdleTeardownPeeks(actions: seq<Action>, id: ThreadId, between: seq<Action>, a: Action)
    requires Run(START, actions + [CheckBusy(id, false)] + between).Some? && NoneOwn(between, id) && Own(a, id)
    requires Next(Run(START, actions + [CheckBusy(id, false)] + between).value, a).Some?
    ensures var s := Run(START, actions + [CheckBusy(id, false)] + between).value;
      var s' := Next(s, a).value;
      && a == Peek(id) && id in s.teardowns && s'.deferred == s.deferred && s'.wakeups == s.wakeups
      && if Queue(s.deferred, s.teardowns[id].sid) == [] then id !in s'.teardowns
         else id in s'.teardowns && s'.teardowns[id] == Claiming(s.teardowns[id].sid)
  {
    hide Run, NoneOwn, Next, Own, Queue;
    RunThrough(actions, CheckBusy(id, false), between);
    var s0 := Run(START, actions).value;
    Idles(s0, id);
    TeardownStays(Next(s0, CheckBusy(id, false)).value, between, id);
    Peeks(Run(START, actions + [CheckBusy(id, false)] + between).value, id, a);
  }

  lemma Idles(s: State, id: ThreadId)
    requires Next(s, CheckBusy(id, false)).Some?
    ensures var s' := Next(s, CheckBusy(id, false)).value; id in s'.teardowns && s'.teardowns[id].Peeking?
  {
  }

  lemma Peeks(s: State, id: ThreadId, a: Action)
    requires id in s.teardowns && s.teardowns[id].Peeking? && Own(a, id) && Next(s, a).Some?
    ensures var s' := Next(s, a).value;
      && a == Peek(id) && s'.deferred == s.deferred && s'.wakeups == s.wakeups
      && if Queue(s.deferred, s.teardowns[id].sid) == [] then id !in s'.teardowns
         else id in s'.teardowns && s'.teardowns[id] == Claiming(s.teardowns[id].sid)
  {
    hide Queue, Recorded, Speaking;
  }

  /** A teardown that peeked at a queue that was not empty goes on to claim. The claim takes the whole queue
      as it is then: its oldest wakeup is the first, and the others follow in order. Other queues stay as
      they are. */
  lemma PeekedTeardownClaims(actions: seq<Action>, id: ThreadId, between: seq<Action>, a: Action)
    requires Run(START, actions + [Peek(id)] + between).Some? && NoneOwn(between, id) && Own(a, id)
    requires var s := Run(START, actions); s.Some? && id in s.value.teardowns && Queue(s.value.deferred, s.value.teardowns[id].sid) != []
    requires Next(Run(START, actions + [Peek(id)] + between).value, a).Some?
    ensures var s := Run(START, actions + [Peek(id)] + between).value;
      var s' := Next(s, a).value;
      && a == ClaimAll(id) && id in s.teardowns
      && var (sid, q) := (s.teardowns[id].sid, Queue(s.deferred, s.teardowns[id].sid));
      && Queue(s'.deferred, sid) == [] && (forall other | other != sid :: Queue(s'.deferred, other) == Queue(s.deferred, other))
      && if q == [] then id !in s'.teardowns
         else id in s'.teardowns && s'.teardowns[id] == Owning(sid, q[0], q[1..])
  {
    hide Run, NoneOwn, Inv, Strip, Speaking;
    RunThrough(actions, Peek(id), between);
    var s0 := Run(START, actions).value;
    PeekKeepsOn(s0, id);
    var s1 := Next(s0, Peek(id)).value;
    TeardownStays(s1, between, id);
    var s := Run(s1, between).value;
    StartInv();
    var w := RunKeeps(START, map[], actions + [Peek(id)] + between);
    QueueSpeaks(s, w, s.teardowns[id].sid);
  }

  lemma PeekKeepsOn(s: State, id: ThreadId)
    requires Next(s, Peek(id)).Some? && Queue(s.deferred, s.teardowns[id].sid) != []
    ensures var s' := Next(s, Peek(id)).value; id in s'.teardowns && s'.teardowns[id].Claiming?
  {
  }

  /** What a teardown owns it puts back in order, and then starts the first, in its session. */
  lemma OwnerGoesOn(s: State, id: ThreadId, a: Action)
    requires id in s.teardowns && s.teardowns[id].Owning? && Own(a, id) && Next(s, a).Some?
    ensures var (s', o) := (Next(s, a).value, s.teardowns[id]);
      if o.rest != [] then
        && a == RedeferNext(id) && s'.deferred == Recorded(s.deferred, o.sid, o.rest[0])
        && id in s'.teardowns && s'.teardowns[id] == Owning(o.sid, o.first, o.rest[1..])
      else
        && a.SpawnFirst? && id !in s'.teardowns && s'.deferred == s.deferred
        && s'.wakeups == s.wakeups[a.wakeup := Wakeup(o.sid, o.first, false)]
  {
    hide Recorded;
  }

  // ---- A teardown nobody interferes with ----

  function PutBack(id: ThreadId, n: nat, wakeup: ThreadId): seq<Action> {
    if n == 0 then [SpawnFirst(id, wakeup)] else [RedeferNext(id)] + PutBack(id, n - 1, wakeup)
  }

  /** The steps of a whole teardown that finds its session idle, and `n + 1` wakeups in the queue. */
  function QuietTeardown(id: ThreadId, sid: SessionId, n: nat, wakeup: ThreadId): seq<Action> {
    [BeginTeardown(id, sid), CheckBusy(id, false), Peek(id), ClaimAll(id)] + PutBack(id, n, wakeup)
  }

  /** Only the queue of `sid`, the teardown and the new thread are touched. */
  ghost predicate Delivered(s: State, s': State, id: ThreadId, sid: SessionId, q: seq<Entry>, first: Entry, wakeup: ThreadId) {
    && Queue(s'.deferred, sid) == q && (forall other | other != sid :: Queue(s'.deferred, other) == Queue(s.deferred, other))
    && s'.wakeups == s.wakeups[wakeup := Wakeup(sid, first, false)]
    && s' == s.(deferred := s'.deferred, wakeups := s'.wakeups, teardowns := s.teardowns - {id})
  }

  lemma RunNext(s: State, a: Action, rest: seq<Action>)
    ensures Run(s, [a] + rest) == if Next(s, a).None? then None else Run(Next(s, a).value, rest)
  {
    hide Next;
    assert ([a] + rest)[1..] == rest;
  }

  lemma {:induction false} PutsBack(s: State, w: Places, id: ThreadId, wakeup: ThreadId)
    requires Inv(s, w) && id in s.teardowns && s.teardowns[id].Owning? && wakeup !in s.wakeups
    ensures var o := s.teardowns[id];
      var end := Run(s, PutBack(id, |o.rest|, wakeup));
      end.Some? && Delivered(s, end.value, id, o.sid, Queue(s.deferred, o.sid) + o.rest, o.first, wakeup)
    decreases |s.teardowns[id].rest|
  {
    hide Inv, Next, Run, Delivered;
    var o := s.teardowns[id];
    OneStep(s, SpawnFirst(id, wakeup));
    if o.rest == [] {
      FirstSpawns(s, id, wakeup);
    } else {
      NextPutBack(s, w, id);
      var s' := Next(s, RedeferNext(id)).value;
      var w' := StepKeeps(s, w, RedeferNext(id));
      PutsBack(s', w', id, wakeup);
      RunNext(s, RedeferNext(id), PutBack(id, |o.rest| - 1, wakeup));
      DeliveredThrough(s, s', Run(s', PutBack(id, |o.rest| - 1, wakeup)).value, id, wakeup);
    }
  }

  lemma FirstSpawns(s: State, id: ThreadId, wakeup: ThreadId)
    requires id in s.teardowns && s.teardowns[id].Owning? && s.teardowns[id].rest == [] && wakeup !in s.wakeups
    ensures var (o, end) := (s.teardowns[id], Next(s, SpawnFirst(id, wakeup)));
      end.Some? && Delivered(s, end.value, id, o.sid, Queue(s.deferred, o.sid) + o.rest, o.first, wakeup)
  {
    assert Queue(s.deferred, s.teardowns[id].sid) + [] == Queue(s.deferred, s.teardowns[id].sid);
  }

  lemma NextPutBack(s: State, w: Places, id: ThreadId)
    requires Inv(s, w) && id in s.teardowns && s.teardowns[id].Owning? && s.teardowns[id].rest != []
    ensures var o := s.teardowns[id];
      Next(s, RedeferNext(id))
        == Some(s.(deferred := s.deferred[o.sid := Queue(s.deferred, o.sid) + [o.rest[0]]],
                   teardowns := s.teardowns[id := o.(rest := o.rest[1..])]))
  {
    hide Inv, Recorded;
    Appended(s, w, id);
  }

  lemma DeliveredThrough(s: State, s': State, end: State, id: ThreadId, wakeup: ThreadId)
    requires id in s.teardowns && s.teardowns[id].Owning? && s.teardowns[id].rest != []
    requires var o := s.teardowns[id];
      && s' == s.(deferred := s.deferred[o.sid := Queue(s.deferred, o.sid) + [o.rest[0]]],
                  teardowns := s.teardowns[id := o.(rest := o.rest[1..])])
      && Delivered(s', end, id, o.sid, Queue(s'.deferred, o.sid) + o.rest[1..], o.first, wakeup)
    ensures var o := s.teardowns[id];
      Delivered(s, end, id, o.sid, Queue(s.deferred, o.sid) + o.rest, o.first, wakeup)
  {
    var o := s.teardowns[id];
    assert o.rest == [o.rest[0]] + o.rest[1..];
    assert s'.teardowns - {id} == s.teardowns - {id};
    assert Queue(s.deferred, o.sid) + o.rest == Queue(s'.deferred, o.sid) + o.rest[1..];
  }

  lemma Appended(s: State, w: Places, id: ThreadId)
    requires Inv(s, w) && id in s.teardowns && s.teardowns[id].Owning? && s.teardowns[id].rest != []
    ensures var o := s.teardowns[id];
      Recorded(s.deferred, o.sid, o.rest[0]) == s.deferred[o.sid := Queue(s.deferred, o.sid) + [o.rest[0]]]
  {
    hide Recorded, QueuesOk, ThreadsOk, DrainOk, EndedOk, Placed, Gated, Logged, PromptsOk, TicketsDiffer, Stands;
    var o := s.teardowns[id];
    var q := [o.first] + o.rest;
    assert AllAt(s, w, o.sid, q, InTeardown(id));
    assert q[1] == o.rest[0];
    QueueingAppends(s, w, o.sid, o.rest[0]);
  }

  /** After any run, a teardown of an idle session that nobody interferes with can be taken to its end: the oldest
      deferred wakeup is in a thread of its session, the others are in the queue in their old order, and
      nothing else changed. */
  lemma OldestIsDelivered(actions: seq<Action>, id: ThreadId, sid: SessionId, wakeup: ThreadId)
    requires Run(START, actions).Some?
    requires var s := Run(START, actions).value;
      sid != "" && id !in s.teardowns && wakeup !in s.wakeups && Queue(s.deferred, sid) != []
    ensures var s := Run(START, actions).value;
      var q := Queue(s.deferred, sid);
      var end := Run(START, actions + QuietTeardown(id, sid, |q| - 1, wakeup));
      end.Some? && Delivered(s, end.value, id, sid, q[1..], q[0], wakeup)
  {
    hide Run, Inv, Recorded, Delivered, PutBack;
    var s := Run(START, actions).value;
    var q := Queue(s.deferred, sid);
    var rest := PutBack(id, |q| - 1, wakeup);
    RunAppend(START, actions, QuietTeardown(id, sid, |q| - 1, wakeup));
    StartInv();
    var w := RunKeeps(START, map[], actions);
    Claims(s, w, id, sid, rest);
    var claimed := Claimed(s, id, sid);
    var w' := RunKeeps(s, w, [BeginTeardown(id, sid), CheckBusy(id, false), Peek(id), ClaimAll(id)]);
    PutsBack(claimed, w', id, wakeup);
    DeliveredAlike(s, claimed, Run(claimed, rest).value, id, sid, q, wakeup);
  }

  /** The state in which the teardown owns the whole queue. */
  function Claimed(s: State, id: ThreadId, sid: SessionId): State {
    var q := Queue(s.deferred, sid);
    s.(deferred := s.deferred - {sid}, teardowns := s.teardowns[id := if q == [] then Claiming(sid) else Owning(sid, q[0], q[1..])])
  }

  lemma Claims(s: State, w: Places, id: ThreadId, sid: SessionId, rest: seq<Action>)
    requires Inv(s, w) && sid != "" && id !in s.teardowns && Queue(s.deferred, sid) != []
    ensures var steps := [BeginTeardown(id, sid), CheckBusy(id, false), Peek(id), ClaimAll(id)];
      Run(s, steps) == Some(Claimed(s, id, sid)) && Run(s, steps + rest) == Run(Claimed(s, id, sid), rest)
  {
    hide Run, Inv, Next;
    FirstSteps(s, id, sid);
    ClaimStep(s, w, id, sid);
    FourSteps(s, BeginTeardown(id, sid), CheckBusy(id, false), Peek(id), ClaimAll(id), rest);
    FourSteps(s, BeginTeardown(id, sid), CheckBusy(id, false), Peek(id), ClaimAll(id), []);
    NoStep(Claimed(s, id, sid));
    var steps := [BeginTeardown(id, sid), CheckBusy(id, false), Peek(id), ClaimAll(id)];
    assert steps + [] == steps;
  }

  lemma FirstSteps(s: State, id: ThreadId, sid: SessionId)
    requires sid != "" && id !in s.teardowns && Queue(s.deferred, sid) != []
    ensures Next(s, BeginTeardown(id, sid)) == Some(s.(teardowns := s.teardowns[id := Checking(sid)]))
    ensures Next(s.(teardowns := s.teardowns[id := Checking(sid)]), CheckBusy(id, false))
      == Some(s.(teardowns := s.teardowns[id := Peeking(sid)]))
    ensures Next(s.(teardowns := s.teardowns[id := Peeking(sid)]), Peek(id))
      == Some(s.(teardowns := s.teardowns[id := Claiming(sid)]))
  {
    assert s.teardowns[id := Checking(sid)][id := Peeking(sid)] == s.teardowns[id := Peeking(sid)];
    assert s.teardowns[id := Peeking(sid)][id := Claiming(sid)] == s.teardowns[id := Claiming(sid)];
  }

  lemma ClaimStep(s: State, w: Places, id: ThreadId, sid: SessionId)
    requires Inv(s, w) && Queue(s.deferred, sid) != []
    ensures Next(s.(teardowns := s.teardowns[id := Claiming(sid)]), ClaimAll(id)) == Some(Claimed(s, id, sid))
  {
    hide Inv, Speaking;
    QueueSpeaks(s, w, sid);
    var q := Queue(s.deferred, sid);
    assert s.teardowns[id := Claiming(sid)][id := Owning(sid, q[0], q[1..])] == Claimed(s, id, sid).teardowns;
  }

  lemma NoStep(s: State)
    ensures Run(s, []) == Some(s)
  {
  }

  lemma FourSteps(s: State, a: Action, b: Action, c: Action, d: Action, rest: seq<Action>)
    requires Next(s, a).Some? && Next(Next(s, a).value, b).Some? && Next(Next(Next(s, a).value, b).value, c).Some?
    ensures Run(s, [a, b, c, d] + rest)
      == var s' := Next(Next(Next(Next(s, a).value, b).value, c).value, d); if s'.None? then None else Run(s'.value, rest)
  {
    hide Run, Next;
    RunNext(s, a, [b, c, d] + rest);
    RunNext(Next(s, a).value, b, [c, d] + rest);
    RunNext(Next(Next(s, a).value, b).value, c, [d] + rest);
    RunNext(Next(Next(Next(s, a).value, b).value, c).value, d, rest);
    assert [a] + ([b, c, d] + rest) == [a, b, c, d] + rest;
    assert [b] + ([c, d] + rest) == [b, c, d] + rest;
    assert [c] + ([d] + rest) == [c, d] + rest;
  }

  lemma DeliveredAlike(s: State, claimed: State, end: State, id: ThreadId, sid: SessionId, q: seq<Entry>, wakeup: ThreadId)
    requires id !in s.teardowns && q == Queue(s.deferred, sid) && q != [] && claimed == Claimed(s, id, sid)
    requires Delivered(claimed, end, id, sid, Queue(claimed.deferred, sid) + q[1..], q[0], wakeup)
    ensures Delivered(s, end, id, sid, q[1..], q[0], wakeup)
  {
    assert [] + q[1..] == q[1..];
    assert claimed.teardowns - {id} == s.teardowns - {id};
  }
}
