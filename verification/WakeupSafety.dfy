/** In every interleaving a wakeup that passed the duplicate gates is in exactly one place, and its
    turn is started at most once, in its own session. */
module WakeupSafety {
  import opened Options
  import opened Text
  import opened WakeupProtocol
  import opened WakeupStore

  type Places = map<Ticket, Place>

  // ---- The invariant ----

  /** `e` stands for a completion of session `sid` that passed the gates. */
  predicate Stands(s: State, sid: SessionId, e: Entry) {
    && e.ticket < |s.admitted|
    && s.admitted[e.ticket] == Event(sid, e.pid, e.prompt)
  }

  /** The entries of `q` stand for different completions of session `sid`, all at place `p`. */
  ghost predicate AllAt(s: State, w: Places, sid: SessionId, q: seq<Entry>, p: Place) {
    && TicketsDiffer(q)
    && forall i | 0 <= i < |q| ::
      Stands(s, sid, q[i]) && q[i].prompt != "" && q[i].ticket in w && w[q[i].ticket] == p
  }

  ghost predicate QueuesOk(s: State, w: Places) {
    forall sid | sid in s.deferred :: AllAt(s, w, sid, s.deferred[sid], InQueue(sid))
  }

  ghost predicate TeardownsOk(s: State, w: Places) {
    forall id | id in s.teardowns && s.teardowns[id].Owning? ::
      AllAt(s, w, s.teardowns[id].sid, [s.teardowns[id].first] + s.teardowns[id].rest, InTeardown(id))
  }

  ghost predicate ThreadsOk(s: State, w: Places) {
    forall id | id in s.wakeups :: AllAt(s, w, s.wakeups[id].sid, [s.wakeups[id].entry], InThread(id))
  }

  ghost predicate DrainOk(s: State, w: Places) {
    s.drain.Holding? ==>
      && Stands(s, s.drain.sid, s.drain.entry)
      && (s.drain.stage in {Deferring, Spawning} ==> s.drain.entry.prompt != "")
      && s.drain.entry.ticket in w && w[s.drain.entry.ticket] == InDrain
  }

  ghost predicate EndedOk(s: State, w: Places) {
    forall t | t in s.outcomes :: t in w && w[t] == Ended
  }

  /** Every wakeup is where `w` says. */
  ghost predicate Placed(s: State, w: Places) {
    && (forall t: Ticket :: t in w <==> t < |s.admitted|)
    && (forall t | t in w :: At(s, w[t], t))
  }

  /** Prompts are kept stripped. */
  predicate PromptsOk(s: State) {
    && (forall t | 0 <= t < |s.admitted| :: Strip(s.admitted[t].prompt) == s.admitted[t].prompt)
    && (s.drain.Taken? || s.drain.Unconsumed? ==> Strip(s.drain.event.prompt) == s.drain.event.prompt)
  }

  /** The gates: an admitted process is consumed, or about to be; no process is admitted twice. */
  predicate Gated(s: State) {
    && AdmittedOnce(s.admitted)
    && (forall t | 0 <= t < |s.admitted| && s.admitted[t].pid != "" ::
        s.admitted[t].pid in s.consumed || (s.drain.Holding? && s.drain.stage.Admitted? && s.drain.entry.ticket == t))
    && (s.drain.Unconsumed? && s.drain.event.pid != "" ==>
        forall t | 0 <= t < |s.admitted| :: s.admitted[t].pid != s.drain.event.pid)
    && (s.drain.Holding? ==> s.drain.entry.ticket < |s.admitted| && s.admitted[s.drain.entry.ticket].pid == s.drain.entry.pid)
  }

  predicate AdmittedOnce(admitted: seq<Event>) {
    forall t, u | 0 <= t < u < |admitted| && admitted[t].pid != "" :: admitted[t].pid != admitted[u].pid
  }

  /** The log of started turns has each wakeup that ended in a turn, once, with the session and the
      prompt of its completion. */
  predicate Logged(s: State) {
    && (forall i, j | 0 <= i < j < |s.started| :: s.started[i].ticket != s.started[j].ticket)
    && (forall i | 0 <= i < |s.started| ::
        && s.started[i].ticket in s.outcomes && s.outcomes[s.started[i].ticket] == Started
        && TurnStands(s, s.started[i]))
    && (forall t | t in s.outcomes && s.outcomes[t] == Started :: HasTurn(s.started, t))
  }

  predicate TurnStands(s: State, turn: Turn) {
    && turn.ticket < |s.admitted|
    && s.admitted[turn.ticket].sid == turn.sid && s.admitted[turn.ticket].prompt == turn.prompt
  }

  predicate HasTurn(started: seq<Turn>, t: Ticket) {
    exists i :: 0 <= i < |started| && started[i].ticket == t
  }

  ghost predicate Located(s: State, w: Places) {
    QueuesOk(s, w) && TeardownsOk(s, w) && ThreadsOk(s, w) && DrainOk(s, w) && EndedOk(s, w) && Placed(s, w)
  }

  ghost predicate Inv(s: State, w: Places) {
    Located(s, w) && PromptsOk(s) && Gated(s) && Logged(s)
  }

  // ---- Entries and places ----

  lemma CarriesAppend(q: seq<Entry>, e: Entry)
    ensures forall t :: Carries(q + [e], t) <==> Carries(q, t) || t == e.ticket
  {
    forall t | Carries(q, t) ensures Carries(q + [e], t) {
      var i :| 0 <= i < |q| && q[i].ticket == t;
      assert (q + [e])[i].ticket == t;
    }
    assert (q + [e])[|q|] == e;
  }

  /** A wakeup is nowhere but where the invariant says. */
  lemma OnlyThere(s: State, w: Places, p: Place, t: Ticket)
    requires Located(s, w) && At(s, p, t)
    ensures t in w && w[t] == p
  {
    hide Stands, Placed, TicketsDiffer;
    match p
    case InQueue(sid) =>
    case InTeardown(id) =>
    case InThread(id) => assert [s.wakeups[id].entry][0] == s.wakeups[id].entry;
    case _ =>
  }

  /** A wakeup held elsewhere has no namesake in a queue, so queueing it always appends it. */
  lemma QueueingAppends(s: State, w: Places, sid: SessionId, e: Entry)
    requires Located(s, w) && Gated(s) && Stands(s, sid, e) && e.ticket in w && w[e.ticket] != InQueue(sid)
    ensures Recorded(s.deferred, sid, e) == s.deferred[sid := Queue(s.deferred, sid) + [e]]
  {
    hide Placed, TeardownsOk, ThreadsOk, DrainOk, EndedOk, TicketsDiffer;
    var q := Queue(s.deferred, sid);
    forall i | 0 <= i < |q| ensures e.pid == "" || q[i].pid != e.pid {
      assert AllAt(s, w, sid, s.deferred[sid], InQueue(sid));
      assert q[i].ticket != e.ticket;
    }
  }

  // ---- Moving wakeups ----

  /** Changing the place of one wakeup leaves lists without it where they are. */
  lemma AllAtElsewhere(s: State, s': State, w: Places, w': Places, sid: SessionId, q: seq<Entry>, p: Place, t: Ticket)
    requires AllAt(s, w, sid, q, p) && s.admitted <= s'.admitted
    requires forall u | u in w && u != t :: u in w' && w'[u] == w[u]
    requires t in w ==> w[t] != p
    ensures AllAt(s', w', sid, q, p)
  {
    hide TicketsDiffer;
  }

  /** The queue of a session after one more wakeup came in. */
  lemma QueuesAfter(s: State, s': State, w: Places, w': Places, sid: SessionId, e: Entry)
    requires QueuesOk(s, w) && s'.deferred == s.deferred[sid := Queue(s.deferred, sid) + [e]] && s'.admitted == s.admitted
    requires Stands(s, sid, e) && e.prompt != "" && e.ticket in w && w[e.ticket] != InQueue(sid)
    requires forall x :: w[e.ticket] != InQueue(x)
    requires w' == w[e.ticket := InQueue(sid)]
    ensures QueuesOk(s', w')
  {
    forall x | x in s'.deferred ensures AllAt(s', w', x, s'.deferred[x], InQueue(x)) {
      if x != sid {
        AllAtElsewhere(s, s', w, w', x, s.deferred[x], InQueue(x), e.ticket);
      } else {
        var q := Queue(s.deferred, sid);
        assert sid in s.deferred ==> AllAt(s, w, sid, q, InQueue(sid));
      }
    }
  }

  lemma TeardownsAfter(s: State, s': State, w: Places, w': Places, t: Ticket)
    requires TeardownsOk(s, w) && s'.teardowns == s.teardowns && s.admitted <= s'.admitted
    requires forall u | u in w && u != t :: u in w' && w'[u] == w[u]
    requires t in w ==> !w[t].InTeardown?
    ensures TeardownsOk(s', w')
  {
    forall id | id in s.teardowns && s.teardowns[id].Owning?
      ensures AllAt(s', w', s.teardowns[id].sid, [s.teardowns[id].first] + s.teardowns[id].rest, InTeardown(id))
    {
      AllAtElsewhere(s, s', w, w', s.teardowns[id].sid, [s.teardowns[id].first] + s.teardowns[id].rest, InTeardown(id), t);
    }
  }

  lemma ThreadsAfter(s: State, s': State, w: Places, w': Places, t: Ticket)
    requires ThreadsOk(s, w) && s'.wakeups == s.wakeups && s.admitted <= s'.admitted
    requires forall u | u in w && u != t :: u in w' && w'[u] == w[u]
    requires t in w ==> !w[t].InThread?
    ensures ThreadsOk(s', w')
  {
    forall id | id in s.wakeups ensures AllAt(s', w', s.wakeups[id].sid, [s.wakeups[id].entry], InThread(id)) {
      AllAtElsewhere(s, s', w, w', s.wakeups[id].sid, [s.wakeups[id].entry], InThread(id), t);
    }
  }

  lemma QueuesKept(s: State, s': State, w: Places, w': Places, t: Ticket)
    requires QueuesOk(s, w) && s'.deferred == s.deferred && s.admitted <= s'.admitted
    requires forall u | u in w && u != t :: u in w' && w'[u] == w[u]
    requires t in w ==> !w[t].InQueue?
    ensures QueuesOk(s', w')
  {
    forall sid | sid in s.deferred ensures AllAt(s', w', sid, s.deferred[sid], InQueue(sid)) {
      AllAtElsewhere(s, s', w, w', sid, s.deferred[sid], InQueue(sid), t);
    }
  }

  /** Steps that move no wakeup. */
  lemma StepInPlace(s: State, s': State, w: Places)
    requires Located(s, w)
    requires s'.deferred == s.deferred && s'.wakeups == s.wakeups && s'.admitted == s.admitted && s'.outcomes == s.outcomes
    requires s'.drain.Holding? <==> s.drain.Holding?
    requires s.drain.Holding? ==>
      && s'.drain.sid == s.drain.sid && s'.drain.entry == s.drain.entry
      && (s'.drain != s.drain && s'.drain.stage in {Deferring, Spawning} ==> s.drain.entry.prompt != "")
    requires forall id :: (id in s'.teardowns && s'.teardowns[id].Owning?) <==> (id in s.teardowns && s.teardowns[id].Owning?)
    requires forall id | id in s.teardowns && s.teardowns[id].Owning? :: s'.teardowns[id] == s.teardowns[id]
    ensures Located(s', w)
  {
    hide TicketsDiffer, Carries, Stands;
    assert Placed(s', w) by {
      forall t | t in w ensures At(s', w[t], t) {
        assert At(s, w[t], t);
      }
    }
    SameStands(s, s');
    assert forall sid, q, p :: AllAt(s, w, sid, q, p) == AllAt(s', w, sid, q, p);
  }

  lemma SameStands(s: State, s': State)
    requires s'.admitted == s.admitted
    ensures forall sid, e :: Stands(s, sid, e) == Stands(s', sid, e)
  {
  }

  // ---- Gates, prompts and the log ----

  predicate ByDrain(a: Action) {
    a.TakeEvent? || a.CheckConsumed? || a.CheckSeen? || a.MarkConsumed? || a.Dispatch? || a.Defer? || a.Spawn?
  }

  predicate ByTeardown(a: Action) {
    a.CheckBusy? || a.Peek? || a.ClaimAll? || a.RedeferNext? || a.SpawnFirst?
  }

  /** Only the drain thread changes the gates. */
  lemma GatesFrame(s: State, a: Action)
    requires Next(s, a).Some? && !ByDrain(a)
    ensures var s' := Next(s, a).value;
      s.consumed <= s'.consumed && s'.drain == s.drain && s'.admitted == s.admitted
  {
    hide Strip, Recorded, Speaking, Queue;
  }

  /** Only wakeup threads, and the drain thread for silent completions, end wakeups. */
  lemma LogFrame(s: State, a: Action)
    requires Next(s, a).Some? && !a.Answered? && !a.Dispatch?
    ensures var s' := Next(s, a).value; s'.outcomes == s.outcomes && s'.started == s.started && s.admitted <= s'.admitted
  {
    hide Strip, Recorded, Speaking, Queue, Seen, DrainStep;
    if ByDrain(a) {
      DrainLogFrame(s, a);
    }
  }

  lemma DrainLogFrame(s: State, a: Action)
    requires ByDrain(a) && DrainStep(s, a).Some? && !a.Dispatch?
    ensures var s' := DrainStep(s, a).value; s'.outcomes == s.outcomes && s'.started == s.started && s.admitted <= s'.admitted
  {
    hide Strip, Recorded, Seen;
  }

  lemma GatedKeeps(s: State, a: Action)
    requires Gated(s) && Next(s, a).Some?
    ensures Gated(Next(s, a).value)
  {
    hide Gated, DrainStep, WakeupStep, TeardownStep;
    if !ByDrain(a) {
      GatesFrame(s, a);
      SameGates(s, Next(s, a).value);
    } else if a.CheckSeen? {
      GatedAdmits(s);
    } else if a.MarkConsumed? {
      GatedMarks(s);
    } else if a.CheckConsumed? || a.TakeEvent? {
      GatedChecks(s, a);
    } else {
      GatedDrain(s, a);
    }
  }

  lemma SameGates(s: State, s': State)
    requires Gated(s) && s.consumed <= s'.consumed && s'.drain == s.drain && s'.admitted == s.admitted
    ensures Gated(s')
  {
  }

  lemma GatedMarks(s: State)
    requires Gated(s) && Next(s, MarkConsumed).Some?
    ensures Gated(Next(s, MarkConsumed).value)
  {
    hide AdmittedOnce;
  }

  lemma GatedChecks(s: State, a: Action)
    requires Gated(s) && (a.CheckConsumed? || a.TakeEvent?) && DrainStep(s, a).Some?
    ensures Gated(DrainStep(s, a).value)
  {
    hide Strip, AdmittedOnce;
  }

  lemma GatedDrain(s: State, a: Action)
    requires Gated(s) && (a.Dispatch? || a.Defer? || a.Spawn?) && DrainStep(s, a).Some?
    ensures Gated(DrainStep(s, a).value)
  {
    hide Recorded, AdmittedOnce, Queue;
  }

  lemma GatedAdmits(s: State)
    requires Gated(s) && Next(s, CheckSeen).Some?
    ensures Gated(Next(s, CheckSeen).value)
  {
    hide Seen, WakeupStep, TeardownStep, Strip, Queue;
    var (s', t) := (Next(s, CheckSeen).value, |s.admitted|);
    assert forall u | 0 <= u < t :: s'.admitted[u] == s.admitted[u];
  }

  lemma PromptsKept(s: State, a: Action)
    requires PromptsOk(s) && Next(s, a).Some?
    ensures PromptsOk(Next(s, a).value)
  {
    hide Strip, Recorded, Speaking, Queue, WakeupStep, TeardownStep, Seen;
    if !ByDrain(a) {
      GatesFrame(s, a);
    } else if a.TakeEvent? {
      StripTwice(a.event.prompt);
    }
  }

  lemma LogEnds(s: State, id: ThreadId, o: Outcome)
    requires Logged(s) && id in s.wakeups && s.wakeups[id].entry.ticket !in s.outcomes
    requires Stands(s, s.wakeups[id].sid, s.wakeups[id].entry)
    ensures Logged(Ends(s, id, o))
  {
    var (t, s') := (s.wakeups[id].entry.ticket, Ends(s, id, o));
    forall u | u in s'.outcomes && s'.outcomes[u] == Started ensures HasTurn(s'.started, u) {
      if u == t {
        assert s'.started[|s.started|].ticket == u;
      } else {
        assert HasTurn(s.started, u);
        var i :| 0 <= i < |s.started| && s.started[i].ticket == u;
        assert s'.started[i].ticket == u;
      }
    }
  }

  lemma LoggedKeeps(s: State, w: Places, a: Action)
    requires Inv(s, w) && Next(s, a).Some?
    ensures Logged(Next(s, a).value)
  {
    hide Logged, Located, Ends, DrainStep, TeardownStep, Gated, PromptsOk;
    if a.Answered? {
      NotEnded(s, w, a.thread);
      forall o ensures Logged(Ends(s, a.thread, o)) {
        LogEnds(s, a.thread, o);
      }
      assert !a.answer.Conflict? ==> exists o :: Next(s, a) == Some(Ends(s, a.thread, o));
      SameLog(s, Next(s, a).value);
    } else if a.Dispatch? {
      LogSilent(s, w, a);
    } else {
      LogFrame(s, a);
      SameLog(s, Next(s, a).value);
    }
  }

  lemma SameLog(s: State, s': State)
    requires Logged(s)
    ensures s'.outcomes == s.outcomes && s'.started == s.started && s.admitted <= s'.admitted ==> Logged(s')
  {
  }

  lemma LogSilent(s: State, w: Places, a: Action)
    requires Logged(s) && Located(s, w) && a.Dispatch? && Next(s, a).Some?
    ensures Logged(Next(s, a).value)
  {
    hide Placed, QueuesOk, TeardownsOk, ThreadsOk, Stands;
  }

  lemma NotEnded(s: State, w: Places, id: ThreadId)
    requires Located(s, w) && id in s.wakeups
    ensures s.wakeups[id].entry.ticket !in s.outcomes && Stands(s, s.wakeups[id].sid, s.wakeups[id].entry)
  {
    hide Placed, QueuesOk, TeardownsOk;
    assert AllAt(s, w, s.wakeups[id].sid, [s.wakeups[id].entry], InThread(id));
    assert [s.wakeups[id].entry][0] == s.wakeups[id].entry;
  }

  // ---- One wakeup moves ----

  lemma PlacedMove(s: State, s': State, w: Places, t: Ticket, p: Place)
    requires Placed(s, w) && s'.admitted == s.admitted && t in w && At(s', p, t)
    requires forall u | u in w && u != t && At(s, w[u], u) :: At(s', w[u], u)
    ensures Placed(s', w[t := p])
  {
    hide At;
  }

  /** Into the queue of its session, from `from`, where nothing else was. */
  lemma IntoQueue(s: State, s': State, w: Places, sid: SessionId, e: Entry)
    requires Located(s, w) && Gated(s) && Stands(s, sid, e) && e.prompt != "" && e.ticket in w && !w[e.ticket].InQueue?
    requires s'.deferred == Recorded(s.deferred, sid, e) && s'.admitted == s.admitted
    ensures QueuesOk(s', w[e.ticket := InQueue(sid)])
    ensures At(s', InQueue(sid), e.ticket)
    ensures forall x, u | Carries(Queue(s.deferred, x), u) :: Carries(Queue(s'.deferred, x), u)
  {
    hide Placed, TeardownsOk, ThreadsOk, DrainOk, EndedOk, Recorded, Gated, Carries;
    QueueingAppends(s, w, sid, e);
    QueuesAfter(s, s', w, w[e.ticket := InQueue(sid)], sid, e);
    CarriesAppend(Queue(s.deferred, sid), e);
  }

  lemma DeferKeeps(s: State, w: Places)
    requires Located(s, w) && Gated(s) && Next(s, Defer).Some?
    ensures Located(Next(s, Defer).value, w[s.drain.entry.ticket := InQueue(s.drain.sid)])
  {
    hide Recorded, Carries, Gated, AllAt, QueuesOk, TeardownsOk, ThreadsOk, Stands, Queue;
    var (s', e, sid) := (Next(s, Defer).value, s.drain.entry, s.drain.sid);
    var w' := w[e.ticket := InQueue(sid)];
    IntoQueue(s, s', w, sid, e);
    TeardownsAfter(s, s', w, w', e.ticket);
    ThreadsAfter(s, s', w, w', e.ticket);
    PlacedMove(s, s', w, e.ticket, InQueue(sid));
  }

  lemma RedeferKeeps(s: State, w: Places, id: ThreadId)
    requires Located(s, w) && Gated(s) && Next(s, Redefer(id)).Some?
    ensures Located(Next(s, Redefer(id)).value, w[s.wakeups[id].entry.ticket := InQueue(s.wakeups[id].sid)])
  {
    hide Recorded, Carries, Gated, AllAt, QueuesOk, TeardownsOk, ThreadsOk, Stands, Queue;
    var (s', e, sid) := (Next(s, Redefer(id)).value, s.wakeups[id].entry, s.wakeups[id].sid);
    var w' := w[e.ticket := InQueue(sid)];
    SameStands(s, s');
    ThreadHolds(s, w, id);
    IntoQueue(s, s', w, sid, e);
    TeardownsAfter(s, s', w, w', e.ticket);
    ThreadGone(s, s', w, w', id);
    PlacedMove(s, s', w, e.ticket, InQueue(sid));
  }

  lemma ThreadHolds(s: State, w: Places, id: ThreadId)
    requires ThreadsOk(s, w) && id in s.wakeups
    ensures var (sid, e) := (s.wakeups[id].sid, s.wakeups[id].entry);
      Stands(s, sid, e) && e.prompt != "" && e.ticket in w && w[e.ticket] == InThread(id)
  {
    assert AllAt(s, w, s.wakeups[id].sid, [s.wakeups[id].entry], InThread(id));
    assert [s.wakeups[id].entry][0] == s.wakeups[id].entry;
  }

  /** The other threads once thread `id` is gone and its wakeup is elsewhere. */
  lemma ThreadGone(s: State, s': State, w: Places, w': Places, id: ThreadId)
    requires ThreadsOk(s, w) && id in s.wakeups && s'.wakeups == s.wakeups - {id} && s'.admitted == s.admitted
    requires forall u | u in w && u != s.wakeups[id].entry.ticket :: u in w' && w'[u] == w[u]
    ensures ThreadsOk(s', w')
  {
    hide AllAt;
    ThreadHolds(s, w, id);
    forall x | x in s'.wakeups ensures AllAt(s', w', s'.wakeups[x].sid, [s'.wakeups[x].entry], InThread(x)) {
      AllAtElsewhere(s, s', w, w', s.wakeups[x].sid, [s.wakeups[x].entry], InThread(x), s.wakeups[id].entry.ticket);
    }
  }

  /** The threads with a new one that took a wakeup over. */
  lemma ThreadNew(s: State, s': State, w: Places, w': Places, id: ThreadId, sid: SessionId, e: Entry)
    requires ThreadsOk(s, w) && id !in s.wakeups && s'.wakeups == s.wakeups[id := Wakeup(sid, e, false)]
    requires s'.admitted == s.admitted && Stands(s, sid, e) && e.prompt != "" && e.ticket in w && !w[e.ticket].InThread?
    requires w' == w[e.ticket := InThread(id)]
    ensures ThreadsOk(s', w')
  {
    forall x | x in s'.wakeups ensures AllAt(s', w', s'.wakeups[x].sid, [s'.wakeups[x].entry], InThread(x)) {
      if x != id {
        AllAtElsewhere(s, s', w, w', s.wakeups[x].sid, [s.wakeups[x].entry], InThread(x), e.ticket);
      }
    }
  }

  lemma SpawnKeeps(s: State, w: Places, id: ThreadId)
    requires Located(s, w) && Next(s, Spawn(id)).Some?
    ensures Located(Next(s, Spawn(id)).value, w[s.drain.entry.ticket := InThread(id)])
  {
    hide Carries, AllAt, QueuesOk, TeardownsOk, ThreadsOk, Stands, Queue;
    var (s', e) := (Next(s, Spawn(id)).value, s.drain.entry);
    var w' := w[e.ticket := InThread(id)];
    QueuesKept(s, s', w, w', e.ticket);
    TeardownsAfter(s, s', w, w', e.ticket);
    ThreadNew(s, s', w, w', id, s.drain.sid, e);
    PlacedMove(s, s', w, e.ticket, InThread(id));
  }

  lemma SilentKeeps(s: State, w: Places, busy: bool)
    requires Located(s, w) && Next(s, Dispatch(busy)).Some? && s.drain.entry.prompt == ""
    ensures Located(Next(s, Dispatch(busy)).value, w[s.drain.entry.ticket := Ended])
  {
    hide Carries, AllAt, QueuesOk, TeardownsOk, ThreadsOk, Stands, Queue;
    var (s', t) := (Next(s, Dispatch(busy)).value, s.drain.entry.ticket);
    var w' := w[t := Ended];
    QueuesKept(s, s', w, w', t);
    TeardownsAfter(s, s', w, w', t);
    ThreadsAfter(s, s', w, w', t);
    PlacedMove(s, s', w, t, Ended);
  }

  lemma EndsKeeps(s: State, w: Places, id: ThreadId, o: Outcome)
    requires Located(s, w) && id in s.wakeups
    ensures Located(Ends(s, id, o), w[s.wakeups[id].entry.ticket := Ended])
  {
    hide Carries, AllAt, QueuesOk, TeardownsOk, ThreadsOk, Stands, Queue;
    var (s', t) := (Ends(s, id, o), s.wakeups[id].entry.ticket);
    var w' := w[t := Ended];
    SameStands(s, s');
    ThreadHolds(s, w, id);
    QueuesKept(s, s', w, w', t);
    TeardownsAfter(s, s', w, w', t);
    ThreadGone(s, s', w, w', id);
    PlacedMove(s, s', w, t, Ended);
  }

  lemma ConflictKeeps(s: State, w: Places, id: ThreadId)
    requires Located(s, w) && Next(s, Answered(id, Conflict)).Some?
    ensures Located(Next(s, Answered(id, Conflict)).value, w)
  {
    hide Carries, AllAt, QueuesOk, TeardownsOk, Stands, Queue;
    var (s', t) := (Next(s, Answered(id, Conflict)).value, s.wakeups[id].entry.ticket);
    ThreadHolds(s, w, id);
    QueuesKept(s, s', w, w, t);
    TeardownsAfter(s, s', w, w, t);
    SameStands(s, s');
    forall x | x in s'.wakeups ensures AllAt(s', w, s'.wakeups[x].sid, [s'.wakeups[x].entry], InThread(x)) {
      assert AllAt(s, w, s.wakeups[x].sid, [s.wakeups[x].entry], InThread(x));
      SameAllAt(s, s', w, s.wakeups[x].sid, [s.wakeups[x].entry], InThread(x));
    }
    PlacedMove(s, s', w, t, InThread(id));
  }

  lemma SameAllAt(s: State, s': State, w: Places, sid: SessionId, q: seq<Entry>, p: Place)
    requires AllAt(s, w, sid, q, p) && s'.admitted == s.admitted
    ensures AllAt(s', w, sid, q, p)
  {
  }

  // ---- Turn teardowns ----

  /** The other teardowns when one of them changes and only wakeup `t` changes place. */
  lemma TeardownsExcept(s: State, s': State, w: Places, w': Places, id: ThreadId, t: Ticket)
    requires TeardownsOk(s, w) && s'.admitted == s.admitted
    requires forall x | x != id :: (x in s'.teardowns <==> x in s.teardowns) && (x in s.teardowns ==> s'.teardowns[x] == s.teardowns[x])
    requires forall u | u in w && u != t :: u in w' && w'[u] == w[u]
    requires t in w ==> forall x | x != id :: w[t] != InTeardown(x)
    requires id in s'.teardowns && s'.teardowns[id].Owning? ==>
      AllAt(s', w', s'.teardowns[id].sid, [s'.teardowns[id].first] + s'.teardowns[id].rest, InTeardown(id))
    ensures TeardownsOk(s', w')
  {
    hide AllAt;
    forall x | x in s'.teardowns && s'.teardowns[x].Owning?
      ensures AllAt(s', w', s'.teardowns[x].sid, [s'.teardowns[x].first] + s'.teardowns[x].rest, InTeardown(x))
    {
      if x != id {
        AllAtElsewhere(s, s', w, w', s.teardowns[x].sid, [s.teardowns[x].first] + s.teardowns[x].rest, InTeardown(x), t);
      }
    }
  }

  /** What a teardown owns. */
  lemma TeardownHolds(s: State, w: Places, id: ThreadId)
    requires TeardownsOk(s, w) && id in s.teardowns && s.teardowns[id].Owning?
    ensures var o := s.teardowns[id];
      && Stands(s, o.sid, o.first) && o.first.prompt != "" && o.first.ticket in w && w[o.first.ticket] == InTeardown(id)
      && (forall i | 0 <= i < |o.rest| ::
          && Stands(s, o.sid, o.rest[i]) && o.rest[i].prompt != ""
          && o.rest[i].ticket in w && w[o.rest[i].ticket] == InTeardown(id) && o.rest[i].ticket != o.first.ticket)
      && TicketsDiffer(o.rest)
  {
    var o := s.teardowns[id];
    hide Stands;
    var q := [o.first] + o.rest;
    assert AllAt(s, w, o.sid, q, InTeardown(id));
    assert q[0] == o.first;
    forall i | 0 <= i < |o.rest|
      ensures o.rest[i] == q[i + 1] && q[i + 1].ticket != q[0].ticket
    {
    }
  }

  lemma RedeferNextKeeps(s: State, w: Places, id: ThreadId)
    requires Located(s, w) && Gated(s) && Next(s, RedeferNext(id)).Some?
    ensures Located(Next(s, RedeferNext(id)).value, w[s.teardowns[id].rest[0].ticket := InQueue(s.teardowns[id].sid)])
  {
    hide Recorded, Gated, QueuesOk, TeardownsOk, ThreadsOk, Stands, Queue, Carries, TicketsDiffer;
    var (s', o) := (Next(s, RedeferNext(id)).value, s.teardowns[id]);
    var (e, q) := (o.rest[0], [o.first] + o.rest[1..]);
    var w' := w[e.ticket := InQueue(o.sid)];
    TeardownHolds(s, w, id);
    SameStands(s, s');
    IntoQueue(s, s', w, o.sid, e);
    ThreadsAfter(s, s', w, w', e.ticket);
    RestKept(o.first, o.rest);
    assert AllAt(s', w', o.sid, q, InTeardown(id)) by {
      forall i | 0 <= i < |q| ensures Stands(s', o.sid, q[i]) && q[i].prompt != "" && q[i].ticket in w' && w'[q[i].ticket] == InTeardown(id) {
        assert q[i] == if i == 0 then o.first else o.rest[i];
      }
    }
    TeardownsExcept(s, s', w, w', id, e.ticket);
    PlacedMove(s, s', w, e.ticket, InQueue(o.sid));
  }

  lemma RestKept(first: Entry, rest: seq<Entry>)
    requires rest != [] && TicketsDiffer(rest) && forall i | 0 <= i < |rest| :: rest[i].ticket != first.ticket
    ensures TicketsDiffer([first] + rest[1..])
    ensures forall t :: Carries([first] + rest, t) <==> Carries([first] + rest[1..], t) || t == rest[0].ticket
    ensures !Carries([first] + rest[1..], rest[0].ticket) && forall i | 0 < i < |rest| :: rest[i].ticket != rest[0].ticket
  {
    var q, r := [first] + rest, [first] + rest[1..];
    assert forall i | 0 < i < |r| :: r[i] == q[i + 1] == rest[i];
    forall t | Carries(q, t) && t != rest[0].ticket ensures Carries(r, t) {
      var i :| 0 <= i < |q| && q[i].ticket == t;
      assert i != 1;
      assert r[if i == 0 then 0 else i - 1].ticket == t;
    }
    forall t | Carries(r, t) ensures Carries(q, t) {
      var i :| 0 <= i < |r| && r[i].ticket == t;
      assert q[if i == 0 then 0 else i + 1].ticket == t;
    }
    assert q[1] == rest[0];
  }

  lemma SpawnFirstKeeps(s: State, w: Places, id: ThreadId, thread: ThreadId)
    requires Located(s, w) && Next(s, SpawnFirst(id, thread)).Some?
    ensures Located(Next(s, SpawnFirst(id, thread)).value, w[s.teardowns[id].first.ticket := InThread(thread)])
  {
    hide QueuesOk, TeardownsOk, ThreadsOk, Stands, Queue, TicketsDiffer, AllAt;
    var (s', o) := (Next(s, SpawnFirst(id, thread)).value, s.teardowns[id]);
    var t := o.first.ticket;
    var w' := w[t := InThread(thread)];
    TeardownHolds(s, w, id);
    SameStands(s, s');
    QueuesKept(s, s', w, w', t);
    ThreadNew(s, s', w, w', thread, o.sid, o.first);
    TeardownsExcept(s, s', w, w', id, t);
    PlacedMove(s, s', w, t, InThread(thread));
  }

  /** What is at a place stays there when all of that place's wakeups do. */
  lemma AllAtKept(s: State, s': State, w: Places, w': Places, sid: SessionId, q: seq<Entry>, p: Place)
    requires AllAt(s, w, sid, q, p) && s'.admitted == s.admitted
    requires forall u | u in w && w[u] == p :: u in w' && w'[u] == p
    ensures AllAt(s', w', sid, q, p)
  {
    hide TicketsDiffer;
  }

  /** Exactly the wakeups placed in a session's queue are in it. */
  lemma QueueHolds(s: State, w: Places, sid: SessionId)
    requires Located(s, w)
    ensures forall t :: Carries(Queue(s.deferred, sid), t) <==> t in w && w[t] == InQueue(sid)
  {
    hide TeardownsOk, ThreadsOk, DrainOk, EndedOk, TicketsDiffer, Stands;
    assert sid in s.deferred ==> AllAt(s, w, sid, s.deferred[sid], InQueue(sid));
    forall t | t in w && w[t] == InQueue(sid) ensures Carries(Queue(s.deferred, sid), t) {
      assert At(s, w[t], t);
    }
  }

  ghost function Claimed(w: Places, sid: SessionId, id: ThreadId): Places {
    map t | t in w :: if w[t] == InQueue(sid) then InTeardown(id) else w[t]
  }

  /** A claim moves the whole queue of a session into the hands of one teardown. */
  lemma ClaimKeeps(s: State, w: Places, id: ThreadId)
    requires Inv(s, w) && Next(s, ClaimAll(id)).Some?
    ensures Located(Next(s, ClaimAll(id)).value, Claimed(w, s.teardowns[id].sid, id))
  {
    hide Speaking, Gated, Logged, PromptsOk, TicketsDiffer, Strip, Stands, AllAt, Carries;
    var (s', sid) := (Next(s, ClaimAll(id)).value, s.teardowns[id].sid);
    var q, w' := Queue(s.deferred, sid), Claimed(w, sid, id);
    QueueSpeaks(s, w, sid);
    QueueHolds(s, w, sid);
    SameStands(s, s');
    assert q != [] ==> q == [q[0]] + q[1..];
    assert QueuesOk(s', w') by {
      forall x | x in s'.deferred ensures AllAt(s', w', x, s'.deferred[x], InQueue(x)) {
        AllAtKept(s, s', w, w', x, s.deferred[x], InQueue(x));
      }
    }
    assert ThreadsOk(s', w') by {
      forall x | x in s'.wakeups ensures AllAt(s', w', s'.wakeups[x].sid, [s'.wakeups[x].entry], InThread(x)) {
        AllAtKept(s, s', w, w', s.wakeups[x].sid, [s.wakeups[x].entry], InThread(x));
      }
    }
    ClaimedTeardowns(s, s', w, id, q);
    ClaimedPlaces(s, s', w, id, q);
  }

  lemma ClaimedTeardowns(s: State, s': State, w: Places, id: ThreadId, q: seq<Entry>)
    requires Located(s, w) && id in s.teardowns && s.teardowns[id].Claiming? && q == Queue(s.deferred, s.teardowns[id].sid)
    requires s'.admitted == s.admitted
    requires s'.teardowns == if q == [] then s.teardowns - {id} else s.teardowns[id := Owning(s.teardowns[id].sid, q[0], q[1..])]
    ensures TeardownsOk(s', Claimed(w, s.teardowns[id].sid, id))
  {
    hide ThreadsOk, DrainOk, EndedOk, Placed, TicketsDiffer, Stands, Carries;
    var sid := s.teardowns[id].sid;
    var w' := Claimed(w, sid, id);
    SameStands(s, s');
    forall x | x in s'.teardowns && s'.teardowns[x].Owning?
      ensures AllAt(s', w', s'.teardowns[x].sid, [s'.teardowns[x].first] + s'.teardowns[x].rest, InTeardown(x))
    {
      if x != id {
        AllAtKept(s, s', w, w', s.teardowns[x].sid, [s.teardowns[x].first] + s.teardowns[x].rest, InTeardown(x));
      } else {
        assert [q[0]] + q[1..] == q;
        assert AllAt(s, w, sid, q, InQueue(sid));
      }
    }
  }

  lemma ClaimedPlaces(s: State, s': State, w: Places, id: ThreadId, q: seq<Entry>)
    requires Placed(s, w) && id in s.teardowns && s.teardowns[id].Claiming? && q == Queue(s.deferred, s.teardowns[id].sid)
    requires s'.admitted == s.admitted && s'.deferred == s.deferred - {s.teardowns[id].sid}
    requires s'.drain == s.drain && s'.wakeups == s.wakeups && s'.outcomes == s.outcomes
    requires s'.teardowns == if q == [] then s.teardowns - {id} else s.teardowns[id := Owning(s.teardowns[id].sid, q[0], q[1..])]
    ensures Placed(s', Claimed(w, s.teardowns[id].sid, id))
  {
    hide Carries;
    var (sid, w') := (s.teardowns[id].sid, Claimed(w, s.teardowns[id].sid, id));
    NoneCarried();
    forall t | t in w' ensures At(s', w'[t], t) {
      assert At(s, w[t], t);
      if w[t] == InQueue(sid) {
        assert Carries(q, t);
        assert [q[0]] + q[1..] == q;
        assert [s'.teardowns[id].first] + s'.teardowns[id].rest == q;
        assert At(s', InTeardown(id), t);
      } else {
        OtherPlace(s, s', w[t], t, id, sid);
      }
    }
  }

  lemma OtherPlace(s: State, s': State, p: Place, t: Ticket, id: ThreadId, sid: SessionId)
    requires At(s, p, t) && p != InQueue(sid) && id in s.teardowns && s.teardowns[id].Claiming?
    requires s'.deferred == s.deferred - {sid}
    requires s'.drain == s.drain && s'.wakeups == s.wakeups && s'.outcomes == s.outcomes
    requires forall x | x != id :: (x in s'.teardowns <==> x in s.teardowns) && (x in s.teardowns ==> s'.teardowns[x] == s.teardowns[x])
    ensures At(s', p, t)
  {
    hide Carries;
    NoneCarried();
  }

  lemma NoneCarried()
    ensures forall t :: !Carries([], t)
  {
  }

  lemma QueueSpeaks(s: State, w: Places, sid: SessionId)
    requires Inv(s, w)
    ensures Speaking(Queue(s.deferred, sid)) == Queue(s.deferred, sid)
  {
    hide TeardownsOk, ThreadsOk, DrainOk, EndedOk, Placed, Gated, Logged, TicketsDiffer, Strip;
    var q := Queue(s.deferred, sid);
    assert sid in s.deferred ==> AllAt(s, w, sid, q, InQueue(sid));
    forall i | 0 <= i < |q| ensures q[i].prompt != "" && Strip(q[i].prompt) == q[i].prompt {
      assert s.admitted[q[i].ticket].prompt == q[i].prompt;
    }
    SpeakingKeeps(q);
  }

  // ---- Every step and every run ----

  lemma AdmitKeeps(s: State, w: Places)
    requires Inv(s, w) && Next(s, CheckSeen).Some?
    ensures var s' := Next(s, CheckSeen).value;
      Located(s', if |s'.admitted| > |s.admitted| then w[|s.admitted| := InDrain] else w)
  {
    hide Strip, AllAt, QueuesOk, TeardownsOk, ThreadsOk, Gated, Logged, PromptsOk, Carries, Seen, Placed, EndedOk, WakeupStep, TeardownStep;
    var (s', t) := (Next(s, CheckSeen).value, |s.admitted|);
    if |s'.admitted| > t {
      AdmittedKeeps(s, s', w);
    } else {
      StepInPlace(s, s', w);
    }
  }

  lemma AdmittedKeeps(s: State, s': State, w: Places)
    requires Located(s, w) && |s'.admitted| == |s.admitted| + 1 && s.admitted <= s'.admitted && !s.drain.Holding?
    requires s'.deferred == s.deferred && s'.wakeups == s.wakeups && s'.teardowns == s.teardowns && s'.outcomes == s.outcomes
    requires s'.drain.Holding? && s'.drain.stage == Admitted && s'.drain.entry.ticket == |s.admitted|
    requires Stands(s', s'.drain.sid, s'.drain.entry)
    ensures Located(s', w[|s.admitted| := InDrain])
  {
    hide AllAt, QueuesOk, TeardownsOk, ThreadsOk, Carries;
    var t := |s.admitted|;
    var w' := w[t := InDrain];
    QueuesKept(s, s', w, w', t);
    TeardownsAfter(s, s', w, w', t);
    ThreadsAfter(s, s', w, w', t);
    forall u | u in w' ensures At(s', w'[u], u) {
      assert u != t ==> At(s, w[u], u);
    }
  }

  /** Every step keeps the invariant. */
  lemma StepKeeps(s: State, w: Places, a: Action) returns (w': Places)
    requires Inv(s, w) && Next(s, a).Some?
    ensures Inv(Next(s, a).value, w')
  {
    hide Gated, Logged, PromptsOk, Located, DrainStep, WakeupStep, TeardownStep;
    GatedKeeps(s, a);
    PromptsKept(s, a);
    LoggedKeeps(s, w, a);
    w' := Moved(s, w, a);
  }

  lemma Moved(s: State, w: Places, a: Action) returns (w': Places)
    requires Inv(s, w) && Next(s, a).Some?
    ensures Located(Next(s, a).value, w')
  {
    hide Gated, Logged, PromptsOk, Located, DrainStep, TeardownStep, Ends;
    w' := w;
    if ByDrain(a) {
      w' := MovedByDrain(s, w, a);
    } else if a.Answered? {
      if a.answer.Conflict? {
        ConflictKeeps(s, w, a.thread);
      } else {
        w' := w[s.wakeups[a.thread].entry.ticket := Ended];
        var o := match a.answer case Accepted => Started case PausedConflict => Paused case _ => Failed;
        EndsKeeps(s, w, a.thread, o);
      }
    } else if a.Redefer? {
      w' := w[s.wakeups[a.thread].entry.ticket := InQueue(s.wakeups[a.thread].sid)];
      RedeferKeeps(s, w, a.thread);
    } else {
      w' := MovedByTeardown(s, w, a);
    }
  }

  lemma MovedByDrain(s: State, w: Places, a: Action) returns (w': Places)
    requires Inv(s, w) && Next(s, a).Some? && ByDrain(a)
    ensures Located(Next(s, a).value, w')
  {
    hide Gated, Logged, PromptsOk, Located, WakeupStep, TeardownStep, Strip, Recorded, Seen;
    w' := w;
    if a.CheckSeen? {
      if |Next(s, a).value.admitted| > |s.admitted| {
        w' := w[|s.admitted| := InDrain];
      }
      AdmitKeeps(s, w);
    } else if a.Defer? {
      w' := w[s.drain.entry.ticket := InQueue(s.drain.sid)];
      DeferKeeps(s, w);
    } else if a.Spawn? {
      w' := w[s.drain.entry.ticket := InThread(a.thread)];
      SpawnKeeps(s, w, a.thread);
    } else if a.Dispatch? && s.drain.entry.prompt == "" {
      w' := w[s.drain.entry.ticket := Ended];
      SilentKeeps(s, w, a.busy);
    } else {
      StepInPlace(s, Next(s, a).value, w);
    }
  }

  lemma MovedByTeardown(s: State, w: Places, a: Action) returns (w': Places)
    requires Inv(s, w) && Next(s, a).Some? && (ByTeardown(a) || a.ConsumedElsewhere? || a.BeginTeardown?)
    ensures Located(Next(s, a).value, w')
  {
    hide Gated, Logged, PromptsOk, Located, WakeupStep, DrainStep, Recorded, Speaking;
    w' := w;
    if a.ClaimAll? {
      w' := Claimed(w, s.teardowns[a.thread].sid, a.thread);
      ClaimKeeps(s, w, a.thread);
    } else if a.RedeferNext? {
      w' := w[s.teardowns[a.thread].rest[0].ticket := InQueue(s.teardowns[a.thread].sid)];
      RedeferNextKeeps(s, w, a.thread);
    } else if a.SpawnFirst? {
      w' := w[s.teardowns[a.thread].first.ticket := InThread(a.wakeup)];
      SpawnFirstKeeps(s, w, a.thread, a.wakeup);
    } else {
      StepInPlace(s, Next(s, a).value, w);
    }
  }

  lemma {:induction false} RunKeeps(s: State, w: Places, actions: seq<Action>) returns (w': Places)
    requires Inv(s, w) && Run(s, actions).Some?
    ensures Inv(Run(s, actions).value, w')
    decreases |actions|
  {
    hide Inv, Next;
    w' := w;
    if actions != [] {
      var next := StepKeeps(s, w, actions[0]);
      w' := RunKeeps(Next(s, actions[0]).value, next, actions[1..]);
    }
  }

  lemma StartInv()
    ensures Inv(START, map[])
  {
  }

  // ---- The results ----

  /** In exactly one place. */
  ghost predicate ExactlyOnePlace(s: State, t: Ticket) {
    exists p :: At(s, p, t) && forall q :: At(s, q, t) ==> q == p
  }

  /** After any run every admitted completion's wakeup is in exactly one place: the drain thread's
      hand, one session's queue, one teardown's hands, one wakeup thread, or its final outcome. */
  lemma WakeupsLiveOnce(actions: seq<Action>)
    requires Run(START, actions).Some?
    ensures var s := Run(START, actions).value;
      forall t | 0 <= t < |s.admitted| :: ExactlyOnePlace(s, t)
  {
    hide At, Next, Gated, Logged, PromptsOk, Located;
    StartInv();
    var w := RunKeeps(START, map[], actions);
    var s := Run(START, actions).value;
    forall t | 0 <= t < |s.admitted| ensures ExactlyOnePlace(s, t) {
      InOnePlace(s, w, t);
    }
  }

  lemma InOnePlace(s: State, w: Places, t: Ticket)
    requires Located(s, w) && t < |s.admitted|
    ensures ExactlyOnePlace(s, t)
  {
    hide At, QueuesOk, TeardownsOk, ThreadsOk, DrainOk, EndedOk;
    assert At(s, w[t], t);
    forall q | At(s, q, t) ensures q == w[t] {
      OnlyThere(s, w, q, t);
    }
  }

  /** After any run at most one turn was started for a wakeup, and at most one for a process; every
      started turn runs the prompt of an admitted completion in that completion's session. */
  lemma TurnsStartOnce(actions: seq<Action>)
    requires Run(START, actions).Some?
    ensures var s := Run(START, actions).value;
      && (forall i | 0 <= i < |s.started| ::
          && s.started[i].ticket < |s.admitted|
          && s.admitted[s.started[i].ticket].sid == s.started[i].sid
          && s.admitted[s.started[i].ticket].prompt == s.started[i].prompt)
      && (forall i, j | 0 <= i < j < |s.started| ::
          && s.started[i].ticket != s.started[j].ticket
          && (s.admitted[s.started[i].ticket].pid != "" ==>
              s.admitted[s.started[i].ticket].pid != s.admitted[s.started[j].ticket].pid))
  {
    hide At, Next, PromptsOk, Located;
    StartInv();
    var w := RunKeeps(START, map[], actions);
    var s := Run(START, actions).value;
    assert forall i | 0 <= i < |s.started| :: TurnStands(s, s.started[i]);
    forall i, j | 0 <= i < j < |s.started|
      ensures s.admitted[s.started[i].ticket].pid != "" ==>
        s.admitted[s.started[i].ticket].pid != s.admitted[s.started[j].ticket].pid
    {
      assert s.started[i].ticket < s.started[j].ticket || s.started[j].ticket < s.started[i].ticket;
    }
  }

  /** A refused turn start that lost a race is not the end of a wakeup: once its thread is done the
      wakeup waits in the queue of its own session. */
  lemma ConflictRequeues(actions: seq<Action>, id: ThreadId)
    requires Run(START, actions).Some?
    requires var s := Run(START, actions).value; id in s.wakeups && s.wakeups[id].conflict
    ensures var s := Run(START, actions).value;
      var e := s.wakeups[id].entry;
      && e.ticket < |s.admitted| && Next(s, Redefer(id)).Some?
      && var s' := Next(s, Redefer(id)).value;
      && At(s', InQueue(s.admitted[e.ticket].sid), e.ticket)
      && s'.admitted == s.admitted && e.prompt == s.admitted[e.ticket].prompt && e.ticket !in s'.outcomes
  {
    hide Next, Gated, Logged, PromptsOk;
    StartInv();
    var w := RunKeeps(START, map[], actions);
    var s := Run(START, actions).value;
    Requeues(s, w, id);
  }

  lemma Requeues(s: State, w: Places, id: ThreadId)
    requires Inv(s, w) && id in s.wakeups && s.wakeups[id].conflict
    ensures var e := s.wakeups[id].entry;
      && Next(s, Redefer(id)).Some?
      && var s' := Next(s, Redefer(id)).value;
      && e.ticket < |s.admitted| && s'.admitted == s.admitted
      && At(s', InQueue(s.admitted[e.ticket].sid), e.ticket)
      && e.prompt == s.admitted[e.ticket].prompt && e.ticket !in s'.outcomes
  {
    hide Gated, Logged, PromptsOk, QueuesOk, TeardownsOk, Placed, AllAt, Recorded, Carries, TicketsDiffer;
    ThreadHolds(s, w, id);
    NotEnded(s, w, id);
    IntoQueue(s, Next(s, Redefer(id)).value, w, s.wakeups[id].sid, s.wakeups[id].entry);
  }
}
