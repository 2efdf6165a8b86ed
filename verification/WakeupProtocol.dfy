/** Delivery of process wakeups as a transition system: one drain thread, any number of wakeup
    threads and of turn teardowns, each critical section one atomic step, in any order. Whether a
    session is busy and how a turn start ends is up to the environment at every step. */
module WakeupProtocol {
  import opened Options
  import opened Text
  import opened WakeupStore

  type ThreadId = nat
  type Ticket = nat

  datatype Event = Event(sid: SessionId, pid: ProcessId, prompt: string)

  /** How far the drain thread is with a completion that passed the duplicate gates. */
  datatype Stage = Admitted | Marked | Deferring | Spawning

  datatype Drain = Idle | Taken(event: Event) | Unconsumed(event: Event) | Holding(stage: Stage, sid: SessionId, entry: Entry)

  /** A wakeup thread starts the turn, or has lost the race for it and queues its wakeup again. */
  datatype Wakeup = Wakeup(sid: SessionId, entry: Entry, conflict: bool)

  /** A turn teardown checks for other turns, peeks, claims, and deals with what it claimed. */
  datatype Teardown = Checking(sid: SessionId) | Peeking(sid: SessionId) | Claiming(sid: SessionId)
    | Owning(sid: SessionId, first: Entry, rest: seq<Entry>)

  /** Every way a wakeup can end. */
  datatype Outcome = Started | Silent | Paused | Failed

  datatype Turn = Turn(ticket: Ticket, sid: SessionId, prompt: string)

  datatype State = State(
    consumed: set<ProcessId>,
    seen: map<SessionId, set<ProcessId>>,
    deferred: Deferred,
    drain: Drain,
    wakeups: map<ThreadId, Wakeup>,
    teardowns: map<ThreadId, Teardown>,
    admitted: seq<Event>,             // history: the completions that passed the gates, by ticket
    outcomes: map<Ticket, Outcome>,   // history: how their wakeups ended
    started: seq<Turn>)               // history: the turns that were started, in order

  const START := State({}, map[], map[], Idle, map[], map[], [], map[], [])

  function Seen(s: State, sid: SessionId): set<ProcessId> {
    if sid in s.seen then s.seen[sid] else {}
  }

  /** What `start_session_turn` answered. */
  datatype Answer = Accepted | PausedConflict | Conflict | Refused | Raised

  datatype Action =
    | TakeEvent(event: Event)
    | CheckConsumed
    | CheckSeen
    | MarkConsumed
    | Dispatch(busy: bool)
    | Defer
    | Spawn(thread: ThreadId)
    | ConsumedElsewhere(pid: ProcessId)
    | Answered(thread: ThreadId, answer: Answer)
    | Redefer(thread: ThreadId)
    | BeginTeardown(thread: ThreadId, sid: SessionId)
    | CheckBusy(thread: ThreadId, busy: bool)
    | Peek(thread: ThreadId)
    | ClaimAll(thread: ThreadId)
    | RedeferNext(thread: ThreadId)
    | SpawnFirst(thread: ThreadId, wakeup: ThreadId)

  // ---- The drain thread ----

  function DrainStep(s: State, a: Action): Option<State>
    requires a.TakeEvent? || a.CheckConsumed? || a.CheckSeen? || a.MarkConsumed? || a.Dispatch? || a.Defer? || a.Spawn?
  {
    match a
    case TakeEvent(e) =>
      if s.drain.Idle? && e.sid != "" then Some(s.(drain := Taken(e.(prompt := Strip(e.prompt))))) else None
    case CheckConsumed =>
      if !s.drain.Taken? then None
      else if s.drain.event.pid != "" && s.drain.event.pid in s.consumed then Some(s.(drain := Idle))
      else Some(s.(drain := Unconsumed(s.drain.event)))
    case CheckSeen =>
      if !s.drain.Unconsumed? then None
      else
        var e := s.drain.event;
        if e.pid != "" && e.pid in Seen(s, e.sid) then Some(s.(drain := Idle))
        else
          Some(s.(seen := s.seen[e.sid := Seen(s, e.sid) + (if e.pid != "" then {e.pid} else {})],
                  drain := Holding(Admitted, e.sid, Entry(|s.admitted|, e.pid, e.prompt)),
                  admitted := s.admitted + [e]))
    case MarkConsumed =>
      if !(s.drain.Holding? && s.drain.stage.Admitted?) then None
      else
        Some(s.(consumed := s.consumed + (if s.drain.entry.pid != "" then {s.drain.entry.pid} else {}),
                drain := s.drain.(stage := Marked)))
    case Dispatch(busy) =>
      if !(s.drain.Holding? && s.drain.stage.Marked?) then None
      else if s.drain.entry.prompt == "" then
        Some(s.(outcomes := s.outcomes[s.drain.entry.ticket := Silent], drain := Idle))
      else Some(s.(drain := s.drain.(stage := if busy then Deferring else Spawning)))
    case Defer =>
      if !(s.drain.Holding? && s.drain.stage.Deferring?) then None
      else Some(s.(deferred := Recorded(s.deferred, s.drain.sid, s.drain.entry), drain := Idle))
    case Spawn(id) =>
      if !(s.drain.Holding? && s.drain.stage.Spawning?) || id in s.wakeups then None
      else Some(s.(wakeups := s.wakeups[id := Wakeup(s.drain.sid, s.drain.entry, false)], drain := Idle))
  }

  // ---- Wakeup threads ----

  function TurnOf(w: Wakeup): Turn {
    Turn(w.entry.ticket, w.sid, w.entry.prompt)
  }

  function Ends(s: State, id: ThreadId, o: Outcome): State
    requires id in s.wakeups
  {
    s.(wakeups := s.wakeups - {id},
       outcomes := s.outcomes[s.wakeups[id].entry.ticket := o],
       started := if o.Started? then s.started + [TurnOf(s.wakeups[id])] else s.started)
  }

  function WakeupStep(s: State, a: Action): Option<State>
    requires a.Answered? || a.Redefer?
  {
    if a.thread !in s.wakeups then None
    else
      var w := s.wakeups[a.thread];
      match a
      case Answered(id, answer) =>
        if w.conflict then None
        else (
          match answer
          case Accepted => Some(Ends(s, id, Started))
          case PausedConflict => Some(Ends(s, id, Paused))
          case Conflict => Some(s.(wakeups := s.wakeups[id := w.(conflict := true)]))
          case Refused => Some(Ends(s, id, Failed))
          case Raised => Some(Ends(s, id, Failed)))
      case Redefer(id) =>
        if !w.conflict then None
        else Some(s.(wakeups := s.wakeups - {id}, deferred := Recorded(s.deferred, w.sid, w.entry)))
  }

  // ---- Turn teardowns ----

  function TeardownStep(s: State, a: Action): Option<State>
    requires a.CheckBusy? || a.Peek? || a.ClaimAll? || a.RedeferNext? || a.SpawnFirst?
  {
    if a.thread !in s.teardowns then None
    else
      var (id, t) := (a.thread, s.teardowns[a.thread]);
      var gone := s.(teardowns := s.teardowns - {id});
      match a
      case CheckBusy(_, busy) =>
        if !t.Checking? then None
        else if busy then Some(gone)
        else Some(s.(teardowns := s.teardowns[id := Peeking(t.sid)]))
      case Peek(_) =>
        if !t.Peeking? then None
        else if Queue(s.deferred, t.sid) == [] then Some(gone)
        else Some(s.(teardowns := s.teardowns[id := Claiming(t.sid)]))
      case ClaimAll(_) =>
        if !t.Claiming? then None
        else
          var entries := Speaking(Queue(s.deferred, t.sid));
          if entries == [] then Some(gone.(deferred := s.deferred - {t.sid}))
          else
            Some(s.(deferred := s.deferred - {t.sid},
                    teardowns := s.teardowns[id := Owning(t.sid, entries[0], entries[1..])]))
      case RedeferNext(_) =>
        if !t.Owning? || t.rest == [] then None
        else
          Some(s.(deferred := Recorded(s.deferred, t.sid, t.rest[0]),
                  teardowns := s.teardowns[id := t.(rest := t.rest[1..])]))
      case SpawnFirst(_, wakeup) =>
        if !t.Owning? || t.rest != [] || wakeup in s.wakeups then None
        else Some(gone.(wakeups := s.wakeups[wakeup := Wakeup(t.sid, t.first, false)]))
  }

  /** One atomic step, when it can be taken. */
  function Next(s: State, a: Action): Option<State> {
    match a
    case ConsumedElsewhere(pid) => Some(s.(consumed := s.consumed + {pid}))
    case BeginTeardown(id, sid) =>
      if id in s.teardowns || sid == "" then None else Some(s.(teardowns := s.teardowns[id := Checking(sid)]))
    case Answered(_, _) => WakeupStep(s, a)
    case Redefer(_) => WakeupStep(s, a)
    case CheckBusy(_, _) => TeardownStep(s, a)
    case Peek(_) => TeardownStep(s, a)
    case ClaimAll(_) => TeardownStep(s, a)
    case RedeferNext(_) => TeardownStep(s, a)
    case SpawnFirst(_, _) => TeardownStep(s, a)
    case _ => DrainStep(s, a)
  }

  /** The state after a run, when every step of it can be taken. */
  function Run(s: State, actions: seq<Action>): Option<State>
    decreases |actions|
  {
    if actions == [] then Some(s)
    else
      match Next(s, actions[0])
      case None => None
      case Some(s') => Run(s', actions[1..])
  }

  // ---- Where a wakeup is ----

  datatype Place = InDrain | InQueue(sid: SessionId) | InTeardown(thread: ThreadId) | InThread(thread: ThreadId) | Ended

  predicate Carries(q: seq<Entry>, t: Ticket) {
    exists i :: 0 <= i < |q| && q[i].ticket == t
  }

  /** Wakeup `t` is at place `p`. */
  ghost predicate At(s: State, p: Place, t: Ticket) {
    match p
    case InDrain => s.drain.Holding? && s.drain.entry.ticket == t
    case InQueue(sid) => Carries(Queue(s.deferred, sid), t)
    case InTeardown(id) =>
      id in s.teardowns && s.teardowns[id].Owning? && Carries([s.teardowns[id].first] + s.teardowns[id].rest, t)
    case InThread(id) => id in s.wakeups && s.wakeups[id].entry.ticket == t
    case Ended => t in s.outcomes
  }

  predicate TicketsDiffer(q: seq<Entry>) {
    forall i, j | 0 <= i < j < |q| :: q[i].ticket != q[j].ticket
  }
}
