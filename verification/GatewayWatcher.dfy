/** The poll loop that turns database changes into events: a cheap fingerprint decides whether to
    project, an epoch fences polls that outlive their subscribers, and every critical section is one
    step between subscribers coming and going and the database moving on. */
module GatewayWatcher {
  import opened Options

  type SubscriberId = nat
  type Snapshot = seq<string>

  datatype Event = Changed(sessions: Snapshot) | Sentinel

  const QUEUE_SIZE := 10
  const PARITY_INTERVAL := 60.0

  /** The database over time, by version: whether the file exists, its fingerprint, its projection;
      and the hash of a projection. */
  datatype World = World(exists_: nat -> bool, fingerprint: nat -> string, projection: nat -> Snapshot, hash: Snapshot -> string)

  /** Fingerprints and hashes identify what they cover, neither is ever empty, a fingerprint that
      went away does not come back, and a missing database projects to nothing. */
  ghost predicate Honest(w: World) {
    && (forall v | !w.exists_(v) :: w.projection(v) == [])
    && (forall v | w.exists_(v) :: w.fingerprint(v) != "")
    && (forall u, v | w.exists_(u) && w.exists_(v) && w.fingerprint(u) == w.fingerprint(v) :: w.projection(u) == w.projection(v))
    && (forall u, v, x | u <= v <= x && w.exists_(u) && w.exists_(x) && w.fingerprint(u) == w.fingerprint(x) ::
        w.exists_(v) && w.fingerprint(v) == w.fingerprint(u))
    && (forall v :: w.hash(w.projection(v)) != "")
    && (forall u, v | w.hash(w.projection(u)) == w.hash(w.projection(v)) :: w.projection(u) == w.projection(v))
  }

  /** The shared state of a watcher. */
  datatype Watch = Watch(
    subscribers: seq<SubscriberId>, queues: map<SubscriberId, seq<Event>>, epoch: nat,
    lastHash: string, lastSessions: Snapshot, lastFingerprint: string, lastProjectionAt: Option<real>, stopped: bool)

  // ---- Critical sections ----

  function Queue(w: Watch, id: SubscriberId): seq<Event> {
    if id in w.queues then w.queues[id] else []
  }

  function Subscribed(w: Watch, id: SubscriberId): Watch {
    w.(subscribers := w.subscribers + [id], queues := w.queues[id := if w.stopped then [Sentinel] else []])
  }

  function Without(ids: seq<SubscriberId>, id: SubscriberId): seq<SubscriberId> {
    if ids == [] then [] else if ids[0] == id then ids[1..] else [ids[0]] + Without(ids[1..], id)
  }

  /** Removes a known subscriber; the last removal opens a new epoch and forgets the fingerprint. */
  function Removed(w: Watch, id: SubscriberId): Watch {
    if id !in w.subscribers then w
    else
      var rest := Without(w.subscribers, id);
      if rest == [] then w.(subscribers := [], epoch := w.epoch + 1, lastFingerprint := "", lastProjectionAt := None)
      else w.(subscribers := rest)
  }

  /** The queue of a dropped subscriber: the sentinel gets in when there is room, because the reader
      took something meanwhile. */
  function Closed(queue: seq<Event>, read: bool): seq<Event> {
    var left := if read && queue != [] then queue[1..] else queue;
    if |left| < QUEUE_SIZE then left + [Sentinel] else left
  }

  /** Removes a subscriber and offers it the sentinel; `readers` take an event first. */
  function Dropped(w: Watch, id: SubscriberId, readers: set<SubscriberId>): Watch {
    var r := Removed(w, id);
    if id in r.queues then r.(queues := r.queues[id := Closed(r.queues[id], id in readers)]) else r
  }

  function AllDropped(w: Watch, ids: seq<SubscriberId>, readers: set<SubscriberId>): Watch
    decreases |ids|
  {
    if ids == [] then w else AllDropped(Dropped(w, ids[0], readers), ids[1..], readers)
  }

  /** Subscribers whose queue is full. */
  function Slow(w: Watch, ids: seq<SubscriberId>): seq<SubscriberId> {
    if ids == [] then [] else (if |Queue(w, ids[0])| >= QUEUE_SIZE then [ids[0]] else []) + Slow(w, ids[1..])
  }

  /** The queues once `event` was offered to `ids`. */
  function Pushed(w: Watch, event: Event, ids: seq<SubscriberId>): map<SubscriberId, seq<Event>> {
    map id | id in w.queues ::
      if id in ids && |w.queues[id]| < QUEUE_SIZE then w.queues[id] + [event] else w.queues[id]
  }

  /** Offers an event to every subscriber; those whose queue is full are dropped. */
  function Told(w: Watch, event: Event, readers: set<SubscriberId>): Watch {
    AllDropped(w.(queues := Pushed(w, event, w.subscribers)), Slow(w, w.subscribers), readers)
  }

  /** Tells the subscribers of the poll's own epoch. */
  function Notified(w: Watch, sessions: Snapshot, epoch: nat, readers: set<SubscriberId>): Watch {
    if epoch != w.epoch then w else Told(w, Changed(sessions), readers)
  }

  /** The sentinel that a stopping watcher sends to everyone; where a queue is full it waits until the
      reader took something. */
  function Announced(w: Watch): Watch {
    w.(queues := Ended(w.queues, w.subscribers))
  }

  function Ended(queues: map<SubscriberId, seq<Event>>, ids: seq<SubscriberId>): map<SubscriberId, seq<Event>> {
    map id | id in queues :: if id in ids then Ending(queues[id]) else queues[id]
  }

  function Ending(queue: seq<Event>): seq<Event> {
    (if |queue| < QUEUE_SIZE then queue else queue[1..]) + [Sentinel]
  }

  // ---- A poll ----

  /** A poll in progress: admitted; past the missing-database guard; with its fingerprint, read at version `readAt`; with its
      projection, read at version `seenAt`; committed and about to notify. */
  datatype Poll =
    | NoPoll
    | Admitted(epoch: nat)
    | Guarded(epoch: nat)
    | Fingerprinted(epoch: nat, cheap: Option<string>, time: real, readAt: nat)
    | Projected(epoch: nat, cheap: Option<string>, time: real, readAt: nat, sessions: Snapshot, seenAt: nat)
    | Committed(epoch: nat, sessions: Snapshot)

  /** The missing-database guard. */
  predicate Waits(w: Watch, present: bool) {
    !present && w.lastProjectionAt.None? && w.lastHash == ""
  }

  predicate ParityDue(w: Watch, time: real) {
    w.lastProjectionAt.None? || time - w.lastProjectionAt.value >= PARITY_INTERVAL
  }

  /** The poll ends here without projecting. */
  predicate Skips(w: Watch, cheap: Option<string>, time: real) {
    cheap == Some(w.lastFingerprint) && !ParityDue(w, time)
  }

  /** The fingerprint a poll reads: empty for a missing database, none when reading it fails. */
  function Cheap(world: World, v: nat, readable: bool): Option<string> {
    if !world.exists_(v) then Some("") else if readable then Some(world.fingerprint(v)) else None
  }

  function CommitTo(w: Watch, world: World, p: Poll): Watch
    requires p.Projected?
  {
    if p.epoch != w.epoch || w.subscribers == [] then w
    else
      var w1 := w.(lastFingerprint := if p.cheap.Some? then p.cheap.value else w.lastFingerprint, lastProjectionAt := Some(p.time));
      if world.hash(p.sessions) != w.lastHash then w1.(lastHash := world.hash(p.sessions), lastSessions := p.sessions) else w1
  }

  /** Whether the commit has something to tell. */
  predicate Tells(w: Watch, world: World, p: Poll)
    requires p.Projected?
  {
    p.epoch == w.epoch && w.subscribers != [] && world.hash(p.sessions) != w.lastHash
  }

  /** Commit and notification together. */
  function Polled(w: Watch, world: World, p: Poll, readers: set<SubscriberId>): Watch
    requires p.Projected?
  {
    if Tells(w, world, p) then Notified(CommitTo(w, world, p), p.sessions, p.epoch, readers) else CommitTo(w, world, p)
  }

  // ---- Interleavings ----

  /** `version` is the database now. The last two are history: the version the stored fingerprint was
      read from, and the version of the last committed projection, since the current epoch began. */
  datatype State = State(watch: Watch, poll: Poll, version: nat, fingerprintAt: Option<nat>, projectionAt: Option<nat>)

  datatype Action =
    | Subscribe(id: SubscriberId)
    | Unsubscribe(id: SubscriberId)
    | Consume(id: SubscriberId)
    | Stop
    | Announce                                          // the rest of a stop, under the lock
    | Move(steps: nat)                                   // the database moves on
    | Admit
    | Guard
    | ReadFingerprint(readable: bool, time: real)
    | Project(readable: bool)
    | Commit
    | Notify(readers: set<SubscriberId>)                // who of the dropped reads meanwhile

  /** History follows the epoch. */
  function Fenced(s: State, w: Watch): State {
    if w.epoch != s.watch.epoch then s.(watch := w, fingerprintAt := None, projectionAt := None) else s.(watch := w)
  }

  function Next(s: State, world: World, a: Action): Option<State> {
    match a
    case Subscribe(id) => if id in s.watch.queues then None else Some(s.(watch := Subscribed(s.watch, id)))
    case Unsubscribe(id) => Some(Fenced(s, Removed(s.watch, id)))
    case Consume(id) =>
      if Queue(s.watch, id) == [] then None
      else Some(s.(watch := s.watch.(queues := s.watch.queues[id := s.watch.queues[id][1..]])))
    case Stop => Some(s.(watch := s.watch.(stopped := true)))
    case Announce => if !s.watch.stopped then None else Some(s.(watch := Announced(s.watch)))
    case Move(steps) => Some(s.(version := s.version + steps))
    case Admit =>
      if !s.poll.NoPoll? || s.watch.subscribers == [] then None else Some(s.(poll := Admitted(s.watch.epoch)))
    case Guard =>
      if !s.poll.Admitted? then None
      else Some(s.(poll := if Waits(s.watch, world.exists_(s.version)) then NoPoll else Guarded(s.poll.epoch)))
    case ReadFingerprint(readable, time) =>
      if !s.poll.Guarded? then None
      else
        var cheap := Cheap(world, s.version, readable);
        if Skips(s.watch, cheap, time) then Some(s.(poll := NoPoll))
        else Some(s.(poll := Fingerprinted(s.poll.epoch, cheap, time, s.version)))
    case Project(readable) =>
      if !s.poll.Fingerprinted? then None
      else if world.exists_(s.version) && !readable then Some(s.(poll := NoPoll))
      else
        Some(s.(poll := Projected(s.poll.epoch, s.poll.cheap, s.poll.time, s.poll.readAt, world.projection(s.version), s.version)))
    case Commit =>
      if !s.poll.Projected? then None
      else
        var p := s.poll;
        var landed := p.epoch == s.watch.epoch && s.watch.subscribers != [];
        Some(s.(watch := CommitTo(s.watch, world, p),
                poll := if Tells(s.watch, world, p) then Committed(p.epoch, p.sessions) else NoPoll,
                fingerprintAt := if landed && p.cheap.Some? then Some(p.readAt) else s.fingerprintAt,
                projectionAt := if landed then Some(p.seenAt) else s.projectionAt))
    case Notify(readers) =>
      if !s.poll.Committed? then None
      else Some(Fenced(s, Notified(s.watch, s.poll.sessions, s.poll.epoch, readers)).(poll := NoPoll))
  }

  function Run(s: State, world: World, actions: seq<Action>): Option<State>
    decreases |actions|
  {
    if actions == [] then Some(s)
    else
      match Next(s, world, actions[0])
      case None => None
      case Some(s') => Run(s', world, actions[1..])
  }

  const FRESH := State(Watch([], map[], 0, "", [], "", None, false), NoPoll, 0, None, None)

  // ---- The invariant ----

  ghost predicate Ok(s: State, world: World) {
    var w := s.watch;
    // The stored fingerprint is the one read at its version, no later than the committed projection.
    && (s.fingerprintAt.None? ==> w.lastFingerprint == "")
    && (s.fingerprintAt.Some? ==>
        && s.projectionAt.Some? && s.fingerprintAt.value <= s.projectionAt.value
        && w.lastFingerprint == CheapAt(world, s.fingerprintAt.value))
    && (w.lastProjectionAt.Some? <==> s.projectionAt.Some?)
    && (s.projectionAt.Some? ==> s.projectionAt.value <= s.version && w.lastSessions == world.projection(s.projectionAt.value)
                                 && w.lastHash == world.hash(w.lastSessions))
    && (if w.lastHash == "" then w.lastSessions == [] else w.lastHash == world.hash(w.lastSessions) && Projects(world, w.lastSessions))
    && PollOk(s, world)
    && (forall id | id in w.subscribers :: id in w.queues)
  }

  ghost predicate Projects(world: World, sessions: Snapshot) {
    exists v :: world.projection(v) == sessions
  }

  function CheapAt(world: World, v: nat): string {
    if world.exists_(v) then world.fingerprint(v) else ""
  }

  ghost predicate PollOk(s: State, world: World) {
    match s.poll
    case NoPoll => true
    case Admitted(epoch) => epoch <= s.watch.epoch
    case Guarded(epoch) => epoch <= s.watch.epoch
    case Fingerprinted(epoch, cheap, _, readAt) =>
      && epoch <= s.watch.epoch && (s.fingerprintAt.Some? ==> s.fingerprintAt.value <= readAt) && readAt <= s.version
      && (cheap.Some? ==> cheap.value == CheapAt(world, readAt))
    case Projected(epoch, cheap, _, readAt, sessions, seenAt) =>
      && epoch <= s.watch.epoch && (s.fingerprintAt.Some? ==> s.fingerprintAt.value <= readAt) && readAt <= seenAt <= s.version
      && (cheap.Some? ==> cheap.value == CheapAt(world, readAt)) && sessions == world.projection(seenAt)
    case Committed(epoch, _) => epoch <= s.watch.epoch
  }

  // ---- Removing subscribers ----

  lemma {:induction false} WithoutMembers(ids: seq<SubscriberId>, id: SubscriberId)
    ensures forall x | x in Without(ids, id) :: x in ids
    ensures id in ids ==> |Without(ids, id)| == |ids| - 1
    decreases |ids|
  {
    if ids != [] && ids[0] != id {
      WithoutMembers(ids[1..], id);
    }
  }

  /** Removing subscribers keeps everything when some are left, and opens exactly one new epoch, with
      the fingerprint and the projection time forgotten, when none are. */
  lemma RemovedMeans(w: Watch, id: SubscriberId)
    ensures var r := Removed(w, id);
      && r.queues == w.queues && r.lastHash == w.lastHash && r.lastSessions == w.lastSessions && r.stopped == w.stopped
      && (forall x | x in r.subscribers :: x in w.subscribers) && (w.subscribers == [] ==> r == w)
      && (if w.subscribers != [] && r.subscribers == []
          then r.epoch == w.epoch + 1 && r.lastFingerprint == "" && r.lastProjectionAt == None
          else r.epoch == w.epoch && r.lastFingerprint == w.lastFingerprint && r.lastProjectionAt == w.lastProjectionAt)
  {
    WithoutMembers(w.subscribers, id);
  }

  lemma DroppedMeans(w: Watch, id: SubscriberId, readers: set<SubscriberId>)
    ensures var (r, d) := (Removed(w, id), Dropped(w, id, readers));
      && d == r.(queues := d.queues) && d.queues.Keys == w.queues.Keys
      && (forall x | x in w.queues && x != id :: d.queues[x] == w.queues[x])
      && (id in w.queues ==> d.queues[id] == Closed(w.queues[id], id in readers))
  {
    hide Removed, Closed;
    RemovedMeans(w, id);
  }

  /** The same for dropping several; queues only change where a sentinel is offered. */
  lemma {:induction false} AllDroppedMeans(w: Watch, ids: seq<SubscriberId>, readers: set<SubscriberId>)
    ensures var r := AllDropped(w, ids, readers);
      && r.lastHash == w.lastHash && r.lastSessions == w.lastSessions && r.stopped == w.stopped
      && r.queues.Keys == w.queues.Keys && (forall x | x in w.queues && x !in ids :: r.queues[x] == w.queues[x])
      && (forall x | x in r.subscribers :: x in w.subscribers) && (w.subscribers == [] ==> r.subscribers == [])
      && (if w.subscribers != [] && r.subscribers == []
          then r.epoch == w.epoch + 1 && r.lastFingerprint == "" && r.lastProjectionAt == None
          else r.epoch == w.epoch && r.lastFingerprint == w.lastFingerprint && r.lastProjectionAt == w.lastProjectionAt)
    decreases |ids|
  {
    hide Removed, Dropped;
    if ids != [] {
      RemovedMeans(w, ids[0]);
      DroppedMeans(w, ids[0], readers);
      AllDroppedMeans(Dropped(w, ids[0], readers), ids[1..], readers);
    }
  }

  // ---- Every step ----

  lemma StepKeeps(s: State, world: World, a: Action)
    requires Honest(world) && Ok(s, world) && Next(s, world, a).Some?
    ensures Ok(Next(s, world, a).value, world)
  {
    hide Removed, AllDropped, Slow, Honest;
    if a.Unsubscribe? {
      RemovedMeans(s.watch, a.id);
    } else if a.Notify? {
      var w := s.watch;
      AllDroppedMeans(w.(queues := Pushed(w, Changed(s.poll.sessions), w.subscribers)), Slow(w, w.subscribers), a.readers);
    } else if a.Commit? {
      CommitKeeps(s, world);
    }
  }

  lemma CommitKeeps(s: State, world: World)
    requires Honest(world) && Ok(s, world) && Next(s, world, Commit).Some?
    ensures Ok(Next(s, world, Commit).value, world)
  {
    hide Projects, Honest;
    HashTells(world, s.poll.seenAt, s.watch.lastSessions);
  }

  lemma HashTells(world: World, v: nat, sessions: Snapshot)
    requires Honest(world)
    ensures Projects(world, world.projection(v)) && world.hash(world.projection(v)) != ""
    ensures Projects(world, sessions) && world.hash(sessions) == world.hash(world.projection(v)) ==> sessions == world.projection(v)
  {
  }

  lemma {:induction false} RunKeeps(s: State, world: World, actions: seq<Action>)
    requires Honest(world) && Ok(s, world) && Run(s, world, actions).Some?
    ensures Ok(Run(s, world, actions).value, world)
    decreases |actions|
  {
    hide Ok, Next, Honest;
    if actions != [] {
      StepKeeps(s, world, actions[0]);
      RunKeeps(Next(s, world, actions[0]).value, world, actions[1..]);
    }
  }

  // ---- Skipped polls ----

  /** After any run, when a poll skips the last
      committed snapshot is the projection of the current database, except when the database is gone
      and there was something to show. */
  lemma SkipIsSound(world: World, actions: seq<Action>, readable: bool, time: real)
    requires Honest(world) && Run(FRESH, world, actions).Some?
    requires var s := Run(FRESH, world, actions).value; s.poll.Guarded? && Skips(s.watch, Cheap(world, s.version, readable), time)
    ensures var s := Run(FRESH, world, actions).value;
      && (s.watch.lastSessions == world.projection(s.version) <==> world.exists_(s.version) || s.watch.lastSessions == [])
      && s.watch.lastProjectionAt.Some? && time < s.watch.lastProjectionAt.value + PARITY_INTERVAL
  {
    hide Next, PollOk;
    FreshIsOk(world);
    RunKeeps(FRESH, world, actions);
    var s := Run(FRESH, world, actions).value;
    if world.exists_(s.version) {
      var (f, p) := (s.fingerprintAt.value, s.projectionAt.value);
      assert world.exists_(f) && world.fingerprint(f) == world.fingerprint(s.version);
    }
  }

  /** A database with one session, at version 1 only. */
  const BRIEF := World(v => v == 1, v => "fp", v => if v == 1 then ["session"] else [], a => if a == [] then "empty" else "full")

  const UNREAD_ONCE := [Subscribe(0), Move(1), Admit, Guard, ReadFingerprint(false, 0.0), Project(true), Commit, Notify({}), Move(1), Admit, Guard]

  function Showing(queue: seq<Event>, poll: Poll, version: nat): State {
    State(Watch([0], map[0 := queue], 0, "full", ["session"], "", Some(0.0), false), poll, version, None, Some(1))
  }

  lemma RunStep(s: State, world: World, actions: seq<Action>, i: nat)
    requires i < |actions|
    ensures Run(s, world, actions[i..]) ==
      match Next(s, world, actions[i]) case None => None case Some(s') => Run(s', world, actions[i + 1..])
  {
    assert actions[i..][1..] == actions[i + 1..];
  }

  lemma UnreadOnceShows()
    ensures Run(FRESH, BRIEF, UNREAD_ONCE) == Run(Showing([], Committed(0, ["session"]), 1), BRIEF, UNREAD_ONCE[7..])
  {
    hide Run;
    var w := Watch([0], map[0 := []], 0, "", [], "", None, false);
    var s1 := State(w, NoPoll, 0, None, None);
    assert Next(FRESH, BRIEF, Subscribe(0)) == Some(s1) by {
      assert FRESH.watch.queues[0 := []] == w.queues && FRESH.watch.subscribers + [0] == [0];
    }
    var s2 := s1.(version := 1);
    RunStep(FRESH, BRIEF, UNREAD_ONCE, 0);
    RunStep(s1, BRIEF, UNREAD_ONCE, 1);
    RunStep(s2, BRIEF, UNREAD_ONCE, 2);
    RunStep(s2.(poll := Admitted(0)), BRIEF, UNREAD_ONCE, 3);
    RunStep(s2.(poll := Guarded(0)), BRIEF, UNREAD_ONCE, 4);
    RunStep(s2.(poll := Fingerprinted(0, None, 0.0, 1)), BRIEF, UNREAD_ONCE, 5);
    RunStep(s2.(poll := Projected(0, None, 0.0, 1, ["session"], 1)), BRIEF, UNREAD_ONCE, 6);
    assert UNREAD_ONCE[0..] == UNREAD_ONCE;
  }

  lemma ShowingTells()
    ensures Next(Showing([], Committed(0, ["session"]), 1), BRIEF, Notify({})) == Some(Showing([Changed(["session"])], NoPoll, 1))
  {
    var w := Showing([], NoPoll, 1).watch;
    assert [0][1..] == [];
    assert Slow(w, [0]) == [];
    var event := Changed(["session"]);
    PushedNext(w, event, [], 0);
    NothingPushed(w, event);
    assert [] + [0] == [0] && [] + [event] == [event];
    assert w.queues[0 := [event]] == map[0 := [event]];
  }

  /** Such a skip happens: when the fingerprint could not be read but the projection could, the stored
      fingerprint stays empty and matches a database that is removed next, so its sessions stay on show. */
  lemma SkipOfMissing()
    ensures Honest(BRIEF) && Run(FRESH, BRIEF, UNREAD_ONCE).Some?
    ensures var s := Run(FRESH, BRIEF, UNREAD_ONCE).value;
      && s.poll.Guarded? && Skips(s.watch, Cheap(BRIEF, s.version, true), 5.0)
      && s.watch.lastSessions == ["session"] && BRIEF.projection(s.version) == []
  {
    hide Run, Notified, Honest, Skips, Cheap;
    BriefIsHonest();
    UnreadOnceShows();
    ShowingTells();
    var told := [Changed(["session"])];
    RunStep(Showing([], Committed(0, ["session"]), 1), BRIEF, UNREAD_ONCE, 7);
    RunStep(Showing(told, NoPoll, 1), BRIEF, UNREAD_ONCE, 8);
    RunStep(Showing(told, NoPoll, 2), BRIEF, UNREAD_ONCE, 9);
    RunStep(Showing(told, Admitted(0), 2), BRIEF, UNREAD_ONCE, 10);
    RunEnds(Showing(told, Guarded(0), 2), BRIEF, UNREAD_ONCE);
    MissingSkips(told);
  }

  lemma BriefIsHonest()
    ensures Honest(BRIEF)
  {
  }

  lemma MissingSkips(told: seq<Event>)
    ensures Skips(Showing(told, Guarded(0), 2).watch, Cheap(BRIEF, 2, true), 5.0)
  {
  }

  lemma RunEnds(s: State, world: World, actions: seq<Action>)
    ensures Run(s, world, actions[|actions|..]) == Some(s)
  {
  }

  // ---- Before there is a database ----

  /** Nothing was projected, and nobody was told anything but that the watcher stopped. */
  ghost predicate Silent(s: State) {
    && s.watch.lastProjectionAt == None && s.watch.lastHash == "" && s.watch.lastSessions == []
    && (s.poll.NoPoll? || s.poll.Admitted?)
    && forall id | id in s.watch.queues :: forall e | e in s.watch.queues[id] :: e == Sentinel
  }

  lemma SilentStep(s: State, world: World, a: Action)
    requires Silent(s) && !world.exists_(s.version) && Next(s, world, a).Some?
    ensures Silent(Next(s, world, a).value)
  {
    hide Removed, AllDropped, Slow, Pushed;
    if a.Unsubscribe? {
      RemovedMeans(s.watch, a.id);
    } else if a.Consume? {
      var q := s.watch.queues[a.id];
      assert forall e | e in q[1..] :: e in q;
    } else if a.Announce? {
      forall id | id in s.watch.queues ensures forall e | e in Announced(s.watch).queues[id] :: e == Sentinel {
        var q := s.watch.queues[id];
        assert |q| >= QUEUE_SIZE ==> forall e | e in q[1..] :: e in q;
      }
    }
  }

  lemma {:induction false} VersionsGrow(s: State, world: World, actions: seq<Action>)
    requires Run(s, world, actions).Some?
    ensures s.version <= Run(s, world, actions).value.version
    decreases |actions|
  {
    hide Removed, AllDropped, Slow, Pushed;
    if actions != [] {
      VersionsGrow(Next(s, world, actions[0]).value, world, actions[1..]);
    }
  }

  lemma {:induction false} SilentRun(s: State, world: World, actions: seq<Action>)
    requires Silent(s) && Run(s, world, actions).Some?
    requires forall v | s.version <= v <= Run(s, world, actions).value.version :: !world.exists_(v)
    ensures Silent(Run(s, world, actions).value)
    decreases |actions|
  {
    hide Silent, Next;
    if actions != [] {
      var next := Next(s, world, actions[0]).value;
      VersionsGrow(next, world, actions[1..]);
      VersionGrows(s, world, actions[0]);
      SilentStep(s, world, actions[0]);
      SilentRun(next, world, actions[1..]);
    }
  }

  lemma VersionGrows(s: State, world: World, a: Action)
    requires Next(s, world, a).Some?
    ensures s.version <= Next(s, world, a).value.version
  {
    hide Removed, AllDropped, Slow, Pushed;
  }

  /** As long as there was never a database, no run publishes anything: a sidebar that is already there is
      not replaced by an empty one. */
  lemma NothingBeforeDatabase(world: World, actions: seq<Action>)
    requires Run(FRESH, world, actions).Some?
    requires forall v: nat | v <= Run(FRESH, world, actions).value.version :: !world.exists_(v)
    ensures Silent(Run(FRESH, world, actions).value)
  {
    hide Run, Next;
    SilentRun(FRESH, world, actions);
  }

  /** Once something was projected, or as soon as there is a database, the guard lets every poll pass. */
  lemma GuardPasses(s: State, world: World)
    requires s.poll.Admitted?
    requires world.exists_(s.version) || s.watch.lastProjectionAt.Some? || s.watch.lastHash != ""
    ensures Next(s, world, Guard) == Some(s.(poll := Guarded(s.poll.epoch)))
  {
  }

  /** A database that went away is published: a poll past the skip test projects the empty list whether or
      not anything can be read, and commits it when it is news. */
  lemma DisappearanceIsPublished(world: World, actions: seq<Action>, readable: bool)
    requires Honest(world) && Run(FRESH, world, actions).Some?
    requires var s := Run(FRESH, world, actions).value;
      s.poll.Fingerprinted? && s.poll.epoch == s.watch.epoch && s.watch.subscribers != []
      && !world.exists_(s.version) && s.watch.lastSessions != []
    ensures var s := Run(FRESH, world, actions).value;
      var s1 := Next(s, world, Project(readable));
      && s1.Some? && Next(s1.value, world, Commit).Some?
      && var s2 := Next(s1.value, world, Commit).value;
      s2.watch.lastSessions == [] && s2.poll == Committed(s.poll.epoch, []) && s2.watch.queues == s.watch.queues
  {
    FreshIsOk(world);
    RunKeeps(FRESH, world, actions);
    var s := Run(FRESH, world, actions).value;
    HashTells(world, s.version, s.watch.lastSessions);
  }

  // ---- Nobody listening ----

  /** With nobody subscribed and no poll under way, none starts until somebody subscribes. */
  lemma {:induction false} NobodyListens(s: State, world: World, actions: seq<Action>)
    requires s.watch.subscribers == [] && s.poll.NoPoll? && Run(s, world, actions).Some?
    requires forall id :: Subscribe(id) !in actions
    ensures var s' := Run(s, world, actions).value;
      s'.poll.NoPoll? && s'.watch.subscribers == [] && s'.watch.lastSessions == s.watch.lastSessions
    decreases |actions|
  {
    if actions != [] {
      NobodyListens(Next(s, world, actions[0]).value, world, actions[1..]);
    }
  }

  // ---- Stopping ----

  predicate Listed(w: Watch) {
    Distinct(w.subscribers) && forall id | id in w.subscribers :: id in w.queues
  }

  /** `id` has the sentinel to read if it is subscribed, and will get it if it subscribes now. */
  predicate Ends(w: Watch, id: SubscriberId) {
    w.stopped && (id in w.subscribers ==> Sentinel in Queue(w, id))
  }

  /** A step that hands the sentinel to `id`. */
  predicate Reads(s: State, a: Action, id: SubscriberId) {
    a == Consume(id) && Queue(s.watch, id) != [] && Queue(s.watch, id)[0] == Sentinel
  }

  predicate ReadsIn(s: State, world: World, actions: seq<Action>, id: SubscriberId)
    requires Run(s, world, actions).Some?
    decreases |actions|
  {
    actions != [] && (Reads(s, actions[0], id) || ReadsIn(Next(s, world, actions[0]).value, world, actions[1..], id))
  }

  lemma ToldListed(w: Watch, event: Event, readers: set<SubscriberId>, id: SubscriberId)
    requires Listed(w)
    ensures var r := Told(w, event, readers);
      && Listed(r) && r.stopped == w.stopped
      && (id in r.subscribers ==> id in w.subscribers && forall e | e in Queue(w, id) :: e in Queue(r, id))
  {
    hide AllDropped, Slow, Distinct;
    var pushed := w.(queues := Pushed(w, event, w.subscribers));
    SlowDistinct(w, w.subscribers);
    SlowMembers(w, w.subscribers);
    AllDroppedMeans(pushed, Slow(w, w.subscribers), readers);
    AllDroppedMembers(pushed, Slow(w, w.subscribers), readers);
    AllDroppedDistinct(pushed, Slow(w, w.subscribers), readers);
  }

  lemma {:induction false} AllDroppedDistinct(w: Watch, ids: seq<SubscriberId>, readers: set<SubscriberId>)
    requires Distinct(w.subscribers)
    ensures Distinct(AllDropped(w, ids, readers).subscribers)
    decreases |ids|
  {
    hide Removed, Dropped, Distinct;
    if ids != [] {
      RemovedMembers(w, ids[0]);
      DroppedMeans(w, ids[0], readers);
      AllDroppedDistinct(Dropped(w, ids[0], readers), ids[1..], readers);
    }
  }

  lemma ListedStep(s: State, world: World, a: Action)
    requires Listed(s.watch) && Next(s, world, a).Some?
    ensures Listed(Next(s, world, a).value.watch)
  {
    hide Removed, Told;
    if a.Unsubscribe? {
      RemovedMeans(s.watch, a.id);
      RemovedMembers(s.watch, a.id);
    } else if a.Notify? {
      ToldListed(s.watch, Changed(s.poll.sessions), a.readers, 0);
    }
  }

  lemma {:induction false} ListedRun(s: State, world: World, actions: seq<Action>)
    requires Listed(s.watch) && Run(s, world, actions).Some?
    ensures Listed(Run(s, world, actions).value.watch)
    decreases |actions|
  {
    hide Next, Listed;
    if actions != [] {
      ListedStep(s, world, actions[0]);
      ListedRun(Next(s, world, actions[0]).value, world, actions[1..]);
    }
  }

  lemma EndsStep(s: State, world: World, a: Action, id: SubscriberId)
    requires Listed(s.watch) && Ends(s.watch, id) && Next(s, world, a).Some? && !Reads(s, a, id)
    ensures Ends(Next(s, world, a).value.watch, id)
  {
    hide Removed, Told, Distinct;
    if a.Unsubscribe? {
      RemovedMeans(s.watch, a.id);
    } else if a.Notify? {
      ToldListed(s.watch, Changed(s.poll.sessions), a.readers, id);
    } else if a.Consume? && a.id == id && id in s.watch.subscribers {
      var q := s.watch.queues[id];
      assert q == [q[0]] + q[1..];
    }
  }

  lemma {:induction false} EndsRun(s: State, world: World, actions: seq<Action>, id: SubscriberId)
    requires Listed(s.watch) && Ends(s.watch, id) && Run(s, world, actions).Some?
    ensures ReadsIn(s, world, actions, id) || Ends(Run(s, world, actions).value.watch, id)
    decreases |actions|
  {
    hide Next, Listed, Ends, Reads;
    if actions != [] && !Reads(s, actions[0], id) {
      ListedStep(s, world, actions[0]);
      EndsStep(s, world, actions[0], id);
      EndsRun(Next(s, world, actions[0]).value, world, actions[1..], id);
    }
  }

  /** However subscribing and a stop interleave, nobody is left hanging: once a stopping watcher has sent its
      sentinels, every subscriber, also one that subscribes later, has a sentinel to read or has read it. */
  lemma NobodyHangs(world: World, actions: seq<Action>, after: seq<Action>, id: SubscriberId)
    requires Run(FRESH, world, actions).Some? && Next(Run(FRESH, world, actions).value, world, Announce).Some?
    requires Run(Next(Run(FRESH, world, actions).value, world, Announce).value, world, after).Some?
    ensures var s := Next(Run(FRESH, world, actions).value, world, Announce).value;
      var s' := Run(s, world, after).value;
      id in s'.watch.subscribers ==> Sentinel in Queue(s'.watch, id) || ReadsIn(s, world, after, id)
  {
    hide Run;
    ListedRun(FRESH, world, actions);
    var s := Run(FRESH, world, actions).value;
    ListedStep(s, world, Announce);
    EndsRun(Next(s, world, Announce).value, world, after, id);
  }

  // ---- The epoch fence ----

  predicate ByPoll(a: Action) {
    a.Admit? || a.Guard? || a.ReadFingerprint? || a.Project? || a.Commit? || a.Notify?
  }

  function WithoutPoll(actions: seq<Action>): seq<Action> {
    if actions == [] then []
    else if ByPoll(actions[0]) then WithoutPoll(actions[1..])
    else [actions[0]] + WithoutPoll(actions[1..])
  }

  predicate NoneAdmitted(actions: seq<Action>) {
    forall i | 0 <= i < |actions| :: !actions[i].Admit?
  }

  /** The poll in progress, if any, was admitted in an earlier epoch. */
  predicate Stale(s: State) {
    s.poll == NoPoll || s.poll.epoch < s.watch.epoch
  }

  function Alone(s: State): State {
    s.(poll := NoPoll)
  }

  /** A stale poll's steps change nothing but the poll, and nobody else's step depends on it. */
  lemma StaleStep(s: State, world: World, a: Action)
    requires Stale(s) && !a.Admit? && Next(s, world, a).Some?
    ensures Stale(Next(s, world, a).value)
    ensures var s' := Next(s, world, a).value;
      if ByPoll(a) then Alone(s') == Alone(s) else Next(Alone(s), world, a) == Some(Alone(s'))
  {
    hide Removed, AllDropped, Slow;
    if a.Unsubscribe? {
      RemovedMeans(s.watch, a.id);
    }
  }

  lemma {:induction false} StaleRun(s: State, world: World, actions: seq<Action>)
    requires Stale(s) && NoneAdmitted(actions) && Run(s, world, actions).Some?
    ensures Stale(Run(s, world, actions).value)
    ensures Run(Alone(s), world, WithoutPoll(actions)) == Some(Alone(Run(s, world, actions).value))
    decreases |actions|
  {
    hide Next, Stale, Alone, ByPoll;
    if actions != [] {
      StaleStep(s, world, actions[0]);
      assert forall i | 0 <= i < |actions[1..]| :: actions[1..][i] == actions[i + 1];
      StaleRun(Next(s, world, actions[0]).value, world, actions[1..]);
      var rest := WithoutPoll(actions[1..]);
      assert ([actions[0]] + rest)[1..] == rest;
    }
  }

  /** Whatever happens after the last subscriber left, new subscribers included, an earlier poll might
      as well not be there: subscribers, queues, cached fields and history are those of the same run
      with its steps left out. */
  lemma EpochFence(world: World, actions: seq<Action>, id: SubscriberId, after: seq<Action>)
    requires Honest(world) && Run(FRESH, world, actions).Some? && NoneAdmitted(after)
    requires var s := Run(FRESH, world, actions).value;
      s.watch.subscribers != [] && Removed(s.watch, id).subscribers == [] && Run(Fenced(s, Removed(s.watch, id)), world, after).Some?
    ensures var s := Fenced(Run(FRESH, world, actions).value, Removed(Run(FRESH, world, actions).value.watch, id));
      && Next(Run(FRESH, world, actions).value, world, Unsubscribe(id)) == Some(s)
      && Run(Alone(s), world, WithoutPoll(after)) == Some(Alone(Run(s, world, after).value))
  {
    hide Next, Honest;
    FreshIsOk(world);
    RunKeeps(FRESH, world, actions);
    var s := Run(FRESH, world, actions).value;
    LastLeaves(s, world, id);
    StaleRun(Fenced(s, Removed(s.watch, id)), world, after);
  }

  lemma FreshIsOk(world: World)
    ensures Ok(FRESH, world)
  {
  }

  lemma LastLeaves(s: State, world: World, id: SubscriberId)
    requires Ok(s, world) && s.watch.subscribers != [] && Removed(s.watch, id).subscribers == []
    ensures var s' := Fenced(s, Removed(s.watch, id));
      Next(s, world, Unsubscribe(id)) == Some(s') && Stale(s') && s'.watch.lastProjectionAt == None
  {
    hide Removed;
    RemovedMeans(s.watch, id);
  }

  // ---- The next poll projects ----

  /** No step but a commit sets the time of the last projection. */
  lemma StillNone(s: State, world: World, a: Action)
    requires Next(s, world, a).Some? && s.watch.lastProjectionAt == None && (a.Commit? ==> Stale(s))
    ensures Next(s, world, a).value.watch.lastProjectionAt == None
  {
    hide Removed, AllDropped, Slow;
    if a.Unsubscribe? {
      RemovedMeans(s.watch, a.id);
    } else if a.Notify? {
      var w := s.watch;
      AllDroppedMeans(w.(queues := Pushed(w, Changed(s.poll.sessions), w.subscribers)), Slow(w, w.subscribers), a.readers);
    }
  }

  lemma {:induction false} NoneUntilAdmitted(s: State, world: World, actions: seq<Action>)
    requires Stale(s) && s.watch.lastProjectionAt == None && NoneAdmitted(actions) && Run(s, world, actions).Some?
    ensures Run(s, world, actions).value.watch.lastProjectionAt == None
    decreases |actions|
  {
    hide Next, Stale;
    if actions != [] {
      StaleStep(s, world, actions[0]);
      StillNone(s, world, actions[0]);
      assert forall i | 0 <= i < |actions[1..]| :: actions[1..][i] == actions[i + 1];
      NoneUntilAdmitted(Next(s, world, actions[0]).value, world, actions[1..]);
    }
  }

  /** Until its fingerprint is read a poll sees no projection time, once there was none. */
  predicate Undecided(s: State) {
    (s.poll.Admitted? || s.poll.Guarded?) ==> s.watch.lastProjectionAt == None
  }

  lemma UndecidedStep(s: State, world: World, a: Action)
    requires Undecided(s) && !a.Admit? && Next(s, world, a).Some?
    ensures Undecided(Next(s, world, a).value)
  {
    hide Skips;
    if s.poll.Admitted? || s.poll.Guarded? {
      StillNone(s, world, a);
    }
  }

  lemma {:induction false} UndecidedRun(s: State, world: World, actions: seq<Action>)
    requires Undecided(s) && NoneAdmitted(actions) && Run(s, world, actions).Some?
    ensures Undecided(Run(s, world, actions).value)
    decreases |actions|
  {
    hide Next, Undecided;
    if actions != [] {
      UndecidedStep(s, world, actions[0]);
      assert forall i | 0 <= i < |actions[1..]| :: actions[1..][i] == actions[i + 1];
      UndecidedRun(Next(s, world, actions[0]).value, world, actions[1..]);
    }
  }

  /** After the last subscriber left, the first poll admitted from then on projects, whatever its
      fingerprint, if it gets past the missing-database guard. */
  lemma NextPollProjects(world: World, actions: seq<Action>, id: SubscriberId, before: seq<Action>, during: seq<Action>, readable: bool, time: real)
    requires Honest(world) && Run(FRESH, world, actions).Some? && NoneAdmitted(before) && NoneAdmitted(during)
    requires var s := Run(FRESH, world, actions).value;
      s.watch.subscribers != [] && Removed(s.watch, id).subscribers == []
      && Run(Fenced(s, Removed(s.watch, id)), world, before).Some?
    requires var s := Run(FRESH, world, actions).value;
      var s1 := Run(Fenced(s, Removed(s.watch, id)), world, before).value;
      Next(s1, world, Admit).Some? && Run(Next(s1, world, Admit).value, world, during).Some?
      && Run(Next(s1, world, Admit).value, world, during).value.poll.Guarded?
    ensures var s := Run(FRESH, world, actions).value;
      var s1 := Run(Fenced(s, Removed(s.watch, id)), world, before).value;
      var s2 := Run(Next(s1, world, Admit).value, world, during).value;
      Next(s2, world, ReadFingerprint(readable, time)).Some?
      && Next(s2, world, ReadFingerprint(readable, time)).value.poll.Fingerprinted?
  {
    hide Honest, Removed, Ok, Stale;
    FreshIsOk(world);
    RunKeeps(FRESH, world, actions);
    var s := Run(FRESH, world, actions).value;
    LastLeaves(s, world, id);
    var s0 := Fenced(s, Removed(s.watch, id));
    NoneUntilAdmitted(s0, world, before);
    var s1 := Run(s0, world, before).value;
    UndecidedRun(Next(s1, world, Admit).value, world, during);
  }

  // ---- The watcher ----

  predicate Distinct(ids: seq<SubscriberId>) {
    forall i, j | 0 <= i < j < |ids| :: ids[i] != ids[j]
  }

  lemma {:induction false} WithoutDistinct(ids: seq<SubscriberId>, id: SubscriberId)
    requires Distinct(ids)
    ensures Distinct(Without(ids, id)) && forall x :: x in Without(ids, id) <==> x in ids && x != id
    decreases |ids|
  {
    if ids != [] && ids[0] != id {
      assert forall i | 0 <= i < |ids[1..]| :: ids[1..][i] == ids[i + 1];
      WithoutDistinct(ids[1..], id);
      WithoutMembers(ids[1..], id);
      assert forall x :: x in ids <==> x == ids[0] || x in ids[1..];
      assert ids[0] !in ids[1..];
    } else if ids != [] {
      assert forall i | 0 <= i < |ids[1..]| :: ids[1..][i] == ids[i + 1];
      assert forall x :: x in ids <==> x == ids[0] || x in ids[1..];
      assert ids[0] !in ids[1..];
    }
  }

  lemma {:induction false} SlowAppend(w: Watch, ids: seq<SubscriberId>, id: SubscriberId)
    ensures Slow(w, ids + [id]) == Slow(w, ids) + if |Queue(w, id)| >= QUEUE_SIZE then [id] else []
    decreases |ids|
  {
    if ids == [] {
      assert [] + [id] == [id] && [id][1..] == [];
    } else {
      assert (ids + [id])[0] == ids[0] && (ids + [id])[1..] == ids[1..] + [id];
      SlowAppend(w, ids[1..], id);
    }
  }

  lemma NothingPushed(w: Watch, event: Event)
    ensures Pushed(w, event, []) == w.queues && Slow(w, []) == []
  {
  }

  lemma DropNext(w: Watch, ids: seq<SubscriberId>, i: nat, readers: set<SubscriberId>)
    requires i < |ids|
    ensures AllDropped(w, ids[i..], readers) == AllDropped(Dropped(w, ids[i], readers), ids[i + 1..], readers)
  {
    assert ids[i..][1..] == ids[i + 1..];
  }

  lemma NoneToDrop(w: Watch, ids: seq<SubscriberId>, readers: set<SubscriberId>)
    requires ids == []
    ensures AllDropped(w, ids, readers) == w
  {
  }

  lemma PushedNext(w: Watch, event: Event, ids: seq<SubscriberId>, id: SubscriberId)
    requires id in w.queues && id !in ids
    ensures var (q, before) := (w.queues[id], Pushed(w, event, ids));
      id in before && before[id] == q
      && Pushed(w, event, ids + [id]) == if |q| < QUEUE_SIZE then before[id := q + [event]] else before
  {
    assert forall x :: x in ids + [id] <==> x in ids || x == id;
  }

  lemma {:induction false} SlowMembers(w: Watch, ids: seq<SubscriberId>)
    ensures forall id :: id in Slow(w, ids) <==> id in ids && |Queue(w, id)| >= QUEUE_SIZE
    decreases |ids|
  {
    if ids != [] {
      SlowMembers(w, ids[1..]);
      assert forall id :: id in ids <==> id == ids[0] || id in ids[1..];
    }
  }

  lemma {:induction false} SlowDistinct(w: Watch, ids: seq<SubscriberId>)
    requires Distinct(ids)
    ensures Distinct(Slow(w, ids))
    decreases |ids|
  {
    if ids != [] {
      assert forall i | 0 <= i < |ids[1..]| :: ids[1..][i] == ids[i + 1];
      SlowDistinct(w, ids[1..]);
      SlowMembers(w, ids[1..]);
    }
  }

  /** Exactly the dropped subscribers go, and each has had one sentinel offered. */
  lemma {:induction false} AllDroppedMembers(w: Watch, ids: seq<SubscriberId>, readers: set<SubscriberId>)
    requires Distinct(w.subscribers) && Distinct(ids)
    ensures var r := AllDropped(w, ids, readers);
      && (forall id :: id in r.subscribers <==> id in w.subscribers && id !in ids)
      && (forall id | id in ids && id in w.queues :: id in r.queues && r.queues[id] == Closed(w.queues[id], id in readers))
    decreases |ids|
  {
    hide Removed, Dropped, Closed;
    if ids != [] {
      var (first, rest) := (ids[0], ids[1..]);
      RemovedMembers(w, first);
      DroppedMeans(w, first, readers);
      RemovedMeans(w, first);
      assert forall i | 0 <= i < |rest| :: rest[i] == ids[i + 1];
      assert first !in rest && forall id :: id in ids <==> id == first || id in rest;
      AllDroppedMembers(Dropped(w, first, readers), rest, readers);
      AllDroppedMeans(Dropped(w, first, readers), rest, readers);
    }
  }

  lemma RemovedMembers(w: Watch, id: SubscriberId)
    requires Distinct(w.subscribers)
    ensures Distinct(Removed(w, id).subscribers)
    ensures forall x :: x in Removed(w, id).subscribers <==> x in w.subscribers && x != id
  {
    WithoutDistinct(w.subscribers, id);
  }

  /** An undisturbed poll with news: it becomes the last snapshot, exactly the subscribers with room
      stay, and each of them has it as the last thing in its queue. A dropped subscriber that reads
      something before its sentinel is offered has the sentinel last, and otherwise nothing new. */
  lemma PollTells(w: Watch, world: World, p: Poll, readers: set<SubscriberId>)
    requires p.Projected? && w.subscribers != [] && p.epoch == w.epoch && world.hash(p.sessions) != w.lastHash
    requires Distinct(w.subscribers)
    requires forall id | id in w.subscribers :: id in w.queues && |w.queues[id]| <= QUEUE_SIZE
    ensures var w' := Polled(w, world, p, readers);
      && w'.lastSessions == p.sessions && w'.lastHash == world.hash(p.sessions)
      && (forall id :: id in w'.subscribers <==> id in w.subscribers && |Queue(w, id)| < QUEUE_SIZE)
      && (forall id | id in w'.subscribers :: Queue(w', id) == Queue(w, id) + [Changed(p.sessions)])
      && (forall id | id in w.subscribers && id !in w'.subscribers ::
          Queue(w', id) == if id in readers then Queue(w, id)[1..] + [Sentinel] else Queue(w, id))
  {
    hide Removed, AllDropped, Slow, Distinct;
    var c := CommitTo(w, world, p);
    var pushed := c.(queues := Pushed(c, Changed(p.sessions), c.subscribers));
    SlowDistinct(c, c.subscribers);
    AllDroppedMeans(pushed, Slow(c, c.subscribers), readers);
    AllDroppedMembers(pushed, Slow(c, c.subscribers), readers);
    SlowMembers(c, c.subscribers);
  }

  /** An undisturbed poll without news tells nobody anything, and only remembers that it projected. */
  lemma NoNewsIsSilent(w: Watch, world: World, p: Poll, readers: set<SubscriberId>)
    requires p.Projected? && w.subscribers != [] && p.epoch == w.epoch && world.hash(p.sessions) == w.lastHash
    ensures var w' := Polled(w, world, p, readers);
      && w'.queues == w.queues && w'.subscribers == w.subscribers && w'.lastSessions == w.lastSessions && w'.lastHash == w.lastHash
      && w'.lastProjectionAt == Some(p.time) && w'.lastFingerprint == (if p.cheap.Some? then p.cheap.value else w.lastFingerprint)
  {
  }

  lemma EndedNext(queues: map<SubscriberId, seq<Event>>, ids: seq<SubscriberId>, id: SubscriberId)
    requires id in queues && id !in ids
    ensures var ended := Ended(queues, ids);
      id in ended && ended[id] == queues[id] && Ended(queues, ids + [id]) == ended[id := Ending(queues[id])]
  {
  }

  lemma EndedFits(queues: map<SubscriberId, seq<Event>>, ids: seq<SubscriberId>)
    requires forall id | id in queues :: |queues[id]| <= QUEUE_SIZE
    ensures var ended := Ended(queues, ids);
      ended.Keys == queues.Keys && forall id | id in ended :: |ended[id]| <= QUEUE_SIZE
  {
  }

  lemma NobodyEnded(queues: map<SubscriberId, seq<Event>>)
    ensures Ended(queues, []) == queues
  {
  }

  class Watcher {
    var subscribers: seq<SubscriberId>
    var queues: map<SubscriberId, seq<Event>>
    var epoch: nat
    var lastHash: string
    var lastSessions: Snapshot
    var lastFingerprint: string
    var lastProjectionAt: Option<real>
    var stopped: bool

    function Now(): Watch
      reads this
    {
      Watch(subscribers, queues, epoch, lastHash, lastSessions, lastFingerprint, lastProjectionAt, stopped)
    }

    ghost predicate Valid()
      reads this
    {
      && Distinct(subscribers) && (forall id | id in subscribers :: id in queues)
      && (forall id | id in queues :: |queues[id]| <= QUEUE_SIZE)
    }

    constructor ()
      ensures Valid() && Now() == FRESH.watch
    {
      subscribers, queues, epoch := [], map[], 0;
      lastHash, lastSessions, lastFingerprint, lastProjectionAt, stopped := "", [], "", None, false;
    }

    method Subscribe(id: SubscriberId)
      requires Valid() && id !in queues
      modifies this
      ensures Valid() && Now() == Subscribed(old(Now()), id)
    {
      subscribers := subscribers + [id];
      queues := queues[id := []];
      if stopped {
        queues := queues[id := [Sentinel]];
      }
    }

    /** The caller holds the subscriber lock. */
    method RemoveSubscriber(id: SubscriberId) returns (known: bool)
      requires Valid()
      modifies this
      ensures Valid() && Now() == Removed(old(Now()), id)
      ensures known <==> id in old(subscribers)
    {
      if id !in subscribers {
        return false;
      }
      WithoutDistinct(subscribers, id);
      subscribers := Without(subscribers, id);
      if subscribers == [] {
        epoch := epoch + 1;
        lastFingerprint := "";
        lastProjectionAt := None;
      }
      return true;
    }

    method Stop()
      requires Valid()
      modifies this
      ensures Valid() && Now() == Announced(old(Now()).(stopped := true))
    {
      hide Ended;
      stopped := true;
      NobodyEnded(queues);
      for i := 0 to |subscribers|
        invariant subscribers == old(subscribers)
        invariant Now() == old(Now()).(stopped := true, queues := Ended(old(queues), subscribers[..i]))
      {
        var id := subscribers[i];
        EndedNext(old(queues), subscribers[..i], id);
        assert subscribers[..i + 1] == subscribers[..i] + [id];
        assert id in queues && queues[id] == old(queues)[id];
        var queue := if |queues[id]| == QUEUE_SIZE then queues[id][1..] else queues[id];
        queues := queues[id := queue + [Sentinel]];
      }
      assert subscribers[..|subscribers|] == subscribers;
      EndedFits(old(queues), subscribers);
    }

    method Unsubscribe(id: SubscriberId)
      requires Valid()
      modifies this
      ensures Valid() && Now() == Removed(old(Now()), id)
    {
      var _ := RemoveSubscriber(id);
    }

    /** `readers` are the dropped subscribers that read something before their sentinel is offered. */
    method NotifySubscribers(sessions: Snapshot, asOf: nat, readers: set<SubscriberId>)
      requires Valid()
      modifies this
      ensures Valid() && Now() == Notified(old(Now()), sessions, asOf, readers)
    {
      if asOf != epoch {
        return;
      }
      Tell(Changed(sessions), readers);
    }

    /** A poll nobody interferes with: guard, fingerprint, projection, commit, notification. `cheap` and
        `projected` are what reading fingerprint and projection gives. */
    method PollOnce(world: World, present: bool, cheap: Option<string>, time: real, projected: Option<Snapshot>, readers: set<SubscriberId>)
      returns (ran: bool)
      requires Valid()
      modifies this
      ensures Valid()
      ensures ran <==> old(subscribers) != [] && !Waits(old(Now()), present) && !Skips(old(Now()), cheap, time) && projected.Some?
      ensures Now() == if ran then Polled(old(Now()), world, Projected(old(epoch), cheap, time, 0, projected.value, 0), readers) else old(Now())
    {
      hide Told, CommitTo;
      if subscribers == [] {
        return false;
      }
      var admitted := epoch;
      if !present && lastProjectionAt == None && lastHash == "" {
        return false;
      }
      var fingerprintChanged := cheap == None || cheap.value != lastFingerprint;
      var parityDue := lastProjectionAt == None || time - lastProjectionAt.value >= PARITY_INTERVAL;
      if !fingerprintChanged && !parityDue {
        return false;
      }
      if projected == None {
        return false;
      }
      var changed := StoreProjection(world, Projected(admitted, cheap, time, 0, projected.value, 0));
      if changed {
        NotifySubscribers(projected.value, admitted, readers);
      }
      return true;
    }

    /** Commits a projection unless it was fenced off; answers whether there is news to tell. */
    method StoreProjection(world: World, p: Poll) returns (changed: bool)
      requires Valid() && p.Projected?
      modifies this`lastFingerprint, this`lastProjectionAt, this`lastHash, this`lastSessions
      ensures Valid() && Now() == CommitTo(old(Now()), world, p) && changed == Tells(old(Now()), world, p)
    {
      if p.epoch != epoch || subscribers == [] {
        return false;
      }
      if p.cheap.Some? {
        lastFingerprint := p.cheap.value;
      }
      lastProjectionAt := Some(p.time);
      changed := world.hash(p.sessions) != lastHash;
      if changed {
        lastHash, lastSessions := world.hash(p.sessions), p.sessions;
      }
    }

    /** Offers an event to every subscriber and drops those whose queue is full. */
    method Tell(event: Event, readers: set<SubscriberId>)
      requires Valid()
      modifies this
      ensures Valid() && Now() == Told(old(Now()), event, readers)
    {
      hide Pushed, Slow, AllDropped, Dropped;
      var dead := Push(event);
      var i := 0;
      ghost var all := Now();
      assert dead[i..] == dead;
      while i < |dead|
        invariant 0 <= i <= |dead| && Valid()
        invariant AllDropped(Now(), dead[i..], readers) == AllDropped(all, dead, readers)
      {
        DropNext(Now(), dead, i, readers);
        Drop(dead[i], dead[i] in readers, readers);
        i := i + 1;
      }
      NoneToDrop(Now(), dead[i..], readers);
    }

    /** Removes a subscriber and offers it the sentinel, which a full queue does not take. */
    method Drop(id: SubscriberId, read: bool, ghost readers: set<SubscriberId>)
      requires Valid() && (read <==> id in readers)
      modifies this
      ensures Valid() && Now() == Dropped(old(Now()), id, readers)
    {
      hide Removed;
      var _ := RemoveSubscriber(id);
      if id in queues {
        if read && queues[id] != [] {
          queues := queues[id := queues[id][1..]];
        }
        if |queues[id]| < QUEUE_SIZE {
          queues := queues[id := queues[id] + [Sentinel]];
        }
      }
    }

    /** Offers an event to every subscriber; answers whose queue is full. */
    method Push(event: Event) returns (dead: seq<SubscriberId>)
      requires Valid()
      modifies this`queues
      ensures Valid() && dead == Slow(old(Now()), subscribers)
      ensures Now() == old(Now()).(queues := Pushed(old(Now()), event, subscribers))
    {
      hide Pushed, Slow;
      ghost var w := Now();
      dead := [];
      var i := 0;
      NothingPushed(w, event);
      while i < |subscribers|
        invariant 0 <= i <= |subscribers| && Valid()
        invariant Now() == w.(queues := Pushed(w, event, subscribers[..i]))
        invariant dead == Slow(w, subscribers[..i])
      {
        var id := subscribers[i];
        assert subscribers[..i + 1] == subscribers[..i] + [id];
        SlowAppend(w, subscribers[..i], id);
        assert id !in subscribers[..i];
        PushedNext(w, event, subscribers[..i], id);
        if |queues[id]| < QUEUE_SIZE {
          queues := queues[id := queues[id] + [event]];
        } else {
          dead := dead + [id];
        }
        i := i + 1;
      }
      assert subscribers[..i] == subscribers;
    }
  }
}
