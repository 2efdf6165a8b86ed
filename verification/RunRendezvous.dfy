/** Where a stream's owner publishes the gateway run id and other threads wait for it, with waiters
    counted and the entry retired by whoever comes last. Every critical section under the condition
    variable is one step, in any order and by any threads. */
module RunRendezvous {
  import opened Options
  import opened Text

  type StreamId = string
  type RunId = string
  type ThreadId = nat

  datatype Phase = Pending | Ready | Fallback | Failed

  datatype Life = Life(phase: Phase, runId: RunId, waiters: nat, ownerDone: bool)

  datatype Owner = Unstarted | Working | Done

  /** What a waiter returns: whether the stream is a structured gateway run, and its run id. */
  datatype Verdict = Verdict(structured: bool, runId: Option<RunId>)

  /** All there is about one stream. The last three are history: how far the owner is, which threads
      are between entering and leaving the wait, and which run ids were published. */
  datatype Stream = Stream(
    life: Option<Life>, mapped: Option<RunId>, owner: Owner, inside: set<ThreadId>, published: set<RunId>)

  const ABSENT := Stream(None, None, Unstarted, {}, {})

  datatype Action =
    | Start
    | Publish(runId: RunId)
    | Relay(runId: RunId)            // an approval event names the run id
    | Finish(fallback: bool)
    | Clear
    | Enter(thread: ThreadId, timedOut: bool)
    | Look(thread: ThreadId, timedOut: bool)

  /** One start per stream; the owner acts between its start and its last clear; a thread looks
      again only from inside the wait. */
  predicate Enabled(st: Stream, a: Action) {
    match a
    case Start => st.owner == Unstarted
    case Publish(_) => st.owner == Working
    case Relay(_) => st.owner == Working
    case Finish(_) => st.owner == Working
    case Clear => st.owner != Unstarted
    case Enter(t, _) => t !in st.inside
    case Look(t, _) => t in st.inside
  }

  // ---- Steps ----

  function Named(r: Option<RunId>): Option<RunId> {
    if r.Some? && Strip(r.value) != "" then Some(Strip(r.value)) else None
  }

  /** What a waiter that holds the lock decides; None when it has to wait on. */
  function Decide(life: Option<Life>, mapped: Option<RunId>, timedOut: bool): Option<Verdict> {
    if life.Some? && life.value.phase == Fallback then Some(Verdict(false, None))
    else if life.Some? && life.value.phase == Failed then Some(Verdict(true, None))
    else if life.Some? && life.value.phase == Ready then
      Some(Verdict(true, if Named(mapped).Some? then Named(mapped) else Named(Some(life.value.runId))))
    else if Named(mapped).Some? then Some(Verdict(true, Named(mapped)))
    else if life.None? then Some(Verdict(false, None))
    else if timedOut then Some(Verdict(true, None))
    else None
  }

  lemma WaitersDecideNothing(life: Option<Life>, mapped: Option<RunId>, timedOut: bool)
    ensures life.Some? ==> forall waiters ::
      Decide(Some(life.value.(waiters := waiters)), mapped, timedOut) == Decide(life, mapped, timedOut)
  {
  }

  function Decision(st: Stream, a: Action): Option<Verdict>
    requires a.Enter? || a.Look?
  {
    Decide(st.life, st.mapped, a.timedOut)
  }

  function Kept(life: Option<Life>, phase: Phase, runId: RunId): Life {
    if life.Some? then Life(phase, runId, life.value.waiters, life.value.ownerDone) else Life(phase, runId, 0, false)
  }

  /** An entry whose owner is done goes as soon as nobody waits. */
  function Retired(st: Stream): Stream {
    if st.life.Some? && st.life.value.waiters == 0 && st.life.value.ownerDone then st.(life := None, mapped := None) else st
  }

  /** A thread leaves the wait. */
  function Left(st: Stream, t: ThreadId): Stream {
    var out := st.(inside := st.inside - {t});
    if st.life.None? then out
    else
      var waiters := if st.life.value.waiters > 0 then st.life.value.waiters - 1 else 0;
      Retired(out.(life := Some(st.life.value.(waiters := waiters))))
  }

  function Next(st: Stream, a: Action): Stream {
    match a
    case Start => st.(mapped := None, life := Some(Life(Pending, "", 0, false)), owner := Working)
    case Publish(r) =>
      st.(mapped := Some(r), life := Some(Kept(st.life, Ready, r)), published := st.published + {r})
    case Relay(r) => st.(mapped := Some(r), published := st.published + {r})
    case Finish(fallback) =>
      if st.life.Some? && st.life.value.phase == Ready then st
      else st.(mapped := None, life := Some(Kept(st.life, if fallback then Fallback else Failed, "")))
    case Clear =>
      Retired(st.(life := if st.life.Some? then Some(st.life.value.(ownerDone := true)) else None, owner := Done))
    case Enter(t, timedOut) =>
      if st.life.None? then st
      else
        var entered := st.(life := Some(st.life.value.(waiters := st.life.value.waiters + 1)), inside := st.inside + {t});
        if Decide(entered.life, st.mapped, timedOut).None? then entered else Left(entered, t)
    case Look(t, timedOut) =>
      if Decide(st.life, st.mapped, timedOut).None? then st else Left(st, t)
  }

  function Run(st: Stream, actions: seq<Action>): Option<Stream>
    decreases |actions|
  {
    if actions == [] then Some(st)
    else if Enabled(st, actions[0]) then Run(Next(st, actions[0]), actions[1..])
    else None
  }

  // ---- The invariant ----

  predicate Ok(st: Stream) {
    // The entry lives from the start until the owner is done and nobody waits any more.
    && (st.life.Some? <==> st.owner == Working || (st.owner == Done && st.inside != {}))
    && (st.mapped.Some? ==> st.life.Some? && st.mapped.value in st.published)
    && (st.life.Some? ==>
        && st.life.value.waiters == |st.inside|
        && (st.life.value.ownerDone <==> st.owner == Done)
        && (st.life.value.phase == Ready ==> st.life.value.runId in st.published))
    && (st.owner == Unstarted ==> st.inside == {})
  }

  lemma LeftOk(st: Stream, t: ThreadId)
    requires Ok(st) && st.life.Some? && t in st.inside
    ensures Ok(Left(st, t))
  {
    assert st.inside == (st.inside - {t}) + {t};
  }

  /** Entering makes a thread count as inside, and waiting there or leaving again keeps the books. */
  lemma EnteredOk(st: Stream, t: ThreadId)
    requires Ok(st) && st.life.Some? && t !in st.inside
    ensures Ok(st.(life := Some(st.life.value.(waiters := st.life.value.waiters + 1)), inside := st.inside + {t}))
  {
  }

  lemma StepKeeps(st: Stream, a: Action)
    requires Ok(st) && Enabled(st, a)
    ensures Ok(Next(st, a))
  {
    hide Decide, Left, Ok;
    if a.Enter? && st.life.Some? {
      var entered := st.(life := Some(st.life.value.(waiters := st.life.value.waiters + 1)), inside := st.inside + {a.thread});
      EnteredOk(st, a.thread);
      LeftOk(entered, a.thread);
    } else if a.Look? {
      InsideLives(st, a.thread);
      LeftOk(st, a.thread);
    } else {
      OwnerKeeps(st, a);
    }
  }

  lemma InsideLives(st: Stream, t: ThreadId)
    requires Ok(st) && t in st.inside
    ensures st.life.Some?
  {
  }

  lemma OwnerKeeps(st: Stream, a: Action)
    requires Ok(st) && Enabled(st, a) && !a.Look? && !(a.Enter? && st.life.Some?)
    ensures Ok(Next(st, a))
  {
    hide Decide, Left;
    if st.inside != {} {
      var t :| t in st.inside;
      assert st.inside == (st.inside - {t}) + {t};
    }
  }

  lemma {:induction false} RunKeeps(st: Stream, actions: seq<Action>)
    requires Ok(st) && Run(st, actions).Some?
    ensures Ok(Run(st, actions).value)
    decreases |actions|
  {
    hide Ok, Next;
    if actions != [] {
      StepKeeps(st, actions[0]);
      RunKeeps(Next(st, actions[0]), actions[1..]);
    }
  }

  // ---- The results ----

  /** After any run the waiter count is the number of threads inside the wait, and the entry is
      there for each of them. */
  lemma WaitersAreCounted(actions: seq<Action>)
    requires Run(ABSENT, actions).Some?
    ensures var st := Run(ABSENT, actions).value;
      && (st.inside != {} ==> st.life.Some?)
      && (st.life.Some? ==> st.life.value.waiters == |st.inside|)
  {
    hide Run;
    RunKeeps(ABSENT, actions);
  }

  /** Once the owner is done and the last waiter has left, neither map holds the stream; before that
      the entry is there. */
  lemma NothingIsLeft(actions: seq<Action>)
    requires Run(ABSENT, actions).Some?
    ensures var st := Run(ABSENT, actions).value;
      && (st.owner == Done && st.inside == {} ==> st.life.None? && st.mapped.None?)
      && (st.owner == Working || (st.owner == Done && st.inside != {}) ==> st.life.Some?)
  {
    hide Run;
    RunKeeps(ABSENT, actions);
  }

  /** A waiter reports a run id only if it was published for its stream. */
  lemma ReportsArePublished(actions: seq<Action>, a: Action)
    requires Run(ABSENT, actions).Some? && (a.Enter? || a.Look?) && Enabled(Run(ABSENT, actions).value, a)
    ensures var st := Run(ABSENT, actions).value;
      var d := Decision(st, a);
      d.Some? && d.value.runId.Some? ==> exists r :: r in st.published && Strip(r) == d.value.runId.value
  {
    hide Run, Strip;
    RunKeeps(ABSENT, actions);
  }

  /** A published run id is never replaced by a failure, by any step; only retirement ends it. */
  lemma {:induction false} ReadyStays(st: Stream, actions: seq<Action>)
    requires Ok(st) && Run(st, actions).Some?
    requires st.life.Some? && st.life.value.phase == Ready
    ensures var later := Run(st, actions).value;
      || (later.life.Some? && later.life.value.phase == Ready)
      || (later.life.None? && later.owner == Done && later.inside == {})
    decreases |actions|
  {
    hide Decide, Ok;
    if actions != [] {
      var next := Next(st, actions[0]);
      StepKeeps(st, actions[0]);
      if next.life.Some? {
        ReadyStep(st, actions[0]);
        ReadyStays(next, actions[1..]);
      } else {
        RetiredMeans(next);
        assert next.owner == Done by { StaysStarted(st, actions[0]); }
        StaysRetired(next, actions[1..]);
      }
    }
  }

  lemma ReadyStep(st: Stream, a: Action)
    requires Ok(st) && Enabled(st, a) && st.life.Some? && st.life.value.phase == Ready && Next(st, a).life.Some?
    ensures Next(st, a).life.value.phase == Ready
  {
    hide Decide;
  }

  lemma RetiredMeans(st: Stream)
    requires Ok(st) && st.life.None?
    ensures st.inside == {} && st.owner != Working
  {
  }

  lemma StaysStarted(st: Stream, a: Action)
    requires Ok(st) && Enabled(st, a) && st.life.Some? && Next(st, a).life.None?
    ensures Next(st, a).owner == Done
  {
    hide Decide;
  }

  lemma {:induction false} StaysRetired(st: Stream, actions: seq<Action>)
    requires st.life.None? && st.owner == Done && st.inside == {} && Run(st, actions).Some?
    ensures var later := Run(st, actions).value; later.life.None? && later.owner == Done && later.inside == {}
    decreases |actions|
  {
    hide Decide;
    if actions != [] {
      StaysRetired(Next(st, actions[0]), actions[1..]);
    }
  }

  // ---- What waiters are told ----

  predicate Looks(a: Action) {
    a.Enter? || a.Look?
  }

  /** Only ids with something in them are published among `actions`. */
  predicate PublishesNames(actions: seq<Action>) {
    forall i | 0 <= i < |actions| && actions[i].Publish? :: Strip(actions[i].runId) != ""
  }

  predicate PublishesNothing(actions: seq<Action>) {
    forall i | 0 <= i < |actions| :: !actions[i].Publish? && !actions[i].Relay?
  }

  /** The entry, if it is still there, has a named run id. */
  predicate HasName(st: Stream) {
    st.life.Some? ==> st.life.value.phase == Ready && Strip(st.life.value.runId) != "" && st.life.value.runId in st.published
  }

  /** The entry, if it is still there, has this run id, and so has the other map. */
  predicate NamedBy(st: Stream, r: RunId) {
    st.life.Some? ==> st.life.value.phase == Ready && st.life.value.runId == r && st.mapped == Some(r)
  }

  lemma {:induction false} RunAppend(st: Stream, a: seq<Action>, b: seq<Action>)
    ensures Run(st, a + b) == match Run(st, a) case None => None case Some(st') => Run(st', b)
    decreases |a|
  {
    hide Next, Enabled;
    if a == [] {
      assert a + b == b;
    } else {
      assert (a + b)[0] == a[0] && (a + b)[1..] == a[1..] + b;
      if Enabled(st, a[0]) {
        RunAppend(Next(st, a[0]), a[1..], b);
      }
    }
  }

  lemma {:induction false} StaysNamed(st: Stream, r: RunId, actions: seq<Action>)
    requires Ok(st) && st.owner != Unstarted && Run(st, actions).Some? && HasName(st) && PublishesNames(actions)
    ensures HasName(Run(st, actions).value)
    ensures NamedBy(st, r) && PublishesNothing(actions) ==> NamedBy(Run(st, actions).value, r)
    decreases |actions|
  {
    hide Ok, Decide, Strip;
    if actions != [] {
      var (a, rest) := (actions[0], actions[1..]);
      assert forall i | 0 <= i < |rest| :: rest[i] == actions[i + 1];
      StepKeeps(st, a);
      NamedStep(st, r, a);
      StaysNamed(Next(st, a), r, rest);
    }
  }

  lemma NamedStep(st: Stream, r: RunId, a: Action)
    requires Ok(st) && st.owner != Unstarted && Enabled(st, a) && HasName(st) && (a.Publish? ==> Strip(a.runId) != "")
    ensures HasName(Next(st, a)) && Next(st, a).owner != Unstarted
    ensures NamedBy(st, r) && !a.Publish? && !a.Relay? ==> NamedBy(Next(st, a), r)
  {
    hide Decide, Strip;
  }

  /** Once a named run id was published, every thread that enters or looks while the entry is there
      leaves with a structured verdict and a published id, stripped and not empty; and with the very id
      that was published, as long as nothing else was. */
  lemma PublishedIsReported(actions: seq<Action>, r: RunId, later: seq<Action>, a: Action)
    requires Run(ABSENT, actions + [Publish(r)]).Some? && Run(ABSENT, actions + [Publish(r)] + later).Some?
    requires Strip(r) != "" && PublishesNames(later) && Looks(a)
    requires Run(ABSENT, actions + [Publish(r)] + later).value.life.Some?
    ensures var st := Run(ABSENT, actions + [Publish(r)] + later).value;
      exists id :: id in st.published && Strip(id) != "" && Decision(st, a) == Some(Verdict(true, Some(Strip(id))))
    ensures PublishesNothing(later) ==>
      Decision(Run(ABSENT, actions + [Publish(r)] + later).value, a) == Some(Verdict(true, Some(Strip(r))))
  {
    hide Run, Strip, PublishesNames, PublishesNothing, Decide;
    RunAppend(ABSENT, actions, [Publish(r)]);
    RunAppend(ABSENT, actions + [Publish(r)], later);
    var before := Run(ABSENT, actions).value;
    RunKeeps(ABSENT, actions);
    var st := Next(before, Publish(r));
    OneStep(before, Publish(r));
    StepKeeps(before, Publish(r));
    StaysNamed(st, r, later);
    RunKeeps(st, later);
    NamedDecides(Run(st, later).value, a, r);
  }

  lemma OneStep(st: Stream, a: Action)
    ensures Run(st, [a]) == if Enabled(st, a) then Some(Next(st, a)) else None
  {
    hide Next, Enabled;
    assert [a][1..] == [];
  }

  lemma NamedDecides(st: Stream, a: Action, r: RunId)
    requires Ok(st) && HasName(st) && st.life.Some? && Looks(a)
    ensures exists id :: id in st.published && Strip(id) != "" && Decision(st, a) == Some(Verdict(true, Some(Strip(id))))
    ensures NamedBy(st, r) && Strip(r) != "" ==> Decision(st, a) == Some(Verdict(true, Some(Strip(r))))
  {
    hide Strip;
    if st.mapped.Some? && Strip(st.mapped.value) != "" {
      assert Decision(st, a) == Some(Verdict(true, Some(Strip(st.mapped.value))));
    } else {
      assert Decision(st, a) == Some(Verdict(true, Some(Strip(st.life.value.runId))));
    }
  }

  /** Neither a publication nor another end of the start-up. */
  predicate SettlesNothing(actions: seq<Action>) {
    forall i | 0 <= i < |actions| :: !actions[i].Publish? && !actions[i].Finish?
  }

  predicate Ended(st: Stream, fallback: bool) {
    st.life.Some? ==> st.life.value.phase == if fallback then Fallback else Failed
  }

  lemma {:induction false} StaysEnded(st: Stream, fallback: bool, actions: seq<Action>)
    requires Ok(st) && st.owner != Unstarted && Run(st, actions).Some? && Ended(st, fallback) && SettlesNothing(actions)
    ensures Ended(Run(st, actions).value, fallback)
    decreases |actions|
  {
    hide Ok, Decide, Next;
    if actions != [] {
      var (a, rest) := (actions[0], actions[1..]);
      assert forall i | 0 <= i < |rest| :: rest[i] == actions[i + 1];
      StepKeeps(st, a);
      EndedStep(st, fallback, a);
      StaysEnded(Next(st, a), fallback, rest);
    }
  }

  lemma EndedStep(st: Stream, fallback: bool, a: Action)
    requires Ok(st) && st.owner != Unstarted && Enabled(st, a) && Ended(st, fallback) && !a.Publish? && !a.Finish?
    ensures Ended(Next(st, a), fallback) && Next(st, a).owner != Unstarted
  {
    hide Decide;
  }

  /** After a failure every thread that enters or looks while the entry is there leaves with a structured
      verdict and no id, and after a fallback with an unstructured one, even if an id is relayed. */
  lemma FailureIsReported(actions: seq<Action>, fallback: bool, later: seq<Action>, a: Action)
    requires Run(ABSENT, actions).Some? && Run(ABSENT, actions + [Finish(fallback)]).Some?
    requires Run(ABSENT, actions).value.life.Some? ==> Run(ABSENT, actions).value.life.value.phase != Ready
    requires Run(ABSENT, actions + [Finish(fallback)] + later).Some? && SettlesNothing(later) && Looks(a)
    requires Run(ABSENT, actions + [Finish(fallback)] + later).value.life.Some?
    ensures Decision(Run(ABSENT, actions + [Finish(fallback)] + later).value, a) == Some(Verdict(!fallback, None))
  {
    hide Run, SettlesNothing;
    RunAppend(ABSENT, actions, [Finish(fallback)]);
    RunAppend(ABSENT, actions + [Finish(fallback)], later);
    var before := Run(ABSENT, actions).value;
    RunKeeps(ABSENT, actions);
    OneStep(before, Finish(fallback));
    StepKeeps(before, Finish(fallback));
    StaysEnded(Next(before, Finish(fallback)), fallback, later);
  }

  /** A stream without an entry is not a structured run. */
  lemma AbsentIsReported(actions: seq<Action>, a: Action)
    requires Run(ABSENT, actions).Some? && Run(ABSENT, actions).value.life.None? && Looks(a)
    ensures Decision(Run(ABSENT, actions).value, a) == Some(Verdict(false, None))
  {
    hide Run;
    RunKeeps(ABSENT, actions);
  }

  predicate Undecided(st: Stream) {
    st.life.Some? ==> st.life.value.phase == Pending && st.mapped.None?
  }

  lemma {:induction false} StaysUndecided(st: Stream, actions: seq<Action>)
    requires Ok(st) && st.owner != Unstarted && Run(st, actions).Some? && Undecided(st)
    requires SettlesNothing(actions) && PublishesNothing(actions)
    ensures Undecided(Run(st, actions).value)
    decreases |actions|
  {
    hide Ok, Decide, Next;
    if actions != [] {
      var (a, rest) := (actions[0], actions[1..]);
      assert forall i | 0 <= i < |rest| :: rest[i] == actions[i + 1];
      StepKeeps(st, a);
      UndecidedStep(st, a);
      StaysUndecided(Next(st, a), rest);
    }
  }

  lemma UndecidedStep(st: Stream, a: Action)
    requires Ok(st) && st.owner != Unstarted && Enabled(st, a) && Undecided(st) && !a.Publish? && !a.Finish? && !a.Relay?
    ensures Undecided(Next(st, a)) && Next(st, a).owner != Unstarted
  {
    hide Decide;
  }

  /** Between the start and the first news a thread that enters or looks has to wait on, until it times
      out: then it leaves with a structured verdict and no id. */
  lemma PendingWaits(actions: seq<Action>, later: seq<Action>, a: Action)
    requires Run(ABSENT, actions + [Start]).Some? && Run(ABSENT, actions + [Start] + later).Some?
    requires SettlesNothing(later) && PublishesNothing(later) && Looks(a)
    requires Run(ABSENT, actions + [Start] + later).value.life.Some?
    ensures Decision(Run(ABSENT, actions + [Start] + later).value, a) == if a.timedOut then Some(Verdict(true, None)) else None
  {
    hide Run, SettlesNothing, PublishesNothing;
    RunAppend(ABSENT, actions, [Start]);
    RunAppend(ABSENT, actions + [Start], later);
    var before := Run(ABSENT, actions).value;
    RunKeeps(ABSENT, actions);
    OneStep(before, Start);
    StepKeeps(before, Start);
    StaysUndecided(Next(before, Start), later);
  }

  /** A relayed id is reported while the start-up is still pending. */
  lemma RelayedIsReported(actions: seq<Action>, r: RunId, a: Action)
    requires Run(ABSENT, actions + [Relay(r)]).Some? && Strip(r) != "" && Looks(a)
    requires var st := Run(ABSENT, actions + [Relay(r)]).value; st.life.Some? && st.life.value.phase == Pending
    ensures Decision(Run(ABSENT, actions + [Relay(r)]).value, a) == Some(Verdict(true, Some(Strip(r))))
  {
    hide Run, Strip;
    RunAppend(ABSENT, actions, [Relay(r)]);
    OneStep(Run(ABSENT, actions).value, Relay(r));
  }

  /** Who has to wait on is inside afterwards, and who decides is not. */
  lemma WaitersStayInside(actions: seq<Action>, a: Action)
    requires Run(ABSENT, actions).Some? && Looks(a) && Enabled(Run(ABSENT, actions).value, a)
    ensures var st := Run(ABSENT, actions).value; Decision(st, a).None? <==> a.thread in Next(st, a).inside
  {
    hide Run;
    RunKeeps(ABSENT, actions);
  }

  // ---- The two maps ----

  datatype Book = Book(owner: Owner, inside: set<ThreadId>, published: set<RunId>)

  /** The shared maps. Each method is one critical section and takes the step of its name on its
      stream, and none on any other. */
  class Rendezvous {
    var runIds: map<StreamId, RunId>
    var lives: map<StreamId, Life>
    ghost var books: map<StreamId, Book>

    ghost function View(s: StreamId): Stream
      reads this
    {
      var book := if s in books then books[s] else Book(Unstarted, {}, {});
      Stream(if s in lives then Some(lives[s]) else None, if s in runIds then Some(runIds[s]) else None,
             book.owner, book.inside, book.published)
    }

    ghost predicate Valid()
      reads this
    {
      forall s :: Ok(View(s))
    }

    /** Stream `s` took step `a`, the others none. */
    twostate predicate Stepped(s: StreamId, a: Action)
      reads this
    {
      View(s) == Next(old(View(s)), a) && forall o | o != s :: View(o) == old(View(o))
    }

    constructor ()
      ensures Valid() && lives == map[] && runIds == map[]
    {
      runIds, lives, books := map[], map[], map[];
    }

    ghost method Record(s: StreamId, st: Stream)
      modifies `books
      ensures books == old(books)[s := Book(st.owner, st.inside, st.published)]
    {
      books := books[s := Book(st.owner, st.inside, st.published)];
    }

    method MarkStarting(s: StreamId)
      requires Valid() && Enabled(View(s), Start)
      modifies this
      ensures Valid() && Stepped(s, Start)
    {
      hide Ok;
      StepKeeps(View(s), Start);
      Record(s, Next(View(s), Start));
      runIds := runIds - {s};
      lives := lives[s := Life(Pending, "", 0, false)];
      forall o ensures Ok(View(o)) {
        assert o != s ==> View(o) == old(View(o));
      }
    }

    method PublishRunId(s: StreamId, runId: RunId)
      requires Valid() && Enabled(View(s), Publish(runId))
      modifies this
      ensures Valid() && Stepped(s, Publish(runId))
    {
      hide Ok;
      StepKeeps(View(s), Publish(runId));
      Record(s, Next(View(s), Publish(runId)));
      runIds := runIds[s := runId];
      var waiters, ownerDone := 0, false;
      if s in lives {
        waiters, ownerDone := lives[s].waiters, lives[s].ownerDone;
      }
      lives := lives[s := Life(Ready, runId, waiters, ownerDone)];
      forall o ensures Ok(View(o)) {
        assert o != s ==> View(o) == old(View(o));
      }
    }

    method RelayRunId(s: StreamId, runId: RunId)
      requires Valid() && Enabled(View(s), Relay(runId))
      modifies this
      ensures Valid() && Stepped(s, Relay(runId))
    {
      hide Ok;
      StepKeeps(View(s), Relay(runId));
      Record(s, Next(View(s), Relay(runId)));
      runIds := runIds[s := runId];
      forall o ensures Ok(View(o)) {
        assert o != s ==> View(o) == old(View(o));
      }
    }

    method FinishStarting(s: StreamId, fallback: bool)
      requires Valid() && Enabled(View(s), Finish(fallback))
      modifies this
      ensures Valid() && Stepped(s, Finish(fallback))
    {
      hide Ok;
      StepKeeps(View(s), Finish(fallback));
      if s in lives && lives[s].phase == Ready {
        return;
      }
      Record(s, Next(View(s), Finish(fallback)));
      runIds := runIds - {s};
      var waiters, ownerDone := 0, false;
      if s in lives {
        waiters, ownerDone := lives[s].waiters, lives[s].ownerDone;
      }
      lives := lives[s := Life(if fallback then Fallback else Failed, "", waiters, ownerDone)];
      forall o ensures Ok(View(o)) {
        assert o != s ==> View(o) == old(View(o));
      }
    }

    /** Drops the entry of a stream whose owner is done and that nobody waits for. */
    method RetireIfDone(s: StreamId) returns (retired: bool)
      modifies `lives, `runIds
      ensures View(s) == Retired(old(View(s))) && forall o | o != s :: View(o) == old(View(o))
      ensures retired <==> s in old(lives) && s !in lives
    {
      if s !in lives || lives[s].waiters > 0 || !lives[s].ownerDone {
        return false;
      }
      lives := lives - {s};
      runIds := runIds - {s};
      return true;
    }

    method ClearStarting(s: StreamId)
      requires Valid() && Enabled(View(s), Clear)
      modifies this
      ensures Valid() && Stepped(s, Clear)
    {
      hide Ok;
      StepKeeps(View(s), Clear);
      Record(s, Next(View(s), Clear));
      if s in lives {
        lives := lives[s := lives[s].(ownerDone := true)];
      }
      var retired := RetireIfDone(s);
      forall o ensures Ok(View(o)) {
        assert o != s ==> View(o) == old(View(o));
      }
    }

    method IsPending(s: StreamId) returns (pending: bool)
      ensures pending <==> View(s).life.Some? && View(s).life.value.phase == Pending
    {
      return s in lives && lives[s].phase == Pending;
    }

    /** One round of the waiting loop. */
    method Consider(s: StreamId, timedOut: bool) returns (verdict: Option<Verdict>)
      ensures verdict ==
        Decide(if s in lives then Some(lives[s]) else None, if s in runIds then Some(runIds[s]) else None, timedOut)
    {
      hide Strip;
      if s in lives && lives[s].phase == Fallback {
        return Some(Verdict(false, None));
      }
      if s in lives && lives[s].phase == Failed {
        return Some(Verdict(true, None));
      }
      var runId := if s in runIds then Strip(runIds[s]) else "";
      if s in lives && lives[s].phase == Ready {
        var stored := Strip(lives[s].runId);
        var found := if runId != "" then runId else stored;
        return Some(Verdict(true, if found != "" then Some(found) else None));
      }
      if runId != "" {
        return Some(Verdict(true, Some(runId)));
      }
      if s !in lives {
        return Some(Verdict(false, None));
      }
      if timedOut {
        return Some(Verdict(true, None));
      }
      return None;
    }

    /** A thread enters the wait and looks once; it stays inside when it has to wait on. */
    method EnterWait(s: StreamId, thread: ThreadId, timedOut: bool) returns (verdict: Option<Verdict>)
      requires Valid() && Enabled(View(s), Enter(thread, timedOut))
      modifies this
      ensures Valid() && Stepped(s, Enter(thread, timedOut))
      ensures verdict == Decision(old(View(s)), Enter(thread, timedOut))
    {
      hide Ok, Decide;
      WaitersDecideNothing(View(s).life, View(s).mapped, timedOut);
      StepKeeps(View(s), Enter(thread, timedOut));
      Record(s, Next(View(s), Enter(thread, timedOut)));
      var registered := s in lives;
      if registered {
        lives := lives[s := lives[s].(waiters := lives[s].waiters + 1)];
      }
      verdict := Consider(s, timedOut);
      if verdict.Some? && s in lives {
        LeaveWait(s);
      }
      forall o ensures Ok(View(o)) {
        assert o != s ==> View(o) == old(View(o));
      }
    }

    /** A thread inside the wait wakes up, looks again, and leaves or waits on. */
    method LookAgain(s: StreamId, thread: ThreadId, timedOut: bool) returns (verdict: Option<Verdict>)
      requires Valid() && Enabled(View(s), Look(thread, timedOut))
      modifies this
      ensures Valid() && Stepped(s, Look(thread, timedOut))
      ensures verdict == Decision(old(View(s)), Look(thread, timedOut))
    {
      hide Ok, Decide;
      StepKeeps(View(s), Look(thread, timedOut));
      Record(s, Next(View(s), Look(thread, timedOut)));
      verdict := Consider(s, timedOut);
      if verdict.Some? && s in lives {
        LeaveWait(s);
      }
      forall o ensures Ok(View(o)) {
        assert o != s ==> View(o) == old(View(o));
      }
    }

    /** One waiter fewer, and the entry goes with the last one. */
    method LeaveWait(s: StreamId)
      requires s in lives
      modifies `lives, `runIds
      ensures var waiters := if old(lives)[s].waiters > 0 then old(lives)[s].waiters - 1 else 0;
        View(s) == Retired(old(View(s)).(life := Some(old(lives)[s].(waiters := waiters))))
      ensures forall o | o != s :: View(o) == old(View(o))
    {
      var waiters := if lives[s].waiters > 0 then lives[s].waiters - 1 else 0;
      lives := lives[s := lives[s].(waiters := waiters)];
      var retired := RetireIfDone(s);
    }
  }
}
