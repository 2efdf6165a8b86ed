/** The deferred wakeups of all sessions: recording one, and claiming all of a session's at once. */
module WakeupStore {
  import opened Text

  type SessionId = string
  type ProcessId = string

  /** A wakeup waiting for its session to go idle. `ticket` tells completions apart that carry no
      process id; no decision looks at it. */
  datatype Entry = Entry(ticket: nat, pid: ProcessId, prompt: string)

  type Deferred = map<SessionId, seq<Entry>>

  function Queue(d: Deferred, sid: SessionId): seq<Entry> {
    if sid in d then d[sid] else []
  }

  predicate HasPid(q: seq<Entry>, pid: ProcessId) {
    exists i :: 0 <= i < |q| && q[i].pid == pid
  }

  /** The store after recording `e`: nothing changes when its process is queued already. */
  function Recorded(d: Deferred, sid: SessionId, e: Entry): Deferred {
    if e.pid != "" && HasPid(Queue(d, sid), e.pid) then d[sid := Queue(d, sid)]
    else d[sid := Queue(d, sid) + [e]]
  }

  /** Entries with something to say, in order. */
  function Speaking(q: seq<Entry>): seq<Entry> {
    if q == [] then []
    else (if Strip(q[0].prompt) != "" then [q[0].(prompt := Strip(q[0].prompt))] else []) + Speaking(q[1..])
  }

  /** Prompts are stored stripped and never empty. */
  predicate Stripped(q: seq<Entry>) {
    forall i | 0 <= i < |q| :: q[i].prompt != "" && Strip(q[i].prompt) == q[i].prompt
  }

  lemma {:induction false} SpeakingKeeps(q: seq<Entry>)
    requires Stripped(q)
    ensures Speaking(q) == q
    decreases |q|
  {
    hide Strip;
    if q != [] {
      assert forall i | 0 <= i < |q[1..]| :: q[1..][i] == q[i + 1];
      SpeakingKeeps(q[1..]);
      assert q == [q[0]] + q[1..];
    }
  }

  /** The process ids of a queue differ, apart from missing ones. */
  predicate PidsDiffer(q: seq<Entry>) {
    forall i, j | 0 <= i < j < |q| && q[i].pid != "" :: q[i].pid != q[j].pid
  }

  /** Recording the next of a queue's own entries appends it. */
  lemma RecordNext(d: Deferred, sid: SessionId, q: seq<Entry>, i: nat)
    requires PidsDiffer(q) && 1 <= i < |q| && Queue(d, sid) == q[1..i]
    ensures Queue(Recorded(d, sid, q[i]), sid) == q[1..i + 1]
    ensures forall other | other != sid :: Queue(Recorded(d, sid, q[i]), other) == Queue(d, other)
  {
    assert q[1..i] + [q[i]] == q[1..i + 1];
    assert forall j | 0 <= j < |q[1..i]| :: q[1..i][j] == q[j + 1];
  }

  class Store {
    var deferred: Deferred

    constructor ()
      ensures deferred == map[]
    {
      deferred := map[];
    }

    /** No queue names a process twice. */
    ghost predicate Valid()
      reads this
    {
      forall sid | sid in deferred :: PidsDiffer(deferred[sid])
    }

    /** Queues a wakeup for later; answers whether it is queued. */
    method Record(sid: SessionId, e: Entry) returns (queued: bool)
      requires Valid()
      modifies this
      ensures Valid()
      ensures queued <==> sid != "" && e.prompt != ""
      ensures deferred == if queued then Recorded(old(deferred), sid, e) else old(deferred)
    {
      if sid == "" || e.prompt == "" {
        return false;
      }
      hide Strip;
      var entries := Queue(deferred, sid);
      deferred := deferred[sid := entries];
      if e.pid != "" && (exists i :: 0 <= i < |entries| && entries[i].pid == e.pid) {
        return true;
      }
      deferred := deferred[sid := entries + [e]];
      return true;
    }

    /** Takes all wakeups of a session; whoever comes second finds none. */
    method Claim(sid: SessionId) returns (entries: seq<Entry>)
      requires Valid()
      modifies this
      ensures Valid()
      ensures entries == if sid == "" then [] else Queue(old(deferred), sid)
      ensures deferred == if sid == "" then old(deferred) else old(deferred) - {sid}
    {
      if sid == "" {
        return [];
      }
      entries := Queue(deferred, sid);
      deferred := deferred - {sid};
    }

    /** The turn-teardown hook when nothing interferes: the first deferred wakeup is to be started,
        the others stay deferred, in order and none lost. */
    method DrainIdle(sid: SessionId, busy: bool) returns (first: seq<Entry>)
      requires Valid() && forall s | s in deferred :: Stripped(deferred[s])
      modifies this
      ensures Valid()
      ensures |first| <= 1
      ensures first + Queue(deferred, sid) == Queue(old(deferred), sid)
      ensures first == [] <==> sid == "" || busy || Queue(old(deferred), sid) == []
      ensures forall other | other != sid :: Queue(deferred, other) == Queue(old(deferred), other)
    {
      hide Strip, Recorded, HasPid;
      first := [];
      if sid == "" || busy || Queue(deferred, sid) == [] {
        return;
      }
      assert PidsDiffer(deferred[sid]);
      var entries := Claim(sid);
      SpeakingKeeps(entries);
      var leftover := Speaking(entries);
      first := [leftover[0]];
      var i := 1;
      while i < |leftover|
        invariant 1 <= i <= |leftover| && Valid()
        invariant Queue(deferred, sid) == leftover[1..i]
        invariant forall other | other != sid :: Queue(deferred, other) == Queue(old(deferred), other)
      {
        RecordNext(deferred, sid, leftover, i);
        assert leftover[i].prompt != "";
        var queued := Record(sid, leftover[i]);
        i := i + 1;
      }
    }
  }
}
