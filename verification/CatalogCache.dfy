/**
 The gateway's catalog cache: concurrent calls share one refresh, and a stale snapshot is served only for a bounded
 time. `CatalogClient` is the object with its three mutex sections. The protocol is every call as a thread of those
 sections: any steps of other calls and any passing of time may come between two sections of one call.
 */
module CatalogCache {
  import opened Options

  type Time = int  // seconds

  const CACHE_TTL: Time := 5
  const DEFAULT_MAX_STALE: Time := 60

  datatype Snapshot = Snapshot(fetchedAt: Time, byKey: map<string, string>)

  /** What a call returns. Empty is the zero snapshot without an error, which no caller may see. */
  datatype Reply = Served(snapshot: Snapshot) | Failed | Empty

  /** The client's fields. A refresh in flight is known by its number. */
  datatype Client = Client(snapshot: Option<Snapshot>, inflight: Option<nat>, lastErr: bool, maxStale: Time)

  function MaxStale(c: Client): Time {
    if c.maxStale <= 0 then DEFAULT_MAX_STALE else c.maxStale
  }

  predicate Fresh(c: Client, now: Time) {
    c.snapshot.Some? && now - c.snapshot.value.fetchedAt < CACHE_TTL
  }

  /** The answer after a refresh, one's own or another's. */
  function ResultLocked(c: Client, now: Time): Reply {
    if c.snapshot.None? then (if c.lastErr then Failed else Empty)
    else if !c.lastErr then Served(c.snapshot.value)
    else if now - c.snapshot.value.fetchedAt < MaxStale(c) then Served(c.snapshot.value)
    else Failed
  }

  function Install(c: Client, fetched: Option<Snapshot>): Client {
    if fetched.Some? then c.(snapshot := fetched, lastErr := false) else c.(lastErr := true)
  }

  datatype Entered = Answered(reply: Reply) | MustWait(refresh: nat) | MustFetch

  class CatalogClient {
    var snapshot: Option<Snapshot>
    var inflight: Option<nat>
    var lastErr: bool
    var maxStale: Time
    var next: nat

    ghost function Abs(): Client
      reads this
    {
      Client(snapshot, inflight, lastErr, maxStale)
    }

    constructor (maxStale: Time)
      ensures Abs() == Client(None, None, false, maxStale) && next == 0
    {
      snapshot, inflight, lastErr, next := None, None, false, 0;
      this.maxStale := maxStale;
    }

    /** The first mutex section of Get. */
    method Enter(now: Time) returns (r: Entered)
      modifies this
      ensures r == EnterReply(old(Abs()), now)
      ensures Abs() == if r.MustFetch? then old(Abs()).(inflight := Some(old(next))) else old(Abs())
      ensures next == if r.MustFetch? then old(next) + 1 else old(next)
    {
      if snapshot.Some? && now - snapshot.value.fetchedAt < CACHE_TTL {
        return Answered(Served(snapshot.value));
      }
      if inflight.Some? { return MustWait(inflight.value); }
      inflight := Some(next);
      next := next + 1;
      return MustFetch;
    }

    /** The mutex section after the fetch. */
    method Complete(now: Time, fetched: Option<Snapshot>) returns (reply: Reply)
      modifies this
      ensures Abs() == Install(old(Abs()), fetched).(inflight := None) && next == old(next)
      ensures reply == ResultLocked(Install(old(Abs()), fetched), now)
    {
      if fetched.Some? {
        snapshot, lastErr := fetched, false;
      } else {
        lastErr := true;
      }
      reply := Result(now);
      inflight := None;
    }

    method Result(now: Time) returns (reply: Reply)
      ensures reply == ResultLocked(Abs(), now)
    {
      if snapshot.None? {
        if lastErr { return Failed; } else { return Empty; }
      }
      if !lastErr { return Served(snapshot.value); }
      var bound := maxStale;
      if bound <= 0 { bound := DEFAULT_MAX_STALE; }
      if now - snapshot.value.fetchedAt < bound { return Served(snapshot.value); }
      return Failed;
    }
  }

  function EnterReply(c: Client, now: Time): Entered {
    if Fresh(c, now) then Answered(Served(c.snapshot.value))
    else if c.inflight.Some? then MustWait(c.inflight.value)
    else MustFetch
  }

  // ---- the protocol ---------------------------------------------------------------------------------------

  type ThreadId = nat

  /** A call of Get. A returned one keeps what it saw: whether the last refresh had failed, and when the refresh that
      installed the client's snapshot completed. */
  datatype Call =
    | Waiting(began: Time, refresh: nat)
    | Fetching(began: Time, refresh: nat)
    | Returned(began: Time, at: Time, reply: Reply, afterFailure: bool, installedAt: Time)

  /** `installedAt` and `completedAt` are history: when the present snapshot was installed, and when the last refresh
      completed. */
  datatype State = State(now: Time, client: Client, next: nat, calls: map<ThreadId, Call>, installedAt: Time,
    completedAt: Time)

  datatype Event =
    | Tick(elapsed: nat)
    | Enter(id: ThreadId)
    | Complete(id: ThreadId, fetched: Option<Snapshot>)
    | Wake(id: ThreadId)

  function Return(s: State, id: ThreadId, began: Time, reply: Reply): State {
    s.(calls := s.calls[id := Returned(began, s.now, reply, s.client.lastErr, s.installedAt)])
  }

  ghost predicate Step(s: State, e: Event, s': State) {
    match e
    case Tick(elapsed) => s' == s.(now := s.now + elapsed)
    case Enter(id) =>
      && id !in s.calls
      && (match EnterReply(s.client, s.now)
          case Answered(reply) => s' == Return(s, id, s.now, reply)
          case MustWait(refresh) => s' == s.(calls := s.calls[id := Waiting(s.now, refresh)])
          case MustFetch =>
            s' == s.(client := s.client.(inflight := Some(s.next)), next := s.next + 1,
              calls := s.calls[id := Fetching(s.now, s.next)]))
    case Complete(id, fetched) =>
      && id in s.calls && s.calls[id].Fetching?
      && var installed := s.(
           client := Install(s.client, fetched),
           installedAt := if fetched.Some? then s.now else s.installedAt,
           completedAt := s.now);
         s' == Return(installed, id, s.calls[id].began,
           ResultLocked(installed.client, s.now)).(client := installed.client.(inflight := None))
    case Wake(id) =>
      && id in s.calls && s.calls[id].Waiting? && s.client.inflight != Some(s.calls[id].refresh)
      && s' == Return(s, id, s.calls[id].began, ResultLocked(s.client, s.now))
  }

  /** A returned call kept the promise: it is never empty; a snapshot it served was younger than the TTL, or was
      installed by a refresh that completed after the call began, or was served after a failed refresh within the
      staleness bound. */
  predicate KeptPromise(call: Call, maxStale: Time) {
    call.Returned? ==>
      && call.reply != Empty
      && (call.reply.Served? ==>
            var age := call.at - call.reply.snapshot.fetchedAt;
            age < CACHE_TTL || call.began <= call.installedAt || (call.afterFailure && age < maxStale))
  }

  predicate IsFetching(s: State, id: ThreadId) {
    id in s.calls && s.calls[id].Fetching?
  }

  ghost predicate Inv(s: State) {
    && (forall i {:trigger s.calls[i]} :: i in s.calls ==> CallInv(s, s.calls[i]))
    && (forall i, j {:trigger IsFetching(s, i), IsFetching(s, j)} :: IsFetching(s, i) && IsFetching(s, j) ==> i == j)
    && (s.client.inflight.Some? ==> s.client.inflight.value < s.next && exists i :: IsFetching(s, i))
    && s.installedAt <= s.completedAt <= s.now
    && (Completed(s) ==> s.client.snapshot.Some? || s.client.lastErr)
    && (Completed(s) && !s.client.lastErr ==> s.installedAt == s.completedAt)
    && (!Completed(s) ==> s.client.snapshot.None?)
  }

  /** Some refresh has completed. */
  predicate Completed(s: State) {
    s.next > if s.client.inflight.Some? then 1 else 0
  }

  ghost predicate CallInv(s: State, c: Call) {
    && c.began <= s.now
    && KeptPromise(c, MaxStale(s.client))
    && (c.Fetching? ==> s.client.inflight == Some(c.refresh))
    && (c.Waiting? ==>
      c.refresh < s.next && (s.client.inflight == Some(c.refresh) || (Completed(s) && c.began <= s.completedAt)))
  }

  ghost predicate Init(s: State) {
    s.client.snapshot.None? && s.client.inflight.None? && !s.client.lastErr && s.next == 0 && s.calls == map[]
    && s.installedAt <= s.completedAt <= s.now
  }

  lemma StepKeepsInv(s: State, e: Event, s': State)
    requires Inv(s) && Step(s, e, s')
    ensures Inv(s')
  {
    match e
    case Tick(_) =>
      assert forall i :: IsFetching(s', i) <==> IsFetching(s, i);
    case Enter(id) => EnterKeepsInv(s, id, s');
    case Complete(id, fetched) => CompleteKeepsInv(s, id, fetched, s');
    case Wake(id) => WakeKeepsInv(s, id, s');
  }

  lemma EnterKeepsInv(s: State, id: ThreadId, s': State)
    requires Inv(s) && Step(s, Enter(id), s')
    ensures Inv(s')
  {
    assert forall i :: i != id ==> (IsFetching(s', i) <==> IsFetching(s, i));
    if EnterReply(s.client, s.now).MustFetch? {
      assert IsFetching(s', id);
    }
  }

  lemma CompleteKeepsInv(s: State, id: ThreadId, fetched: Option<Snapshot>, s': State)
    requires Inv(s) && Step(s, Complete(id, fetched), s')
    ensures Inv(s')
  {
    assert IsFetching(s, id) && CallInv(s, s.calls[id]);
    assert forall i :: !IsFetching(s', i) by {
      assert forall i :: i != id ==> (IsFetching(s', i) <==> IsFetching(s, i));
    }
    forall i | i in s'.calls && i != id
      ensures CallInv(s', s'.calls[i])
    {
      assert CallInv(s, s.calls[i]);
      assert s'.calls[i] == s.calls[i] && !IsFetching(s', i);
    }
  }

  lemma WakeKeepsInv(s: State, id: ThreadId, s': State)
    requires Inv(s) && Step(s, Wake(id), s')
    ensures Inv(s')
  {
    assert CallInv(s, s.calls[id]);
    assert forall i :: IsFetching(s', i) <==> IsFetching(s, i);
  }

  ghost predicate IsRun(states: seq<State>, events: seq<Event>) {
    && |states| == |events| + 1 && Init(states[0])
    && forall i :: 0 <= i < |events| ==> Step(states[i], events[i], states[i + 1])
  }

  lemma {:induction false} RunKeepsInv(states: seq<State>, events: seq<Event>, n: nat)
    requires IsRun(states, events) && n < |states|
    ensures Inv(states[n])
  {
    if n > 0 {
      RunKeepsInv(states, events, n - 1);
      StepKeepsInv(states[n - 1], events[n - 1], states[n]);
    }
  }

  /** In every interleaving: at most one fetch is in flight, every call that returned kept the promise, and a waiting
      call is never stuck: the refresh it waits for is being fetched, or it can wake. */
  lemma EveryInterleaving(states: seq<State>, events: seq<Event>, n: nat)
    requires IsRun(states, events) && n < |states|
    ensures
      var s := states[n];
      && (forall i, j :: IsFetching(s, i) && IsFetching(s, j) ==> i == j)
      && (forall i :: i in s.calls ==> KeptPromise(s.calls[i], MaxStale(s.client)))
      && (forall i :: i in s.calls && s.calls[i].Waiting? ==>
            (exists j :: IsFetching(s, j) && s.calls[j].refresh == s.calls[i].refresh) ||
              (exists s' :: Step(s, Wake(i), s')))
  {
    RunKeepsInv(states, events, n);
    var s := states[n];
    forall i | i in s.calls && s.calls[i].Waiting?
      ensures (exists j :: IsFetching(s, j) && s.calls[j].refresh == s.calls[i].refresh) ||
        (exists s' :: Step(s, Wake(i), s'))
    {
      assert CallInv(s, s.calls[i]);
      if s.client.inflight == Some(s.calls[i].refresh) {
        var j :| IsFetching(s, j);
        assert CallInv(s, s.calls[j]);
      } else {
        assert Step(s, Wake(i), Return(s, i, s.calls[i].began, ResultLocked(s.client, s.now)));
      }
    }
    forall i | i in s.calls
      ensures KeptPromise(s.calls[i], MaxStale(s.client))
    {
      assert CallInv(s, s.calls[i]);
    }
  }

  // ---- what a call answers, told by what happened before --------------------------------------------------

  /** The last of the first n events that completed a refresh. */
  function LastCompletion(events: seq<Event>, n: nat): (m: Option<nat>)
    requires n <= |events|
    ensures m.Some? ==> m.value < n && events[m.value].Complete?
    ensures forall k :: 0 <= k < n && events[k].Complete? ==> m.Some? && k <= m.value
  {
    if n == 0 then None else if events[n - 1].Complete? then Some(n - 1) else LastCompletion(events, n - 1)
  }

  predicate Installs(e: Event) {
    e.Complete? && e.fetched.Some?
  }

  /** The last of the first n events that fetched a snapshot. */
  function LastInstall(events: seq<Event>, n: nat): (m: Option<nat>)
    requires n <= |events|
    ensures m.Some? ==> m.value < n && Installs(events[m.value])
    ensures forall k :: 0 <= k < n && Installs(events[k]) ==> m.Some? && k <= m.value
  {
    if n == 0 then None else if Installs(events[n - 1]) then Some(n - 1) else LastInstall(events, n - 1)
  }

  /** The snapshot fetched last, and whether the last refresh failed. */
  function Latest(events: seq<Event>, n: nat): Option<Snapshot>
    requires n <= |events|
  {
    var m := LastInstall(events, n);
    if m.Some? then events[m.value].fetched else None
  }

  predicate LastFailed(events: seq<Event>, n: nat)
    requires n <= |events|
  {
    var m := LastCompletion(events, n);
    m.Some? && events[m.value].fetched.None?
  }

  lemma {:induction false} ClientIsHistory(states: seq<State>, events: seq<Event>, n: nat)
    requires IsRun(states, events) && n < |states|
    ensures states[n].client.snapshot == Latest(events, n)
    ensures states[n].client.lastErr <==> LastFailed(events, n)
    ensures states[n].client.maxStale == states[0].client.maxStale
  {
    if n > 0 {
      ClientIsHistory(states, events, n - 1);
      assert Step(states[n - 1], events[n - 1], states[n]);
    }
  }

  /** The bound on the age of a snapshot served after a failed refresh. */
  function Bound(states: seq<State>): Time
    requires states != []
  {
    if states[0].client.maxStale <= 0 then 60 else states[0].client.maxStale
  }

  /** What a call that waited or fetched is answered by event n: the latest snapshot, unless the last refresh failed and
      the snapshot is missing or too old. */
  function Owed(states: seq<State>, events: seq<Event>, n: nat): Reply
    requires n < |events| < |states|
  {
    var latest := Latest(events, n + 1);
    if LastFailed(events, n + 1) && (latest.None? || states[n].now - latest.value.fetchedAt >= Bound(states))
    then Failed
    else if latest.Some? then Served(latest.value)
    else Empty
  }

  lemma OwedIsSomething(states: seq<State>, events: seq<Event>, n: nat)
    requires IsRun(states, events) && n < |events| && (events[n].Complete? || events[n].Wake?)
    ensures Owed(states, events, n) != Empty
  {
    RunKeepsInv(states, events, n + 1);
    RunKeepsInv(states, events, n);
    ClientIsHistory(states, events, n + 1);
    assert Step(states[n], events[n], states[n + 1]);
    if events[n].Wake? { assert CallInv(states[n], states[n].calls[events[n].id]); }
  }

  /** Under every interleaving, the event that answers a waiting or fetching call gives it what it is owed. */
  lemma AnswersWhatIsOwed(states: seq<State>, events: seq<Event>, n: nat)
    requires IsRun(states, events) && n < |events| && (events[n].Complete? || events[n].Wake?)
    ensures
      var id := events[n].id;
      && id in states[n + 1].calls && states[n + 1].calls[id].Returned?
      && states[n + 1].calls[id].reply == Owed(states, events, n) != Empty
  {
    OwedIsSomething(states, events, n);
    ClientIsHistory(states, events, n);
    ClientIsHistory(states, events, n + 1);
    assert Step(states[n], events[n], states[n + 1]);
  }

  /** A call whose own fetch succeeded gets exactly the snapshot it fetched. */
  lemma OwnFetchIsServed(states: seq<State>, events: seq<Event>, n: nat)
    requires IsRun(states, events) && n < |events| && Installs(events[n])
    ensures
      var id := events[n].id;
      id in states[n + 1].calls && states[n + 1].calls[id].Returned? &&
        states[n + 1].calls[id].reply == Served(events[n].fetched.value)
  {
    AnswersWhatIsOwed(states, events, n);
  }

  ghost predicate CompletesRefresh(states: seq<State>, events: seq<Event>, m: nat, refresh: nat)
    requires m < |events| < |states|
  {
    events[m].Complete? && events[m].id in states[m].calls &&
    var call := states[m].calls[events[m].id];
    call.Fetching? && call.refresh == refresh
  }

  lemma {:induction false} RefreshCompleted(states: seq<State>, events: seq<Event>, n: nat, refresh: nat)
    requires IsRun(states, events) && n < |states|
    requires refresh < states[n].next && states[n].client.inflight != Some(refresh)
    ensures exists m :: 0 <= m < n && CompletesRefresh(states, events, m, refresh)
  {
    var s := states[n - 1];
    assert Step(s, events[n - 1], states[n]);
    RunKeepsInv(states, events, n - 1);
    if s.client.inflight == Some(refresh) {
      assert CallInv(s, s.calls[events[n - 1].id]);
      assert CompletesRefresh(states, events, n - 1, refresh);
    } else {
      RefreshCompleted(states, events, n - 1, refresh);
    }
  }

  /** A waiter is answered only after the refresh it waited for. */
  lemma WaiterWaits(states: seq<State>, events: seq<Event>, n: nat)
    requires IsRun(states, events) && n < |events| && events[n].Wake?
    ensures
      var id := events[n].id;
      && id in states[n].calls && states[n].calls[id].Waiting?
      && exists m :: 0 <= m < n && CompletesRefresh(states, events, m, states[n].calls[id].refresh)
  {
    var s := states[n];
    assert Step(s, events[n], states[n + 1]);
    RunKeepsInv(states, events, n);
    assert CallInv(s, s.calls[events[n].id]);
    RefreshCompleted(states, events, n, s.calls[events[n].id].refresh);
  }

  /** Answered after a refresh that fetched a snapshot, a waiter gets that snapshot or one fetched later, unless a later
      refresh failed and the snapshot has become too old. */
  lemma WaiterIsServed(states: seq<State>, events: seq<Event>, m: nat, n: nat)
    requires IsRun(states, events) && m < n < |events| && Installs(events[m]) && events[n].Wake?
    ensures events[n].id in states[n + 1].calls
    ensures
      var call := states[n + 1].calls[events[n].id];
      && call.Returned?
      && (|| (exists k :: m <= k < n && Installs(events[k]) && call.reply == Served(events[k].fetched.value))
          || (call.reply == Failed && exists k :: m < k < n && events[k].Complete? && events[k].fetched.None?))
  {
    AnswersWhatIsOwed(states, events, n);
    var k := LastInstall(events, n + 1);
    assert k.Some? && m <= k.value && !events[n].Complete?;
    assert Served(Latest(events, n + 1).value) == Served(events[k.value].fetched.value);
    if LastFailed(events, n + 1) { assert m < LastCompletion(events, n + 1).value; }
  }

  /** Entering: a snapshot younger than five seconds is served at once; otherwise the call joins the refresh in flight,
      or starts one when there is none. */
  lemma EnterAnswers(states: seq<State>, events: seq<Event>, n: nat)
    requires IsRun(states, events) && n < |events| && events[n].Enter?
    ensures
      var id, s, latest := events[n].id, states[n], Latest(events, n);
      id in states[n + 1].calls &&
      var call := states[n + 1].calls[id];
      if latest.Some? && s.now - latest.value.fetchedAt < 5 then call.Returned? && call.reply == Served(latest.value)
      else if exists j :: IsFetching(s, j) then
        call.Waiting? && exists j :: IsFetching(s, j) && s.calls[j].refresh == call.refresh
      else call.Fetching?
  {
    ClientIsHistory(states, events, n);
    RunKeepsInv(states, events, n);
    var s := states[n];
    assert Step(s, events[n], states[n + 1]);
    if j :| IsFetching(s, j) { assert CallInv(s, s.calls[j]); }
  }

  /** An answer given stays as it was given. */
  lemma {:induction false} AnswersStay(states: seq<State>, events: seq<Event>, m: nat, n: nat, id: ThreadId)
    requires IsRun(states, events) && m <= n < |states|
    requires id in states[m].calls && states[m].calls[id].Returned?
    ensures id in states[n].calls && states[n].calls[id] == states[m].calls[id]
  {
    if m < n {
      AnswersStay(states, events, m, n - 1, id);
      assert Step(states[n - 1], events[n - 1], states[n]);
    }
  }
}
