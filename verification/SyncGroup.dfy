/** Group commit as a transition system. Callers of sync enter under the group's lock; the leader runs
    the sync function, notifies its batch and looks for latecomers. Appends go on in between, except
    while the sync function holds the lock of the log. */
module SyncGroup {

  datatype Result = Running | Succeeded | Failed

  /** A call of the sync function: when it began and how many records the log had then. */
  datatype SyncRun = SyncRun(begin: nat, snapshot: nat, result: Result)

  /** A leader has taken a batch; runs the sync function for it; has still to notify these. */
  datatype Lead = Ready(batch: seq<nat>) | Syncing(batch: seq<nat>, run: nat) | Notifying(batch: seq<nat>, run: nat)

  /** A call of sync: waits on its channel, has a result in the channel, leads, or has returned. */
  datatype PC = Waiting | Notified(run: nat) | Leading(lead: Lead) | Returned(run: nat)

  /** When the call entered, and how many records had been appended by then. */
  datatype Caller = Caller(entry: nat, must: nat, pc: PC)

  datatype State = State(clock: nat, pending: seq<nat>, syncing: bool, callers: map<nat, Caller>, runs: seq<SyncRun>,
                         appended: nat, durable: nat, locked: bool)

  const START := State(0, [], false, map[], [], 0, 0, false)

  datatype Action =
    | Append
    | Enter(id: nat)
    | BeginSync(id: nat)
    | EndSync(id: nat, ok: bool)
    | NotifyNext(id: nat)
    | Recheck(id: nat)
    | Receive(id: nat)

  predicate Leads(callers: map<nat, Caller>, id: nat) {
    id in callers && callers[id].pc.Leading?
  }

  predicate Can(s: State, a: Action) {
    match a
    case Append => !s.locked
    case Enter(id) => id !in s.callers
    case BeginSync(id) => Leads(s.callers, id) && s.callers[id].pc.lead.Ready? && !s.locked
    case EndSync(id, _) =>
      Leads(s.callers, id) && s.callers[id].pc.lead.Syncing? && s.callers[id].pc.lead.run < |s.runs|
    case NotifyNext(id) =>
      && Leads(s.callers, id) && s.callers[id].pc.lead.Notifying? && s.callers[id].pc.lead.batch != []
      && s.callers[id].pc.lead.batch[0] in s.callers
    case Recheck(id) => Leads(s.callers, id) && s.callers[id].pc.lead.Notifying? && s.callers[id].pc.lead.batch == []
    case Receive(id) => id in s.callers && s.callers[id].pc.Notified?
  }

  function SetPC(s: State, id: nat, pc: PC): State
    requires id in s.callers
  {
    s.(callers := s.callers[id := s.callers[id].(pc := pc)])
  }

  function Do(s: State, a: Action): State
    requires Can(s, a)
  {
    match a
    case Append => s.(appended := s.appended + 1)
    case Enter(id) =>
      var s' := s.(clock := s.clock + 1);
      if s.syncing then
        s'.(pending := s.pending + [id], callers := s.callers[id := Caller(s.clock, s.appended, Waiting)])
      else
        s'.(syncing := true, pending := [],
            callers := s.callers[id := Caller(s.clock, s.appended, Leading(Ready(s.pending)))])
    case BeginSync(id) =>
      var batch := s.callers[id].pc.lead.batch;
      SetPC(s.(clock := s.clock + 1, runs := s.runs + [SyncRun(s.clock, s.appended, Running)], locked := true),
            id, Leading(Syncing(batch, |s.runs|)))
    case EndSync(id, ok) =>
      var lead := s.callers[id].pc.lead;
      var r := s.runs[lead.run];
      SetPC(s.(runs := s.runs[lead.run := r.(result := if ok then Succeeded else Failed)], locked := false,
               durable := if ok && r.snapshot > s.durable then r.snapshot else s.durable),
            id, Leading(Notifying(lead.batch, lead.run)))
    case NotifyNext(id) =>
      var lead := s.callers[id].pc.lead;
      SetPC(SetPC(s, id, Leading(Notifying(lead.batch[1..], lead.run))), lead.batch[0], Notified(lead.run))
    case Recheck(id) =>
      var lead := s.callers[id].pc.lead;
      if s.pending == [] then SetPC(s.(syncing := false), id, Returned(lead.run))
      else SetPC(s.(pending := []), id, Leading(Ready(s.pending)))
    case Receive(id) => SetPC(s, id, Returned(s.callers[id].pc.run))
  }

  ghost predicate Runs(acts: seq<Action>)
    decreases |acts|, 0
  {
    acts != [] ==> Runs(acts[..|acts| - 1]) && Can(After(acts[..|acts| - 1]), acts[|acts| - 1])
  }

  ghost function After(acts: seq<Action>): State
    requires Runs(acts)
    decreases |acts|, 1
  {
    if acts == [] then START else Do(After(acts[..|acts| - 1]), acts[|acts| - 1])
  }

  // ---- the invariant

  /** The callers that a leader has still to serve. */
  function BatchOf(pc: PC): seq<nat> {
    if pc.Leading? then pc.lead.batch else []
  }

  predicate Later(runs: seq<SyncRun>, run: nat, c: Caller) {
    run < |runs| && runs[run].begin > c.entry
  }

  /** What the state of one call says about the runs of the sync function. */
  ghost predicate CallerOk(runs: seq<SyncRun>, callers: map<nat, Caller>, c: Caller) {
    match c.pc
    case Waiting => true
    case Notified(run) => Later(runs, run, c) && runs[run].result != Running
    case Returned(run) => Later(runs, run, c) && runs[run].result != Running
    case Leading(Ready(batch)) => true
    case Leading(Syncing(batch, run)) =>
      Later(runs, run, c) && runs[run].result == Running && BatchLater(runs, callers, run, batch)
    case Leading(Notifying(batch, run)) =>
      Later(runs, run, c) && runs[run].result != Running && BatchLater(runs, callers, run, batch)
  }

  ghost predicate BatchLater(runs: seq<SyncRun>, callers: map<nat, Caller>, run: nat, batch: seq<nat>) {
    forall i :: 0 <= i < |batch| ==> batch[i] in callers && Later(runs, run, callers[batch[i]])
  }

  /** Entry times, run times and record counts fit together. */
  ghost predicate TimesOk(clock: nat, callers: map<nat, Caller>, runs: seq<SyncRun>, appended: nat, durable: nat) {
    && (forall id :: id in callers ==> callers[id].entry < clock && callers[id].must <= appended)
    && (forall r :: 0 <= r < |runs| ==> runs[r].begin < clock && runs[r].snapshot <= appended)
    && (forall r :: 0 <= r < |runs| && runs[r].result == Succeeded ==> runs[r].snapshot <= durable)
    && (forall id, r :: id in callers && 0 <= r < |runs| && runs[r].begin > callers[id].entry
                        ==> runs[r].snapshot >= callers[id].must)
  }

  ghost predicate CallersOk(runs: seq<SyncRun>, callers: map<nat, Caller>) {
    forall id :: id in callers ==> CallerOk(runs, callers, callers[id])
  }

  /** At most one leader, and exactly while the flag says so. */
  ghost predicate LeaderOk(syncing: bool, callers: map<nat, Caller>) {
    && (forall i, j :: Leads(callers, i) && Leads(callers, j) ==> i == j)
    && (syncing <==> exists id :: Leads(callers, id))
  }

  predicate Waits(callers: map<nat, Caller>, id: nat) {
    id in callers && callers[id].pc == Waiting
  }

  /** The calls in a queue wait, and each is there once. */
  ghost predicate Queue(callers: map<nat, Caller>, ids: seq<nat>) {
    && (forall i, j :: 0 <= i < j < |ids| ==> ids[i] != ids[j])
    && (forall id :: id in ids ==> Waits(callers, id))
  }

  /** Every waiting call is pending or in the batch of the leader, once. */
  ghost predicate QueuesOk(pending: seq<nat>, syncing: bool, callers: map<nat, Caller>) {
    && Queue(callers, pending) && (pending != [] ==> syncing)
    && (forall id :: Leads(callers, id) ==> Queue(callers, BatchOf(callers[id].pc)))
    && (forall id, w :: Leads(callers, id) && w in pending ==> w !in BatchOf(callers[id].pc))
    && (forall w :: Waits(callers, w) ==> w in pending || InBatch(callers, w))
  }

  ghost predicate InBatch(callers: map<nat, Caller>, w: nat) {
    exists id :: Leads(callers, id) && w in BatchOf(callers[id].pc)
  }

  ghost predicate Inv(s: State) {
    && TimesOk(s.clock, s.callers, s.runs, s.appended, s.durable) && CallersOk(s.runs, s.callers)
    && LeaderOk(s.syncing, s.callers) && QueuesOk(s.pending, s.syncing, s.callers)
  }

  // ---- how single changes keep it

  /** More runs, or results for running ones. */
  ghost predicate RunsGrow(runs: seq<SyncRun>, runs': seq<SyncRun>) {
    |runs| <= |runs'| && forall r :: 0 <= r < |runs| ==>
      runs'[r].begin == runs[r].begin && (runs[r].result == Running || runs'[r].result == runs[r].result)
  }

  /** Calls stay, with their entry times. */
  ghost predicate CallersGrow(callers: map<nat, Caller>, callers': map<nat, Caller>) {
    forall id :: id in callers ==> id in callers' && callers'[id].entry == callers[id].entry
  }

  lemma {:induction false} CallerKeeps(runs: seq<SyncRun>, callers: map<nat, Caller>, runs': seq<SyncRun>,
                                       callers': map<nat, Caller>, c: Caller)
    requires CallerOk(runs, callers, c) && RunsGrow(runs, runs') && CallersGrow(callers, callers')
    requires runs <= runs' || !c.pc.Leading?
    ensures CallerOk(runs', callers', c)
  {
  }

  /** The other calls are not affected by what happens to one or two of them. */
  lemma {:induction false} CallersKeep(runs: seq<SyncRun>, callers: map<nat, Caller>, runs': seq<SyncRun>,
                                       callers': map<nat, Caller>, changed: set<nat>)
    requires CallersOk(runs, callers) && RunsGrow(runs, runs') && CallersGrow(callers, callers')
    requires runs <= runs' || forall id :: Leads(callers, id) ==> id in changed
    requires forall id :: id in callers' && id !in changed ==> id in callers && callers'[id] == callers[id]
    requires forall id :: id in changed && id in callers' ==> CallerOk(runs', callers', callers'[id])
    ensures CallersOk(runs', callers')
  {
    hide CallerOk;
    forall id | id in callers'
      ensures CallerOk(runs', callers', callers'[id])
    {
      if id !in changed {
        CallerKeeps(runs, callers, runs', callers', callers[id]);
      }
    }
  }

  /** While id leads, nobody else does. */
  lemma {:induction false} OnlyLeader(syncing: bool, callers: map<nat, Caller>, id: nat)
    requires LeaderOk(syncing, callers) && Leads(callers, id)
    ensures syncing && forall j :: Leads(callers, j) ==> j == id
  {
  }

  /** A leader that goes on leading with its batch. */
  lemma {:induction false} LeaderStays(s: State, id: nat, lead: Lead)
    requires LeaderOk(s.syncing, s.callers) && QueuesOk(s.pending, s.syncing, s.callers)
    requires Leads(s.callers, id) && lead.batch == s.callers[id].pc.lead.batch
    ensures var callers := s.callers[id := s.callers[id].(pc := Leading(lead))];
      LeaderOk(s.syncing, callers) && QueuesOk(s.pending, s.syncing, callers)
  {
    var callers := s.callers[id := s.callers[id].(pc := Leading(lead))];
    assert forall j :: Leads(callers, j) <==> Leads(s.callers, j);
    assert forall w :: Waits(callers, w) <==> Waits(s.callers, w);
    assert forall j :: Leads(callers, j) ==> BatchOf(callers[j].pc) == BatchOf(s.callers[j].pc);
    assert forall w :: InBatch(s.callers, w) ==> InBatch(callers, w);
  }

  // ---- every step

  lemma {:induction false} InvAppend(s: State)
    requires Inv(s) && Can(s, Append)
    ensures Inv(Do(s, Append))
  {
    hide CallersOk, LeaderOk, QueuesOk;
  }

  lemma {:induction false} InvEnterLeader(s: State, id: nat)
    requires Inv(s) && Can(s, Enter(id)) && !s.syncing
    ensures Inv(Do(s, Enter(id)))
  {
    hide CallerOk;
    var c := Caller(s.clock, s.appended, Leading(Ready(s.pending)));
    var callers := s.callers[id := c];
    NewCaller(s.runs, s.callers, id, c);
    assert s.pending == [];
    assert Leads(callers, id);
    assert forall j :: Leads(callers, j) ==> j == id || Leads(s.callers, j);
    assert forall w :: Waits(callers, w) ==> Waits(s.callers, w);
    assert forall w :: !InBatch(s.callers, w);
  }

  lemma {:induction false} NewCaller(runs: seq<SyncRun>, callers: map<nat, Caller>, id: nat, c: Caller)
    requires CallersOk(runs, callers) && id !in callers
    requires c.pc == Waiting || (c.pc.Leading? && c.pc.lead.Ready?)
    ensures CallersOk(runs, callers[id := c])
  {
    CallersKeep(runs, callers, runs, callers[id := c], {id});
  }

  lemma {:induction false} InvEnterFollower(s: State, id: nat)
    requires Inv(s) && Can(s, Enter(id)) && s.syncing
    ensures Inv(Do(s, Enter(id)))
  {
    hide CallerOk, LeaderOk, QueuesOk, TimesOk;
    var c := Caller(s.clock, s.appended, Waiting);
    NewCaller(s.runs, s.callers, id, c);
    FollowerQueued(s.pending, s.callers, id, c);
    FollowerTimes(s, id, c);
  }

  lemma {:induction false} FollowerTimes(s: State, id: nat, c: Caller)
    requires TimesOk(s.clock, s.callers, s.runs, s.appended, s.durable) && c.entry == s.clock && c.must == s.appended
    ensures TimesOk(s.clock + 1, s.callers[id := c], s.runs, s.appended, s.durable)
  {
  }

  lemma {:induction false} FollowerQueued(pending: seq<nat>, callers: map<nat, Caller>, id: nat, c: Caller)
    requires LeaderOk(true, callers) && QueuesOk(pending, true, callers) && id !in callers && c.pc == Waiting
    ensures LeaderOk(true, callers[id := c]) && QueuesOk(pending + [id], true, callers[id := c])
  {
    var callers' := callers[id := c];
    assert forall j :: Leads(callers', j) <==> Leads(callers, j);
    assert forall j :: Leads(callers', j) ==> BatchOf(callers'[j].pc) == BatchOf(callers[j].pc);
    assert forall w :: Waits(callers', w) <==> w == id || Waits(callers, w);
    assert forall w :: InBatch(callers, w) ==> InBatch(callers', w);
    assert forall w :: w in pending + [id] <==> w in pending || w == id;
    forall i, j | 0 <= i < j < |pending + [id]|
      ensures (pending + [id])[i] != (pending + [id])[j]
    {
      assert pending[i] in pending;
    }
  }

  lemma {:induction false} InvBeginSync(s: State, id: nat)
    requires Inv(s) && Can(s, BeginSync(id))
    ensures Inv(Do(s, BeginSync(id)))
  {
    hide LeaderOk;
    var s' := Do(s, BeginSync(id));
    var batch := s.callers[id].pc.lead.batch;
    LeaderStays(s, id, Syncing(batch, |s.runs|));
    BatchEntries(s, id);
    CallersKeep(s.runs, s.callers, s'.runs, s'.callers, {id});
  }

  /** The batch was taken before the clock's present time. */
  lemma {:induction false} BatchEntries(s: State, id: nat)
    requires TimesOk(s.clock, s.callers, s.runs, s.appended, s.durable) && QueuesOk(s.pending, s.syncing, s.callers)
    requires Leads(s.callers, id)
    ensures forall w :: w in BatchOf(s.callers[id].pc) ==> w in s.callers && s.callers[w].entry < s.clock
    ensures s.callers[id].entry < s.clock
  {
    assert forall w :: w in BatchOf(s.callers[id].pc) ==> Waits(s.callers, w);
  }

  lemma {:induction false} InvEndSync(s: State, id: nat, ok: bool)
    requires Inv(s) && Can(s, EndSync(id, ok))
    ensures Inv(Do(s, EndSync(id, ok)))
  {
    hide LeaderOk, QueuesOk;
    var s' := Do(s, EndSync(id, ok));
    OnlyLeader(s.syncing, s.callers, id);
    var lead := s.callers[id].pc.lead;
    LeaderStays(s, id, Notifying(lead.batch, lead.run));
    assert CallerOk(s.runs, s.callers, s.callers[id]);
    CallersKeep(s.runs, s.callers, s'.runs, s'.callers, {id});
  }

  lemma {:induction false} InvNotifyNext(s: State, id: nat)
    requires Inv(s) && Can(s, NotifyNext(id))
    ensures Inv(Do(s, NotifyNext(id)))
  {
    hide TimesOk;
    var s' := Do(s, NotifyNext(id));
    var lead := s.callers[id].pc.lead;
    var w := lead.batch[0];
    OnlyLeader(s.syncing, s.callers, id);
    assert w in BatchOf(s.callers[id].pc) && Waits(s.callers, w);
    assert CallerOk(s.runs, s.callers, s.callers[id]);
    CallersKeep(s.runs, s.callers, s.runs, s'.callers, {id, w});
    NotifyQueues(s.pending, s.syncing, s.callers, id, s'.callers);
    NotifyTimes(s, s'.callers);
  }

  lemma {:induction false} NotifyTimes(s: State, callers: map<nat, Caller>)
    requires TimesOk(s.clock, s.callers, s.runs, s.appended, s.durable) && callers.Keys == s.callers.Keys
    requires forall id :: id in callers ==> callers[id].entry == s.callers[id].entry && callers[id].must == s.callers[id].must
    ensures TimesOk(s.clock, callers, s.runs, s.appended, s.durable)
  {
  }

  /** Taking the first call off the batch and out of the waiting ones. */
  lemma {:induction false} NotifyQueues(pending: seq<nat>, syncing: bool, callers: map<nat, Caller>, id: nat,
                                        callers': map<nat, Caller>)
    requires LeaderOk(syncing, callers) && QueuesOk(pending, syncing, callers) && Leads(callers, id)
    requires BatchOf(callers[id].pc) != [] && callers'.Keys == callers.Keys
    requires var batch := BatchOf(callers[id].pc); var w := batch[0];
      && w in callers && w != id && callers'[w].pc.Notified? && callers'[id].pc.Leading?
      && BatchOf(callers'[id].pc) == batch[1..]
      && forall j :: j in callers && j != id && j != w ==> callers'[j] == callers[j]
    ensures LeaderOk(syncing, callers') && QueuesOk(pending, syncing, callers')
  {
    var batch := BatchOf(callers[id].pc);
    var w := batch[0];
    OnlyLeader(syncing, callers, id);
    assert forall j :: Leads(callers', j) <==> Leads(callers, j);
    assert forall v :: Waits(callers', v) <==> Waits(callers, v) && v != w;
    assert forall v :: v in batch <==> v == w || v in batch[1..];
    assert forall i :: 0 <= i < |batch| - 1 ==> batch[1..][i] == batch[i + 1];
    forall v | Waits(callers', v)
      ensures v in pending || InBatch(callers', v)
    {
      if v !in pending {
        assert InBatch(callers, v);
        assert v in batch[1..];
      }
    }
  }

  lemma {:induction false} InvRecheck(s: State, id: nat)
    requires Inv(s) && Can(s, Recheck(id))
    ensures Inv(Do(s, Recheck(id)))
  {
    hide TimesOk, LeaderOk, QueuesOk;
    var s' := Do(s, Recheck(id));
    OnlyLeader(s.syncing, s.callers, id);
    assert CallerOk(s.runs, s.callers, s.callers[id]);
    CallersKeep(s.runs, s.callers, s.runs, s'.callers, {id});
    NotifyTimes(s, s'.callers);
    RecheckQueues(s.pending, s.syncing, s.callers, id, s'.callers[id]);
  }

  /** The leader goes home when nobody is pending, and takes the pending calls as its batch otherwise. */
  lemma {:induction false} RecheckQueues(pending: seq<nat>, syncing: bool, callers: map<nat, Caller>, id: nat, c: Caller)
    requires LeaderOk(syncing, callers) && QueuesOk(pending, syncing, callers) && Leads(callers, id)
    requires BatchOf(callers[id].pc) == []
    requires if pending == [] then c.pc.Returned? else c.pc == Leading(Ready(pending))
    ensures var callers' := callers[id := c]; LeaderOk(pending != [], callers') && QueuesOk([], pending != [], callers')
  {
    var callers' := callers[id := c];
    OnlyLeader(syncing, callers, id);
    assert forall w :: !InBatch(callers, w);
    assert forall w :: Waits(callers', w) <==> Waits(callers, w);
    forall j | Leads(callers', j)
      ensures j == id
    {
      assert j == id || Leads(callers, j);
    }
    if pending != [] {
      assert Leads(callers', id);
      assert forall w :: w in pending ==> InBatch(callers', w);
    } else {
      assert !Leads(callers', id);
    }
  }

  lemma {:induction false} InvReceive(s: State, id: nat)
    requires Inv(s) && Can(s, Receive(id))
    ensures Inv(Do(s, Receive(id)))
  {
    hide TimesOk;
    var s' := Do(s, Receive(id));
    assert CallerOk(s.runs, s.callers, s.callers[id]);
    CallersKeep(s.runs, s.callers, s.runs, s'.callers, {id});
    NotifyTimes(s, s'.callers);
    assert forall w :: Waits(s'.callers, w) <==> Waits(s.callers, w);
    assert forall j :: Leads(s'.callers, j) <==> Leads(s.callers, j);
    assert forall w :: InBatch(s.callers, w) ==> InBatch(s'.callers, w);
  }

  lemma {:induction false} InvStep(s: State, a: Action)
    requires Inv(s) && Can(s, a)
    ensures Inv(Do(s, a))
  {
    hide Inv, Can, Do;
    match a
    case Append => InvAppend(s);
    case Enter(id) => if s.syncing { InvEnterFollower(s, id); } else { InvEnterLeader(s, id); }
    case BeginSync(id) => InvBeginSync(s, id);
    case EndSync(id, ok) => InvEndSync(s, id, ok);
    case NotifyNext(id) => InvNotifyNext(s, id);
    case Recheck(id) => InvRecheck(s, id);
    case Receive(id) => InvReceive(s, id);
  }

  lemma {:induction false} InvRun(acts: seq<Action>)
    requires Runs(acts)
    ensures Inv(After(acts))
    decreases |acts|
  {
    hide Can, Do;
    if acts != [] {
      InvRun(acts[..|acts| - 1]);
      InvStep(After(acts[..|acts| - 1]), acts[|acts| - 1]);
    }
  }

  // ---- what callers can rely on

  /** A call that returns without an error was covered by a run of the sync function that began after
      the call entered and succeeded; so everything appended before the call is durable. */
  lemma {:induction false} ReturnedIsDurable(acts: seq<Action>, id: nat)
    requires Runs(acts) && id in After(acts).callers && After(acts).callers[id].pc.Returned?
    ensures var s := After(acts); var c := s.callers[id];
      && c.pc.run < |s.runs| && s.runs[c.pc.run].begin > c.entry && s.runs[c.pc.run].result != Running
      && (s.runs[c.pc.run].result == Succeeded ==> s.durable >= c.must)
  {
    hide Can, Do, Runs, After, LeaderOk, QueuesOk;
    InvRun(acts);
    assert CallerOk(After(acts).runs, After(acts).callers, After(acts).callers[id]);
  }

  /** No call is stranded: whoever waits is pending or in the batch of the one active leader. */
  lemma {:induction false} NobodyStranded(acts: seq<Action>, w: nat)
    requires Runs(acts) && Waits(After(acts).callers, w)
    ensures var s := After(acts);
      && s.syncing && (exists id :: Leads(s.callers, id)) && (forall i, j :: Leads(s.callers, i) && Leads(s.callers, j) ==> i == j)
      && (w in s.pending <==> !InBatch(s.callers, w))
  {
    hide Can, Do, Runs, After, CallersOk, TimesOk;
    InvRun(acts);
  }

  /** A call is notified at most once: the result it gets never changes. */
  lemma {:induction false} ResultStays(acts: seq<Action>, a: Action, id: nat)
    requires Runs(acts) && Can(After(acts), a) && id in After(acts).callers
    requires After(acts).callers[id].pc.Notified? || After(acts).callers[id].pc.Returned?
    ensures var s, s' := After(acts), Do(After(acts), a);
      && id in s'.callers && s'.callers[id].entry == s.callers[id].entry
      && (s'.callers[id].pc == s.callers[id].pc || (s.callers[id].pc.Notified? && s'.callers[id].pc == Returned(s.callers[id].pc.run)))
      && s.callers[id].pc.run < |s.runs| && s'.runs[s.callers[id].pc.run] == s.runs[s.callers[id].pc.run]
  {
    hide Runs, After, TimesOk;
    InvRun(acts);
    var s := After(acts);
    assert CallerOk(s.runs, s.callers, s.callers[id]);
    if a.NotifyNext? {
      var w := s.callers[a.id].pc.lead.batch[0];
      assert w in BatchOf(s.callers[a.id].pc) && Waits(s.callers, w);
    }
    if a.EndSync? {
      OneRunPerLeader(s, a.id, id);
    }
  }

  /** A run that is still going on has not been reported to anybody. */
  lemma {:induction false} OneRunPerLeader(s: State, id: nat, other: nat)
    requires CallersOk(s.runs, s.callers) && Leads(s.callers, id) && s.callers[id].pc.lead.Syncing?
    requires other in s.callers && (s.callers[other].pc.Notified? || s.callers[other].pc.Returned?)
    requires s.callers[id].pc.lead.run < |s.runs| && s.runs[s.callers[id].pc.lead.run].result == Running
    ensures s.callers[other].pc.run != s.callers[id].pc.lead.run
  {
    assert CallerOk(s.runs, s.callers, s.callers[other]);
  }

  // ---- the result of the sync function

  /** Action k of a run ends this run of the sync function, with this result. */
  ghost predicate EndsRun(acts: seq<Action>, k: nat, run: nat, ok: bool) {
    && k < |acts| && acts[k].EndSync? && acts[k].ok == ok && Runs(acts[..k]) && Can(After(acts[..k]), acts[k])
    && After(acts[..k]).callers[acts[k].id].pc.lead.run == run
  }

  /** A run of the sync function has a result if and only if an action has ended it, and then the result
      is that of the sync function. */
  ghost predicate ResultFrom(acts: seq<Action>, run: nat, result: Result) {
    match result
    case Running => NoEnd(acts, run)
    case Succeeded => (exists k: nat :: EndsRun(acts, k, run, true)) && forall k: nat :: !EndsRun(acts, k, run, false)
    case Failed => (exists k: nat :: EndsRun(acts, k, run, false)) && forall k: nat :: !EndsRun(acts, k, run, true)
  }

  ghost predicate NoEnd(acts: seq<Action>, run: nat) {
    forall k: nat, ok :: !EndsRun(acts, k, run, ok)
  }

  lemma {:induction false} NoEndAtFirst()
    ensures forall run: nat :: NoEnd([], run)
  {
  }

  lemma {:induction false} EndsBefore(acts: seq<Action>, n: nat, run: nat)
    requires Runs(acts) && |acts| == n + 1
    ensures forall ok, k: nat :: EndsRun(acts, k, run, ok) <==> EndsRun(acts[..n], k, run, ok) || (k == n && EndsRun(acts, n, run, ok))
  {
    hide Can, Runs, After;
    forall ok, k: nat | k < n
      ensures EndsRun(acts, k, run, ok) <==> EndsRun(acts[..n], k, run, ok)
    {
      assert acts[..n][..k] == acts[..k];
    }
  }

  lemma {:induction false} ResultsFrom(acts: seq<Action>)
    requires Runs(acts)
    ensures forall run: nat :: run < |After(acts).runs| ==> ResultFrom(acts, run, After(acts).runs[run].result)
    ensures forall run: nat :: run >= |After(acts).runs| ==> NoEnd(acts, run)
    decreases |acts|
  {
    hide Can, Do, CallersOk, TimesOk, QueuesOk, ResultFrom, LeaderOk, NoEnd, EndsRun;
    if acts == [] {
      NoEndAtFirst();
      return;
    }
    var n := |acts| - 1;
    ResultsFrom(acts[..n]);
    InvRun(acts[..n]);
    var s, a := After(acts[..n]), acts[n];
    RunsAfter(s, a);
    forall run: nat
      ensures run < |After(acts).runs| ==> ResultFrom(acts, run, After(acts).runs[run].result)
      ensures run >= |After(acts).runs| ==> NoEnd(acts, run)
    {
      EndsBefore(acts, n, run);
      ResultMore(acts, n, run);
    }
  }

  /** The result of a run after an action. */
  function NewResult(s: State, a: Action, run: nat): Result
    requires Can(s, a) && run < |s.runs|
  {
    if a.EndSync? && s.callers[a.id].pc.lead.run == run then (if a.ok then Succeeded else Failed) else s.runs[run].result
  }

  /** What an action does to the runs of the sync function. */
  lemma {:induction false} RunsAfter(s: State, a: Action)
    requires Inv(s) && Can(s, a)
    ensures |Do(s, a).runs| == |s.runs| + if a.BeginSync? then 1 else 0
    ensures a.BeginSync? ==> Do(s, a).runs[|s.runs|].result == Running
    ensures a.EndSync? ==> s.callers[a.id].pc.lead.run < |s.runs| && s.runs[s.callers[a.id].pc.lead.run].result == Running
    ensures forall run: nat :: run < |s.runs| ==> Do(s, a).runs[run].result == NewResult(s, a, run)
  {
    hide TimesOk, LeaderOk, QueuesOk;
    if a.EndSync? {
      assert CallerOk(s.runs, s.callers, s.callers[a.id]);
    }
  }

  lemma {:induction false} ResultMore(acts: seq<Action>, n: nat, run: nat)
    requires Runs(acts) && |acts| == n + 1 && Can(After(acts[..n]), acts[n])
    requires var s, s', a := After(acts[..n]), After(acts), acts[n];
      && |s'.runs| == |s.runs| + (if a.BeginSync? then 1 else 0)
      && (a.BeginSync? ==> s'.runs[|s.runs|].result == Running)
      && (a.EndSync? ==> s.callers[a.id].pc.lead.run < |s.runs| && s.runs[s.callers[a.id].pc.lead.run].result == Running)
      && (run < |s.runs| ==> s'.runs[run].result == NewResult(s, a, run))
    requires run < |After(acts[..n]).runs| ==> ResultFrom(acts[..n], run, After(acts[..n]).runs[run].result)
    requires run >= |After(acts[..n]).runs| ==> NoEnd(acts[..n], run)
    requires forall ok, k: nat :: EndsRun(acts, k, run, ok) <==> EndsRun(acts[..n], k, run, ok) || (k == n && EndsRun(acts, n, run, ok))
    ensures run < |After(acts).runs| ==> ResultFrom(acts, run, After(acts).runs[run].result)
    ensures run >= |After(acts).runs| ==> NoEnd(acts, run)
  {
    hide Do, After;
    var s, a := After(acts[..n]), acts[n];
    forall ok
      ensures EndsRun(acts, n, run, ok) <==> a.EndSync? && a.ok == ok && s.callers[a.id].pc.lead.run == run
    {
    }
    hide Can, EndsRun;
    if a.EndSync? && s.callers[a.id].pc.lead.run == run {
      assert NoEnd(acts[..n], run);
      assert EndsRun(acts, n, run, a.ok);
    } else {
      assert forall ok, k: nat :: EndsRun(acts, k, run, ok) <==> EndsRun(acts[..n], k, run, ok);
    }
  }

  /** A call has a result without error if and only if the sync function reported success for the run
      that covered it, and an error if and only if it reported one. */
  lemma {:induction false} ResultIsSyncs(acts: seq<Action>, id: nat, k: nat, ok: bool)
    requires Runs(acts) && id in After(acts).callers
    requires After(acts).callers[id].pc.Notified? || After(acts).callers[id].pc.Returned?
    requires EndsRun(acts, k, After(acts).callers[id].pc.run, ok)
    ensures var s := After(acts); var run := s.callers[id].pc.run;
      run < |s.runs| && s.runs[run].begin > s.callers[id].entry && s.runs[run].result == if ok then Succeeded else Failed
  {
    hide Can, Do, Runs, After, TimesOk, LeaderOk, QueuesOk, EndsRun;
    InvRun(acts);
    ResultsFrom(acts);
    assert CallerOk(After(acts).runs, After(acts).callers, After(acts).callers[id]);
  }

  /** There is such an action for every call that has a result. */
  lemma {:induction false} ResultExists(acts: seq<Action>, id: nat) returns (k: nat, ok: bool)
    requires Runs(acts) && id in After(acts).callers
    requires After(acts).callers[id].pc.Notified? || After(acts).callers[id].pc.Returned?
    ensures EndsRun(acts, k, After(acts).callers[id].pc.run, ok)
  {
    hide Can, Do, Runs, After, TimesOk, LeaderOk, QueuesOk, EndsRun;
    InvRun(acts);
    ResultsFrom(acts);
    var s := After(acts);
    assert CallerOk(s.runs, s.callers, s.callers[id]);
    var run := s.callers[id].pc.run;
    if s.runs[run].result == Succeeded {
      k :| EndsRun(acts, k, run, true);
      ok := true;
    } else {
      k :| EndsRun(acts, k, run, false);
      ok := false;
    }
  }

  // ---- the lock of the log, and the end of every call

  ghost predicate LockOk(locked: bool, callers: map<nat, Caller>, runs: seq<SyncRun>) {
    && (locked <==> exists id :: Leads(callers, id) && callers[id].pc.lead.Syncing?)
    && (forall r :: 0 <= r < |runs| && runs[r].result == Running ==> RunBy(callers, r))
  }

  /** The leader is in this run of the sync function. */
  ghost predicate RunBy(callers: map<nat, Caller>, run: nat) {
    exists id :: Leads(callers, id) && callers[id].pc.lead.Syncing? && callers[id].pc.lead.run == run
  }

  lemma {:induction false} LockStep(s: State, a: Action)
    requires Inv(s) && LockOk(s.locked, s.callers, s.runs) && Can(s, a)
    ensures LockOk(Do(s, a).locked, Do(s, a).callers, Do(s, a).runs)
  {
    hide TimesOk, CallersOk;
    var callers := Do(s, a).callers;
    match a
    case Append =>
    case BeginSync(id) =>
      assert Leads(callers, id);
    case NotifyNext(id) =>
      var w := s.callers[id].pc.lead.batch[0];
      assert w in BatchOf(s.callers[id].pc) && Waits(s.callers, w);
      assert forall j :: Leads(callers, j) <==> Leads(s.callers, j);
    case EndSync(id, _) =>
      assert forall j :: Leads(callers, j) <==> Leads(s.callers, j);
    case _ =>
      assert forall j :: j != a.id ==> (Leads(callers, j) <==> Leads(s.callers, j));
  }

  /** The log is locked exactly while the leader runs the sync function. */
  lemma {:induction false} LockedIff(acts: seq<Action>)
    requires Runs(acts)
    ensures LockOk(After(acts).locked, After(acts).callers, After(acts).runs)
    decreases |acts|
  {
    hide Can, Do, Inv;
    if acts != [] {
      LockedIff(acts[..|acts| - 1]);
      InvRun(acts[..|acts| - 1]);
      LockStep(After(acts[..|acts| - 1]), acts[|acts| - 1]);
    }
  }

  /** What is left to do for a leader. */
  function LeadWork(pc: PC): nat {
    match pc
    case Leading(Ready(batch)) => 3 + 2 * |batch|
    case Leading(Syncing(batch, _)) => 2 + 2 * |batch|
    case Leading(Notifying(batch, _)) => 1 + 2 * |batch|
    case _ => 0
  }

  ghost function LeaderWork(callers: map<nat, Caller>): nat {
    if exists id :: Leads(callers, id) then
      var id :| Leads(callers, id);
      LeadWork(callers[id].pc)
    else 0
  }

  function Informed(callers: map<nat, Caller>): set<nat> {
    set id | id in callers && callers[id].pc.Notified?
  }

  /** An upper bound on the steps that the calls under way still take. */
  ghost function Work(s: State): nat {
    5 * |s.pending| + LeaderWork(s.callers) + |Informed(s.callers)|
  }

  predicate OfCall(a: Action) {
    !a.Append? && !a.Enter?
  }

  lemma {:induction false} WorkOfLeader(syncing: bool, callers: map<nat, Caller>, id: nat)
    requires LeaderOk(syncing, callers) && Leads(callers, id)
    ensures LeaderWork(callers) == LeadWork(callers[id].pc)
  {
  }

  /** Each step of a call takes some of it away. */
  lemma {:induction false} WorkDrops(s: State, a: Action)
    requires Inv(s) && Can(s, a) && OfCall(a)
    ensures Work(Do(s, a)) < Work(s)
  {
    hide TimesOk, CallersOk, LeaderOk, QueuesOk, LeaderWork;
    var s' := Do(s, a);
    InvStep(s, a);
    if a.Receive? {
      InformedLess(s, a.id);
    } else {
      OnlyLeader(s.syncing, s.callers, a.id);
      WorkOfLeader(s.syncing, s.callers, a.id);
      if a.NotifyNext? {
        FirstWaits(s, a.id);
      }
      if Leads(s'.callers, a.id) {
        WorkOfLeader(s'.syncing, s'.callers, a.id);
      } else {
        NoLeaderLeft(s, a.id);
      }
      if a.NotifyNext? {
        InformedMore(s, a.id);
      } else {
        assert Informed(s'.callers) == Informed(s.callers);
      }
    }
  }

  lemma {:induction false} FirstWaits(s: State, id: nat)
    requires QueuesOk(s.pending, s.syncing, s.callers) && Can(s, NotifyNext(id))
    ensures Waits(s.callers, s.callers[id].pc.lead.batch[0])
  {
    assert s.callers[id].pc.lead.batch[0] in BatchOf(s.callers[id].pc);
  }

  lemma {:induction false} NoLeaderLeft(s: State, id: nat)
    requires LeaderOk(s.syncing, s.callers) && Can(s, Recheck(id)) && !Leads(Do(s, Recheck(id)).callers, id)
    ensures LeaderWork(Do(s, Recheck(id)).callers) == 0
  {
    assert forall j :: Leads(Do(s, Recheck(id)).callers, j) ==> Leads(s.callers, j);
  }

  lemma {:induction false} InformedLess(s: State, id: nat)
    requires LeaderOk(s.syncing, s.callers) && Can(s, Receive(id))
    ensures |Informed(Do(s, Receive(id)).callers)| < |Informed(s.callers)|
    ensures LeaderWork(Do(s, Receive(id)).callers) == LeaderWork(s.callers)
  {
    var callers := Do(s, Receive(id)).callers;
    assert Informed(callers) == Informed(s.callers) - {id};
    assert forall j :: Leads(callers, j) <==> Leads(s.callers, j);
    if j :| Leads(s.callers, j) {
      WorkOfLeader(s.syncing, s.callers, j);
      assert LeaderOk(s.syncing, callers);
      WorkOfLeader(s.syncing, callers, j);
    }
  }

  lemma {:induction false} InformedMore(s: State, id: nat)
    requires QueuesOk(s.pending, s.syncing, s.callers) && Can(s, NotifyNext(id))
    ensures |Informed(Do(s, NotifyNext(id)).callers)| == |Informed(s.callers)| + 1
  {
    var w := s.callers[id].pc.lead.batch[0];
    assert w in BatchOf(s.callers[id].pc) && Waits(s.callers, w);
    assert Informed(Do(s, NotifyNext(id)).callers) == Informed(s.callers) + {w};
  }

  /** Whenever a call is under way, some call can take a step; the sync function may return either way. */
  lemma {:induction false} SomeStep(s: State, id: nat, ok: bool) returns (a: Action)
    requires Inv(s) && LockOk(s.locked, s.callers, s.runs) && id in s.callers && !s.callers[id].pc.Returned?
    ensures Can(s, a) && OfCall(a) && (a.EndSync? ==> a.ok == ok)
  {
    hide TimesOk;
    if s.callers[id].pc.Notified? {
      a := Receive(id);
    } else {
      assert s.callers[id].pc == Waiting ==> Waits(s.callers, id);
      assert s.syncing by {
        assert id in s.pending || InBatch(s.callers, id) || Leads(s.callers, id);
      }
      var lead :| Leads(s.callers, lead);
      OnlyLeader(s.syncing, s.callers, lead);
      var batch := BatchOf(s.callers[lead].pc);
      assert forall w :: w in batch ==> Waits(s.callers, w);
      assert CallerOk(s.runs, s.callers, s.callers[lead]);
      a := match s.callers[lead].pc.lead
        case Ready(_) => BeginSync(lead)
        case Syncing(_, _) => EndSync(lead, ok)
        case Notifying(_, _) => if batch == [] then Recheck(lead) else NotifyNext(lead);
      assert batch != [] ==> batch[0] in batch;
    }
  }

  ghost predicate AllReturned(s: State) {
    forall id :: id in s.callers ==> s.callers[id].pc.Returned?
  }

  lemma {:induction false} RunOn(acts: seq<Action>, a: Action)
    requires Runs(acts) && Can(After(acts), a)
    ensures Runs(acts + [a]) && After(acts + [a]) == Do(After(acts), a)
  {
    hide Can, Do;
    assert (acts + [a])[..|acts|] == acts;
  }

  /** Every call ends: from any state that a run reaches, the calls under way can all be finished without
      new ones, whatever the sync function returns; and since each of their steps lowers Work, no order of
      those steps goes on for ever. */
  lemma {:induction false} AllReturn(acts: seq<Action>, ok: bool) returns (more: seq<Action>)
    requires Runs(acts)
    ensures |more| <= Work(After(acts)) && Runs(acts + more) && AllReturned(After(acts + more))
    ensures After(acts + more).callers.Keys == After(acts).callers.Keys
    ensures forall k :: 0 <= k < |more| ==> OfCall(more[k]) && (more[k].EndSync? ==> more[k].ok == ok)
    decreases Work(After(acts))
  {
    hide Can, Do, Inv, LockOk, Runs, After, Work, OfCall;
    if AllReturned(After(acts)) {
      more := [];
      assert acts + [] == acts;
    } else {
      var id :| id in After(acts).callers && !After(acts).callers[id].pc.Returned?;
      InvRun(acts);
      LockedIff(acts);
      var a := SomeStep(After(acts), id, ok);
      RunOn(acts, a);
      WorkDrops(After(acts), a);
      SameCalls(After(acts), a);
      var rest := AllReturn(acts + [a], ok);
      more := [a] + rest;
      assert acts + more == acts + [a] + rest;
    }
  }

  lemma {:induction false} SameCalls(s: State, a: Action)
    requires Can(s, a) && OfCall(a)
    ensures Do(s, a).callers.Keys == s.callers.Keys
  {
  }

  // ---- the history of a call

  /** Action j begins this run of the sync function. */
  ghost predicate BeginsRun(acts: seq<Action>, j: nat, run: nat) {
    j < |acts| && acts[j].BeginSync? && Runs(acts[..j]) && |After(acts[..j]).runs| == run
  }

  /** How many records have been appended. */
  function Appends(acts: seq<Action>): nat {
    if acts == [] then 0 else Appends(acts[..|acts| - 1]) + if acts[|acts| - 1] == Append then 1 else 0
  }

  lemma {:induction false} AppendsIs(acts: seq<Action>)
    requires Runs(acts)
    ensures After(acts).appended == Appends(acts)
    decreases |acts|
  {
    hide Can, Do;
    if acts != [] {
      AppendsIs(acts[..|acts| - 1]);
      StepUp(After(acts[..|acts| - 1]), acts[|acts| - 1]);
    }
  }

  /** What counts as durable is what had been appended when a successful run began. */
  lemma {:induction false} DurableFrom(acts: seq<Action>) returns (j: nat, k: nat, run: nat)
    requires Runs(acts) && After(acts).durable > 0
    ensures BeginsRun(acts, j, run) && EndsRun(acts, k, run, true) && After(acts).durable == Appends(acts[..j])
    decreases |acts|
  {
    hide Can, Do, TimesOk, LeaderOk, QueuesOk, CallersOk;
    var n := |acts| - 1;
    var s, a := After(acts[..n]), acts[n];
    if After(acts).durable == s.durable {
      j, k, run := DurableFrom(acts[..n]);
      assert acts[..n][..j] == acts[..j] && acts[..n][..k] == acts[..k];
    } else {
      k := n;
      run := StepDurable(s, a);
      j := BeganAt(acts[..n], run);
      assert acts[..n][..j] == acts[..j];
    }
  }

  lemma {:induction false} StepDurable(s: State, a: Action) returns (run: nat)
    requires Can(s, a) && Do(s, a).durable != s.durable
    ensures a.EndSync? && a.ok && Leads(s.callers, a.id) && s.callers[a.id].pc.lead.Syncing?
    ensures run == s.callers[a.id].pc.lead.run < |s.runs| && Do(s, a).durable == s.runs[run].snapshot
  {
    run := s.callers[a.id].pc.lead.run;
  }

  lemma {:induction false} PartRuns(acts: seq<Action>, k: nat)
    requires Runs(acts) && k <= |acts|
    ensures Runs(acts[..k])
    ensures k < |acts| ==> Runs(acts[..k + 1]) && Can(After(acts[..k]), acts[k]) && After(acts[..k + 1]) == Do(After(acts[..k]), acts[k])
    decreases |acts|
  {
    hide Can, Do;
    if k == |acts| {
      assert acts[..k] == acts;
    } else if k == |acts| - 1 {
      assert acts[..k + 1] == acts;
    } else {
      PartRuns(acts[..|acts| - 1], k);
      assert acts[..|acts| - 1][..k] == acts[..k] && acts[..|acts| - 1][..k + 1] == acts[..k + 1];
    }
  }

  predicate SameCall(callers: map<nat, Caller>, callers': map<nat, Caller>, id: nat)
    requires id in callers
  {
    id in callers' && callers'[id].entry == callers[id].entry && callers'[id].must == callers[id].must
  }

  /** Time and the number of runs go up only. */
  lemma {:induction false} OnlyUp(acts: seq<Action>, k: nat, m: nat)
    requires Runs(acts) && k <= m <= |acts| && Runs(acts[..k]) && Runs(acts[..m])
    ensures After(acts[..k]).clock <= After(acts[..m]).clock && |After(acts[..k]).runs| <= |After(acts[..m]).runs|
    ensures forall r :: 0 <= r < |After(acts[..k]).runs| ==> After(acts[..m]).runs[r].begin == After(acts[..k]).runs[r].begin
    ensures forall id :: id in After(acts[..k]).callers ==> SameCall(After(acts[..k]).callers, After(acts[..m]).callers, id)
    decreases m
  {
    hide Runs, After, Can, Do;
    if k < m {
      PartRuns(acts, m - 1);
      OnlyUp(acts, k, m - 1);
      StepUp(After(acts[..m - 1]), acts[m - 1]);
    }
  }

  lemma {:induction false} StepUp(s: State, a: Action)
    requires Can(s, a)
    ensures s.clock <= Do(s, a).clock && |s.runs| <= |Do(s, a).runs| <= |s.runs| + 1
    ensures Do(s, a).appended == s.appended + if a == Append then 1 else 0
    ensures |Do(s, a).runs| > |s.runs| ==>
      a.BeginSync? && Do(s, a).runs[|s.runs|].begin == s.clock && Do(s, a).runs[|s.runs|].snapshot == s.appended
    ensures forall r :: 0 <= r < |s.runs| ==>
      Do(s, a).runs[r].begin == s.runs[r].begin && Do(s, a).runs[r].snapshot == s.runs[r].snapshot
    ensures forall id :: id in s.callers ==> SameCall(s.callers, Do(s, a).callers, id)
  {
  }

  /** When a call entered. */
  lemma {:induction false} EntryAt(acts: seq<Action>, i: nat, id: nat)
    requires Runs(acts) && i < |acts| && acts[i] == Enter(id)
    ensures Runs(acts[..i]) && id in After(acts).callers && After(acts).callers[id].entry == After(acts[..i]).clock
    ensures After(acts).callers[id].must == Appends(acts[..i])
  {
    hide Runs, After;
    PartRuns(acts, i);
    AppendsIs(acts[..i]);
    PartRuns(acts, i);
    PartRuns(acts, i + 1);
    assert acts[..|acts|] == acts;
    OnlyUp(acts, i + 1, |acts|);
    assert SameCall(After(acts[..i + 1]).callers, After(acts).callers, id);
  }

  /** When a run of the sync function began. */
  lemma {:induction false} BeganAt(acts: seq<Action>, run: nat) returns (j: nat)
    requires Runs(acts) && run < |After(acts).runs|
    ensures BeginsRun(acts, j, run) && After(acts).runs[run].begin == After(acts[..j]).clock
    ensures After(acts).runs[run].snapshot == Appends(acts[..j])
    decreases |acts|
  {
    hide Can, Do;
    var n := |acts| - 1;
    var s, a := After(acts[..n]), acts[n];
    StepUp(s, a);
    if run < |s.runs| {
      j := BeganAt(acts[..n], run);
      assert acts[..n][..j] == acts[..j];
    } else {
      j := n;
      AppendsIs(acts[..n]);
    }
  }

  /** A run that has ended ends only once, and until then the log is locked. */
  lemma {:induction false} LockedUntil(acts: seq<Action>, j: nat, k: nat, m: nat, run: nat, ok: bool)
    requires Runs(acts) && BeginsRun(acts, j, run) && EndsRun(acts, k, run, ok) && j < m <= k && Runs(acts[..m])
    ensures After(acts[..m]).locked
  {
    hide Can, Do, Runs, After, TimesOk, QueuesOk, LeaderOk, CallersOk;
    PartRuns(acts, j);
    PartRuns(acts, m);
    PartRuns(acts, k);
    PartRuns(acts, k + 1);
    InvRun(acts[..j]);
    InvRun(acts[..k]);
    RunsAfter(After(acts[..j]), acts[j]);
    RunsAfter(After(acts[..k]), acts[k]);
    OnlyUp(acts, j + 1, m);
    ResultsFrom(acts[..m]);
    ResultsFrom(acts[..k]);
    LockedIff(acts[..m]);
    assert After(acts[..k]).runs[run].result == Running && NoEnd(acts[..k], run);
    forall x: nat, r | EndsRun(acts[..m], x, run, r)
      ensures EndsRun(acts[..k], x, run, r)
    {
      assert acts[..m][..x] == acts[..x] == acts[..k][..x];
    }
    assert After(acts[..m]).runs[run].result == Running;
    assert RunBy(After(acts[..m]).callers, run);
  }

  /** The call that entered by action i and has a result: the sync function was called by a later action
      j and returned by action k with just that result, and nothing was appended in between. So all that
      had been appended before the call was in the log when a successful sync function began. */
  lemma {:induction false} CoveredBySync(acts: seq<Action>, i: nat, id: nat) returns (j: nat, k: nat, ok: bool)
    requires Runs(acts) && i < |acts| && acts[i] == Enter(id) && id in After(acts).callers
    requires After(acts).callers[id].pc.Notified? || After(acts).callers[id].pc.Returned?
    ensures i < j < k < |acts| && acts[j].BeginSync? && acts[k].EndSync? && acts[k].ok == ok
    ensures forall m :: j < m < k ==> acts[m] != Append
    ensures var s := After(acts); var run := s.callers[id].pc.run;
      && BeginsRun(acts, j, run) && EndsRun(acts, k, run, ok)
      && run < |s.runs| && s.runs[run].result == if ok then Succeeded else Failed
  {
    hide Can, Do, Runs, After, TimesOk, QueuesOk, LeaderOk, CallersOk;
    k, ok := ResultExists(acts, id);
    ResultIsSyncs(acts, id, k, ok);
    var run := After(acts).callers[id].pc.run;
    j := BeganAt(acts, run);
    EntryAt(acts, i, id);
    if j <= i {
      OnlyUp(acts, j, i);
    }
    EndedRunBegan(acts, k, run, ok);
    if k <= j {
      OnlyUp(acts, k, j);
    }
    forall m | j < m < k
      ensures acts[m] != Append
    {
      PartRuns(acts, m);
      LockedUntil(acts, j, k, m, run, ok);
      NoAppendLocked(After(acts[..m]), acts[m]);
    }
  }

  lemma {:induction false} EndedRunBegan(acts: seq<Action>, k: nat, run: nat, ok: bool)
    requires EndsRun(acts, k, run, ok)
    ensures run < |After(acts[..k]).runs|
  {
  }

  lemma {:induction false} NoAppendLocked(s: State, a: Action)
    requires Can(s, a) && s.locked
    ensures a != Append
  {
  }
}
