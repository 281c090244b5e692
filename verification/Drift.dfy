/** When a local edit is sure to be newer than the row it edits. */
module Drift {
  import opened Basics
  import opened Clock
  import opened Versions
  import opened Records
  import opened Device
  import opened Server
  import opened Protocol
  import opened Net
  import opened Handover
  import Guarantees
  import Store

  /** The clock is at or past every row. */
  predicate Ahead(d: Device) {
    forall id :: id in d.rows ==> Ticks(d.rows[id].clock) <= Ticks(d.clock)
  }

  /** A row is no later than the clock, or than the newest record accepted. */
  predicate Within(clock: Hlc, newest: Option<Hlc>, row: Row) {
    || Ticks(row.clock) <= Ticks(clock)
    || (newest.Some? && Ticks(row.clock) <= Ticks(newest.value))
  }

  predicate AllWithin(clock: Hlc, newest: Option<Hlc>, rows: map<Id, Row>) {
    forall id :: id in rows ==> Within(clock, newest, rows[id])
  }

  lemma NewerIsNewer(newest: Option<Hlc>, clock: Hlc)
    ensures var after := Newer(newest, clock);
            && after.Some? && Ticks(clock) <= Ticks(after.value)
            && (newest.Some? ==> Ticks(newest.value) <= Ticks(after.value))
            && (after == newest || after.value == clock)
  {
    if newest.Some? { LessIsTicks(clock, newest.value); }
  }

  /** One record writes at most its own clock, and then it was not rejected. */
  lemma ApplyOneClocks(d: Device, e: Envelope, id: Id)
    requires id in ApplyOne(d, e).device.rows
    ensures var effect := ApplyOne(d, e);
            var clock := effect.device.rows[id].clock;
            || (id in d.rows && clock == d.rows[id].clock)
            || clock == ZERO
            || (clock == e.clock && !effect.outcome.Rejected?)
  {
  }

  lemma {:induction false} BatchStaysWithin(b: Batch, es: seq<Envelope>, limit: nat)
    requires AllWithin(b.device.clock, b.newest, b.device.rows)
    requires b.newest.Some? ==> b.newest.value.wall <= limit
    requires forall e :: e in es ==> e.clock.wall <= limit
    ensures var c := ApplyAll(b, es);
            && AllWithin(b.device.clock, c.newest, c.device.rows)
            && (c.newest.Some? ==> c.newest.value.wall <= limit)
    decreases |es|
  {
    if es != [] {
      var front, e := es[..|es| - 1], es[|es| - 1];
      BatchStaysWithin(b, front, limit);
      var c := ApplyAll(b, front);
      NewerIsNewer(c.newest, e.clock);
      var rows := ApplyOne(c.device, e).device.rows;
      forall id | id in rows
        ensures Within(b.device.clock, ApplyAll(b, es).newest, rows[id])
      {
        ApplyOneClocks(c.device, e, id);
      }
    }
  }

  /** As long as nothing arrives from more than a day ahead, the clock stays ahead
      of every row, whoever sends what. */
  lemma ApplyKeepsAhead(d: Device, es: seq<Envelope>, now: u64)
    requires Ahead(d) && forall e :: e in es ==> e.clock.wall <= now + MAX_DRIFT_MS
    requires Max(Ticks(d.clock), (now + MAX_DRIFT_MS + 1) * U32) < U64_MAX * U32 + (U32 - 1)
    ensures Ahead(ApplyEnvelopes(d, es, now).0)
  {
    hide Ticks;
    if es != [] {
      var start := Batch(d, NOTHING, None);
      assert forall e :: e in InOrder(es) ==> e in multiset(InOrder(es));
      assert forall e :: e in InOrder(es) ==> e in es;
      BatchStaysWithin(start, InOrder(es), now + MAX_DRIFT_MS);
      ApplyAllFrame(start, InOrder(es));
      var b := ApplyAll(start, InOrder(es));
      if b.newest.Some? {
        MergePasses(d.clock, b.newest.value, now);
      }
    }
  }

  lemma MergePasses(clock: Hlc, newest: Hlc, now: u64)
    requires newest.wall <= now + MAX_DRIFT_MS
    requires Max(Ticks(clock), (now + MAX_DRIFT_MS + 1) * U32) < U64_MAX * U32 + (U32 - 1)
    ensures Ticks(Merge(clock, newest, now)) >= Ticks(clock)
    ensures Ticks(Merge(clock, newest, now)) >= Ticks(newest)
  {
    assert Clamped(newest, now) == Ticks(newest);
    assert newest.wall * U32 <= (now + MAX_DRIFT_MS) * U32;
    MergeIsMax(clock, newest, now);
  }

  /** So the next edit of any row, at whatever time, is newer than the row. */
  lemma AheadEditsWin(d: Device, id: Id, later: u64)
    requires Ahead(d) && id in d.rows && !AtTop(d.clock)
    ensures Less(d.rows[id].clock, Tick(d.clock, later))
  {
    TickIsMax(d.clock, later);
    LessIsTicks(d.rows[id].clock, Tick(d.clock, later));
  }

  lemma EditKeepsAhead(d: Device, changes: map<Id, Change>, now: u64)
    requires Ahead(d) && !AtTop(d.clock)
    ensures Ahead(Edit(d, changes, now))
  {
    TickIsMax(d.clock, now);
  }

  // ----- Over whole runs -----

  /** So on such a device an edit needs nothing but to be permitted. */
  lemma PermittedIsEditable(ledger: Ledger, d: Device, changes: map<Id, Change>, now: u64)
    requires Ahead(d) && Permitted(ledger, d, changes)
    ensures Editable(ledger, d, changes, now)
  {
    forall id | id in changes && id in d.rows
      ensures Less(d.rows[id].clock, Tick(d.clock, now))
    {
      AheadEditsWin(d, id, now);
    }
  }

  /** Nothing in here is from further ahead than a day. */
  predicate Recent(clock: Hlc, es: seq<Envelope>, now: u64) {
    && Max(Ticks(clock), (now + MAX_DRIFT_MS + 1) * U32) < U64_MAX * U32 + (U32 - 1)
    && forall e :: e in es ==> e.clock.wall <= now + MAX_DRIFT_MS
  }

  /** A step that takes in nothing from further ahead than a day. Host keys are
      written under this device's next tick. */
  predicate Timely(w: World, act: Action) {
    var d, flight := w.node.device, w.node.flight;
    match act
    case HostKeys(keys, _, now) =>
      forall id :: id in keys ==>
        (id in d.rows && keys[id].clock == d.rows[id].clock) || keys[id].clock == Tick(d.clock, now)
    case MergeConflicts(now) => flight.Merging? ==> Recent(d.clock, flight.conflicts, now)
    case Take(now) => flight.Paged? ==> Recent(d.clock, flight.page.envelopes, now)
    case _ => true
  }

  lemma PublishKeepsAhead(d: Device, now: u64)
    requires Ahead(d) && !AtTop(d.clock)
    ensures Ahead(Publish(d, now))
  {
    TickIsMax(d.clock, now);
  }

  lemma TimelyKeepsAhead(w: World, act: Action)
    requires Ahead(w.node.device) && Enabled(w, act) && Timely(w, act)
    ensures Ahead(Do(w, act).node.device)
  {
    hide ApplyEnvelopes, Edit, Publish, ListingOf, UpToDate, Ticks;
    var d := w.node.device;
    match act
    case Edits(changes, now) => EditKeepsAhead(d, changes, now);
    case HostKeys(keys, _, now) => TickIsMax(d.clock, now);
    case Mark => Store.MarkAllKeepsClocks(d.rows, w.node.flight.pushed);
    case MergeConflicts(now) => ApplyKeepsAhead(d, w.node.flight.conflicts, now);
    case Take(now) => ApplyKeepsAhead(d, w.node.flight.page.envelopes, now);
    case PublishManifest(now) => PublishKeepsAhead(d, now);
    case _ =>
  }

  predicate AllAhead(net: Net) {
    forall m :: m in net.nodes ==> Ahead(net.nodes[m].device)
  }

  /** A step, where an edit need not be newer than what it writes over. */
  ghost predicate MayStep(net: Net, step: Step) {
    && step.device in net.nodes
    && var w := WorldOf(net, step.device);
       && Timely(w, step.act)
       && (if step.act.Edits? then Permitted(w.ledger, w.node.device, step.act.changes) else Enabled(w, step.act))
  }

  /** A run of such steps. */
  ghost predicate TimelyRun(net: Net, steps: seq<Step>)
    decreases |steps|
  {
    || steps == []
    || (MayStep(net, steps[0]) && (CanStep(net, steps[0]) ==> TimelyRun(Next(net, steps[0]), steps[1..])))
  }

  lemma MayStepIsStep(net: Net, step: Step)
    requires AllAhead(net) && MayStep(net, step)
    ensures CanStep(net, step) && AllAhead(Next(net, step))
  {
    var w := WorldOf(net, step.device);
    if step.act.Edits? { PermittedIsEditable(w.ledger, w.node.device, step.act.changes, step.act.now); }
    TimelyKeepsAhead(w, step.act);
  }

  lemma {:induction false} TimelyRunIsRun(net: Net, steps: seq<Step>)
    requires AllAhead(net) && TimelyRun(net, steps)
    ensures CanRun(net, steps) && AllAhead(Reached(net, steps))
    decreases |steps|
  {
    hide Next, MayStep, AllAhead;
    if steps != [] {
      MayStepIsStep(net, steps[0]);
      TimelyRunIsRun(Next(net, steps[0]), steps[1..]);
    }
  }

  /** As long as no clock is more than a day ahead of the others, every edit is newer
      than what it writes over, whoever made which edit when: no edit has to be told
      to be, and no clock falls behind a row. So all that holds of every run holds of
      these, and no write is lost. */
  lemma TimelyRunsLoseNothing(start: Net, steps: seq<Step>)
    requires Fresh(start) && TimelyRun(start, steps)
    ensures CanRun(start, steps)
    ensures var net := Reached(start, steps);
            && AllAhead(net)
            && forall s :: s in net.ledger ==> s.clock.device in net.nodes && Guarantees.Safe(net, s)
  {
    hide AllAhead, TimelyRun, Guarantees.Safe;
    FreshIsAhead(start);
    TimelyRunIsRun(start, steps);
    var net := Reached(start, steps);
    assert Guarantees.Reachable(net);
    forall s | s in net.ledger
      ensures s.clock.device in net.nodes && Guarantees.Safe(net, s)
    {
      Guarantees.NothingWrittenIsLost(net, s);
    }
  }

  lemma FreshIsAhead(net: Net)
    requires Fresh(net)
    ensures AllAhead(net)
  {
  }

  // ----- Past the drift -----

  /** Taking in a record leaves the device with it, and with a clock that heard it. */
  lemma HeardRecord(d: Device, e: Envelope, now: u64)
    requires Opens(e) && e.vault == d.vault && !e.deleted && e.blob.payload.Fields? && HasTable(e.id.kind)
    requires e.id in d.rows ==> Below(RowVersion(d.rows[e.id]), EnvelopeVersion(e))
    ensures var heard := ApplyEnvelopes(d, [e], now).0;
            && e.id in heard.rows && heard.rows[e.id] == Incoming(e)
            && heard.clock == Merge(d.clock, e.clock, now)
  {
    OneDelivery(d, e, now);
    if e.id in d.rows { ResolveIsOrder(RowVersion(d.rows[e.id]), EnvelopeVersion(e)); }
  }

  /** So when the edit of a record just taken in is newer than the record, for every
      time it may be made at. */
  lemma EditOfHeardIsNewerExactlyWhen(d: Device, e: Envelope, now: u64, later: u64)
    requires Opens(e) && e.vault == d.vault && !e.deleted && e.blob.payload.Fields? && HasTable(e.id.kind)
    requires e.id in d.rows ==> Below(RowVersion(d.rows[e.id]), EnvelopeVersion(e))
    requires Max(Ticks(d.clock), Ticks(e.clock)) + 1 < U64_MAX * U32 + (U32 - 1)
    ensures var heard := ApplyEnvelopes(d, [e], now).0;
            && e.id in heard.rows
            && (Less(heard.rows[e.id].clock, Tick(heard.clock, later))
                <==> || e.clock.wall <= now + MAX_DRIFT_MS
                     || Ticks(d.clock) + 2 > Ticks(e.clock)
                     || later * U32 > Ticks(e.clock)
                     || (Max(Ticks(d.clock) + 2, later * U32) == Ticks(e.clock) && e.clock.device < d.clock.device))
  {
    HeardRecord(d, e, now);
    NextEditIsNewerExactlyWhen(d.clock, e.clock, now, later);
  }

  /** Two devices hold the same live version of a record, and one edits it. */
  predicate SameRecord(a: Device, b: Device, id: Id, payload: Payload) {
    && a.vault == b.vault && Plain(id) && Synced(id.kind)
    && id in a.rows && !a.rows[id].deleted
    && id in b.rows && RowVersion(b.rows[id]) == RowVersion(a.rows[id]) && !b.rows[id].dirty
    && WellKinded(id.kind, false, payload)
  }

  /** The device after it edited the record. */
  function AfterEdit(a: Device, id: Id, payload: Payload, now: u64): Device {
    Edit(a, map[id := Put(payload)], now)
  }

  /** The device after the server took that. */
  function EditPushed(a: Device, log: Log, id: Id, payload: Payload, now: u64): Device {
    var edited := AfterEdit(a, id, payload, now);
    edited.(rows := Acknowledged(edited, log, id))
  }

  /** What becomes of an edit based on the version held: the server takes it, and
      the device's row is clear. The other device takes it in exactly if it is newer
      than what it edits. Otherwise that one keeps what it had, clear and under the
      same sequence number. */
  lemma EditReachesOthersExactlyWhenNewer(a: Device, b: Device, log: Log, id: Id, payload: Payload,
                                          now: u64, later: u64)
    requires SameRecord(a, b, id, payload) && Last(log, id) == a.rows[id].serverSeq - 1
    ensures var edited := AfterEdit(a, id, payload, now);
            var es := [EnvelopeOf(edited, id)];
            var reply := Serve(log, es);
            var taken := AsServed(edited, log, id);
            var mine := EditPushed(a, log, id, payload, now);
            var theirs := ApplyEnvelopes(b, [taken], later).0;
            && reply.conflicts == [] && Held(reply.log, taken)
            && MarkAll(edited.rows, Acks(es, reply.accepted)) == mine.rows
            && id in theirs.rows && !theirs.rows[id].dirty && !mine.rows[id].dirty
            && theirs.rows[id].serverSeq == mine.rows[id].serverSeq
            && (theirs.rows[id] == mine.rows[id]
                <==> || Less(a.rows[id].clock, Tick(a.clock, now))
                     || (a.rows[id].clock == Tick(a.clock, now) && b.rows[id].payload == payload))
            && (!Less(a.rows[id].clock, Tick(a.clock, now)) ==>
                  && RowVersion(theirs.rows[id]) == RowVersion(b.rows[id])
                  && theirs.rows[id].payload == b.rows[id].payload)
  {
    hide ApplyEnvelopes, ApplyOne, Held, Serve, Acks, MarkAll, Less, Tick;
    var edited := AfterEdit(a, id, payload, now);
    var taken := AsServed(edited, log, id);
    var clock := Tick(a.clock, now);
    assert edited.rows[id] == Row(clock, false, true, a.rows[id].serverSeq, payload);
    OnePush(edited, log, id);
    OneDelivery(b, taken, later);
    assert Opens(taken) && Incoming(taken) == Row(clock, false, false, |log| + 1, payload);
    EditTakenIn(b, taken);
  }

  /** And no further pull of it by either device changes anything: where the edit
      was not newer, the two differ until the record is written again. */
  lemma NeitherChangesAgain(a: Device, b: Device, log: Log, id: Id, payload: Payload, now: u64, later: u64)
    requires SameRecord(a, b, id, payload) && Last(log, id) == a.rows[id].serverSeq - 1
    ensures var taken := AsServed(AfterEdit(a, id, payload, now), log, id);
            var mine := EditPushed(a, log, id, payload, now);
            var theirs := ApplyEnvelopes(b, [taken], later).0;
            && ApplyOne(mine, taken).device.rows == mine.rows
            && ApplyOne(theirs, taken).device.rows == theirs.rows
  {
    hide ApplyEnvelopes, ApplyOne, Less, Tick;
    var edited := AfterEdit(a, id, payload, now);
    var taken := AsServed(edited, log, id);
    var clock := Tick(a.clock, now);
    var mine := EditPushed(a, log, id, payload, now);
    var theirs := ApplyEnvelopes(b, [taken], later).0;
    assert edited.rows[id] == Row(clock, false, true, a.rows[id].serverSeq, payload);
    OneDelivery(b, taken, later);
    EditTakenIn(b, taken);
    NotBeforeItself(clock);
    HadItAlready(mine, taken);
    HadItAlready(theirs, taken);
  }

  lemma HadItAlready(b: Device, e: Envelope)
    requires e.vault == b.vault && Plain(e.id) && Synced(e.id.kind) && Opens(e) && !e.deleted
    requires e.id in b.rows && !b.rows[e.id].deleted && !b.rows[e.id].dirty
    requires !Less(b.rows[e.id].clock, e.clock) && b.rows[e.id].serverSeq == SeqOf(e)
    ensures ApplyOne(b, e).device.rows == b.rows
  {
    EditTakenIn(b, e);
    assert b.rows[e.id := b.rows[e.id]] == b.rows;
  }

  lemma NotBeforeItself(clock: Hlc)
    ensures !Less(clock, clock)
  {
  }

  /** What the other device makes of it. */
  lemma EditTakenIn(b: Device, e: Envelope)
    requires e.vault == b.vault && Plain(e.id) && Synced(e.id.kind) && Opens(e) && !e.deleted
    requires e.id in b.rows && !b.rows[e.id].deleted && !b.rows[e.id].dirty
    ensures var rows := ApplyOne(b, e).device.rows;
            if Less(b.rows[e.id].clock, e.clock) then e.id in rows && rows[e.id] == Incoming(e)
            else rows == b.rows[e.id := b.rows[e.id].(serverSeq := SeqOf(e))]
  {
    ResolveIsOrder(RowVersion(b.rows[e.id]), EnvelopeVersion(e));
  }
}
