/** Any number of devices and one honest server.

    Every store call and every request is one step, so local edits, other
    devices' passes, lost answers and crashes come between any two of them. What
    is proved here is that every step keeps the invariants of `Protocol`;
    `Guarantees` says what follows. */
module Net {
  import opened Basics
  import opened Clock
  import opened Versions
  import opened Records
  import opened Device
  import opened Server
  import opened Protocol

  /** Where a device's sync pass stands, and what it holds in its hands. */
  datatype Flight =
    | Quiet
    | Sent(envelopes: seq<Envelope>)
    | Answered(pushed: seq<Pushed>, conflicts: seq<Envelope>, asOf: nat)
    | Merging(conflicts: seq<Envelope>, asOf: nat)
    | Paged(page: Page, asOf: nat)
    | Taken(page: Page, asOf: nat)

  /** `seen` is how long the log was for the last pull that reached the end;
      `whole` says nothing was taken in since. Neither is the device's to read. */
  datatype Node = Node(device: Device, flight: Flight, seen: nat, whole: bool)

  datatype World = World(log: Log, ledger: Ledger, node: Node)

  datatype Action =
    | Edits(changes: map<Id, Change>, now: u64)
    | HostKeys(keys: map<Id, Row>, superseded: map<Id, Hlc>, now: u64)
    | Offer(ids: seq<Id>)
    | ServePush
    | Mark
    | MergeConflicts(now: u64)
    | Ask(fits: nat)
    | Take(now: u64)
    | Advance
    | PublishManifest(now: u64)
    | Rewind
    | Lose

  /** Far enough from the end of the clock's range, five hundred million years on. */
  predicate Roomy(clock: Hlc, now: u64) {
    !AtTop(clock) && now + MAX_DRIFT_MS < U64_MAX
  }

  ghost predicate Enabled(w: World, act: Action) {
    var d := w.node.device;
    match act
    case Edits(changes, now) => Editable(w.ledger, d, changes, now)
    case HostKeys(keys, _, now) => !AtTop(d.clock) && forall id :: id in keys ==> !Plain(id)
    case Offer(ids) =>
      && w.node.flight.Quiet?
      && (forall id :: id in ids ==> id in d.rows && d.rows[id].dirty && HasTable(id.kind))
      && (forall i, j :: 0 <= i < j < |ids| ==> ids[i] != ids[j])
    case ServePush => w.node.flight.Sent?
    case Mark => w.node.flight.Answered?
    case MergeConflicts(now) => w.node.flight.Merging? && Roomy(d.clock, now)
    case Ask(_) => w.node.flight.Quiet?
    case Take(now) => w.node.flight.Paged? && Roomy(d.clock, now)
    case Advance => w.node.flight.Taken?
    case PublishManifest(_) => w.node.flight.Quiet? && !AtTop(d.clock)
    case Rewind => w.node.flight.Quiet?
    case Lose => true
  }

  /** The acknowledgements as the engine reads them: only for what it sent, and
      with the clock of what it sent. */
  function Acks(sent: seq<Envelope>, accepted: seq<Accepted>): (r: seq<Pushed>)
    ensures forall p :: p in r ==>
              exists a, e :: a in accepted && e in sent && a.id == e.id
                             && p == Pushed(e.id, e.clock, a.seqNo)
    decreases |accepted|
  {
    if accepted == [] then []
    else
      var front := Acks(sent, accepted[..|accepted| - 1]);
      var a := accepted[|accepted| - 1];
      var e := Find(sent, a.id);
      if e.None? then front else front + [Pushed(a.id, e.value.clock, a.seqNo)]
  }

  function Find(sent: seq<Envelope>, id: Id): (r: Option<Envelope>)
    ensures r.Some? ==> r.value in sent && r.value.id == id
    ensures r.None? ==> forall e :: e in sent ==> e.id != id
    decreases |sent|
  {
    if sent == [] then None
    else if sent[0].id == id then Some(sent[0])
    else Find(sent[1..], id)
  }

  function OutgoingAll(d: Device, ids: seq<Id>): seq<Envelope>
    requires forall id :: id in ids ==> id in d.rows
  {
    seq(|ids|, i requires 0 <= i < |ids| => EnvelopeOf(d, ids[i]))
  }

  ghost function Do(w: World, act: Action): World
    requires Enabled(w, act)
  {
    var d := w.node.device;
    match act
    case Edits(changes, now) =>
      w.(ledger := EditLedger(w.log, w.ledger, d, changes, now),
         node := w.node.(device := Edit(d, changes, now)))
    case HostKeys(keys, superseded, now) =>
      w.(node := w.node.(device := d.(
        rows := (map id | id in d.rows && Plain(id) :: d.rows[id]) + keys,
        superseded := superseded, clock := Tick(d.clock, now))))
    case Offer(ids) => w.(node := w.node.(flight := Sent(OutgoingAll(d, ids))))
    case ServePush =>
      var reply := Serve(w.log, w.node.flight.envelopes);
      w.(log := reply.log,
         node := w.node.(flight :=
           Answered(Acks(w.node.flight.envelopes, reply.accepted), reply.conflicts, |reply.log|)))
    case Mark =>
      w.(node := w.node.(device := d.(rows := MarkAll(d.rows, w.node.flight.pushed)),
                         flight := Merging(w.node.flight.conflicts, w.node.flight.asOf),
                         whole := false))
    case MergeConflicts(now) =>
      w.(node := w.node.(device := ApplyEnvelopes(d, w.node.flight.conflicts, now).0,
                         flight := Quiet, whole := false))
    case Ask(fits) =>
      w.(node := w.node.(flight := Paged(Pull(w.log, d.cursor, fits), |w.log|)))
    case Take(now) =>
      w.(node := w.node.(device := ApplyEnvelopes(d, w.node.flight.page.envelopes, now).0,
                         flight := Taken(w.node.flight.page, w.node.flight.asOf), whole := false))
    case Advance =>
      var page, asOf := w.node.flight.page, w.node.flight.asOf;
      var moved := w.node.(device := d.(cursor := Max(d.cursor, page.cursor)), flight := Quiet);
      w.(node := if page.hasMore then moved else moved.(seen := asOf, whole := true))
    case PublishManifest(now) =>
      if UpToDate(d) then w
      else w.(ledger := PublishLedger(w.log, w.ledger, d, ListingOf(d), now),
              node := w.node.(device := Publish(d, now)))
    case Rewind => w.(node := w.node.(device := d.(cursor := 0)))
    case Lose => w.(node := w.node.(flight := Quiet))
  }

  // ----- What every step keeps -----

  /** How long the log was when what this device holds in its hands was true. */
  function AsOf(log: Log, flight: Flight): nat {
    if flight.Quiet? || flight.Sent? then |log| else flight.asOf
  }

  predicate PageInv(log: Log, asOf: nat, cursor: nat, page: Page)
    requires asOf <= |log|
  {
    && cursor <= page.cursor <= asOf
    && (forall e :: e in page.envelopes ==> HeldAt(log, asOf, e))
    && (forall i :: cursor <= i < page.cursor && LastIndex(log, asOf, log[i].id) == i ==>
          log[i] in page.envelopes)
    && (!page.hasMore ==>
          forall i :: page.cursor <= i < asOf ==> LastIndex(log, asOf, log[i].id) != i)
  }

  predicate FlightInv(log: Log, ledger: Ledger, d: Device, flight: Flight)
    requires AsOf(log, flight) <= |log|
  {
    match flight
    case Quiet => true
    case Sent(es) => DistinctIds(es) && forall e :: e in es ==> Sendable(log, ledger, d.vault, e)
    case Answered(pushed, conflicts, asOf) =>
      && (forall p :: p in pushed ==> TrueAck(log, asOf, p))
      && (forall e :: e in conflicts ==> HeldAt(log, asOf, e))
    case Merging(conflicts, asOf) => forall e :: e in conflicts ==> HeldAt(log, asOf, e)
    case Paged(page, asOf) => PageInv(log, asOf, d.cursor, page)
    case Taken(page, asOf) =>
      && PageInv(log, asOf, d.cursor, page)
      && forall e :: e in page.envelopes && Plain(e.id) ==> Accounted(d.rows, e)
  }

  predicate NodeInv(log: Log, ledger: Ledger, node: Node) {
    var d := node.device;
    && ClockInv(ledger, d)
    && RowsInv(log, AsOf(log, node.flight), ledger, d.me, d.cursor, node.seen, d.rows)
    && FlightInv(log, ledger, d, node.flight)
    && (node.whole ==> ManifestsBy(ledger, node.seen, d.me, d.rows))
  }

  predicate WorldInv(w: World) {
    && LogInv(w.log, w.ledger, w.node.device.vault)
    && LedgerInv(w.log, w.ledger)
    && NodeInv(w.log, w.ledger, w.node)
  }

  /** What a device holds in its hands stays true while it edits its rows. */
  lemma EditsKeepFlight(log: Log, ledger: Ledger, later: Ledger, d: Device, after: Device, flight: Flight)
    requires AsOf(log, flight) <= |log| && FlightInv(log, ledger, d, flight)
    requires Extends(ledger, later)
    requires after.vault == d.vault && after.cursor == d.cursor
    requires forall i :: 0 <= i < |log| && Plain(log[i].id) && Accounted(d.rows, log[i]) ==>
               Accounted(after.rows, log[i])
    ensures FlightInv(log, later, after, flight)
  {
    if flight.Taken? {
      forall e | e in flight.page.envelopes && Plain(e.id)
        ensures Accounted(after.rows, e)
      {
        assert HeldAt(log, flight.asOf, e);
        assert Accounted(d.rows, log[SeqOf(e) - 1]);
      }
    }
  }

  lemma EditKeepsFlight(w: World, changes: map<Id, Change>, now: u64)
    requires WorldInv(w) && Enabled(w, Edits(changes, now))
    ensures var d := w.node.device;
            FlightInv(w.log, EditLedger(w.log, w.ledger, d, changes, now), Edit(d, changes, now), w.node.flight)
  {
    var d := w.node.device;
    var after := Edit(d, changes, now);
    EditIsNew(w.log, w.ledger, d, changes, now);
    EditRewrites(w.log, w.ledger, d, changes, now);
    forall i | 0 <= i < |w.log| && Plain(w.log[i].id) && Accounted(d.rows, w.log[i])
      ensures Accounted(after.rows, w.log[i])
    {
      RewritesKeepAccounted(w.log, d.rows, after.rows, i);
    }
    EditsKeepFlight(w.log, w.ledger, EditLedger(w.log, w.ledger, d, changes, now), d, after, w.node.flight);
  }

  lemma EditKeepsManifestsBy(log: Log, ledger: Ledger, n: nat, d: Device, changes: map<Id, Change>, now: u64)
    requires ManifestsBy(ledger, n, d.me, d.rows) && ClockInv(ledger, d) && Editable(ledger, d, changes, now)
    ensures ManifestsBy(EditLedger(log, ledger, d, changes, now), n, d.me, Edit(d, changes, now).rows)
  {
    hide EditLedger, ClockInv, Less;
    var later, rows := EditLedger(log, ledger, d, changes, now), Edit(d, changes, now).rows;
    EditIsNew(log, ledger, d, changes, now);
    forall id | id in rows && id.kind.Manifest? && id != ManifestId(d.me)
      ensures Stamp(id, rows[id].clock) in later && later[Stamp(id, rows[id].clock)].at <= n
    {
      assert id !in changes && id in d.rows && rows[id] == d.rows[id];
    }
  }

  lemma EditsKeep(w: World, changes: map<Id, Change>, now: u64)
    requires WorldInv(w) && Enabled(w, Edits(changes, now))
    ensures WorldInv(Do(w, Edits(changes, now)))
  {
    hide LogInv, LedgerInv, RowsInv, FlightInv, ManifestsBy, ClockInv, EditLedger, Extends, Less;
    var d := w.node.device;
    var later := EditLedger(w.log, w.ledger, d, changes, now);
    EditIsNew(w.log, w.ledger, d, changes, now);
    EditKeepsLedgerInv(w.log, w.ledger, d, changes, now);
    LongerLedgerKeepsLogInv(w.log, w.ledger, later, d.vault);
    EditKeepsFlight(w, changes, now);
    if w.node.whole { EditKeepsManifestsBy(w.log, w.ledger, w.node.seen, d, changes, now); }
    EditKeepsRowsInv(w.log, AsOf(w.log, w.node.flight), w.ledger, d.cursor, w.node.seen, d, changes, now);
  }

  /** The same rows, host keys aside. */
  predicate SamePlain(a: map<Id, Row>, b: map<Id, Row>) {
    && (forall id :: id in a && Plain(id) ==> id in b && b[id] == a[id])
    && (forall id :: id in b && Plain(id) ==> id in a)
  }

  lemma HostKeysKeep(w: World, keys: map<Id, Row>, superseded: map<Id, Hlc>, now: u64)
    requires WorldInv(w) && Enabled(w, HostKeys(keys, superseded, now))
    ensures WorldInv(Do(w, HostKeys(keys, superseded, now)))
  {
    var d, flight := w.node.device, w.node.flight;
    var after := Do(w, HostKeys(keys, superseded, now)).node.device;
    TickIsMax(d.clock, now);
    assert SamePlain(d.rows, after.rows);
    SamePlainKeeps(w.log, AsOf(w.log, flight), w.ledger, d.me, d.cursor, w.node.seen, d.rows, after.rows);
    EditsKeepFlight(w.log, w.ledger, w.ledger, d, after, flight);
  }

  /** Nothing here looks at host keys. */
  lemma SamePlainKeeps(log: Log, n: nat, ledger: Ledger, me: u32, cursor: nat, seen: nat,
                       a: map<Id, Row>, b: map<Id, Row>)
    requires RowsInv(log, n, ledger, me, cursor, seen, a)
    requires SamePlain(a, b)
    requires forall s :: s in ledger ==> Plain(s.id)
    ensures RowsInv(log, n, ledger, me, cursor, seen, b)
    ensures forall i :: 0 <= i < |log| && Plain(log[i].id) && Accounted(a, log[i]) ==> Accounted(b, log[i])
  {
    GrowthKeepsOwnManifests(ledger, me, a, b);
    GrowthKeepsAuthored(ledger, me, a, b);
  }

  lemma OfferKeeps(w: World, ids: seq<Id>)
    requires WorldInv(w) && Enabled(w, Offer(ids))
    ensures WorldInv(Do(w, Offer(ids)))
  {
    var d := w.node.device;
    forall k | 0 <= k < |ids|
      ensures Sendable(w.log, w.ledger, d.vault, EnvelopeOf(d, ids[k]))
    {
      DirtyIsSendable(w.log, w.ledger, d, ids[k]);
    }
  }

  lemma DirtyIsSendable(log: Log, ledger: Ledger, d: Device, id: Id)
    requires LedgerInv(log, ledger) && Backed(ledger, d.rows) && Based(log, |log|, d.rows)
    requires id in d.rows && d.rows[id].dirty && HasTable(id.kind)
    ensures Sendable(log, ledger, d.vault, EnvelopeOf(d, id))
  {
    if Plain(id) {
      assert WrittenRow(ledger, id, d.rows[id]);
      assert Stamp(id, d.rows[id].clock) in ledger;
    }
  }

  lemma AnswerIsTrue(log: Log, es: seq<Envelope>)
    requires Numbered(log) && DistinctIds(es)
    ensures var reply := Serve(log, es);
            && (forall p :: p in Acks(es, reply.accepted) ==> TrueAck(reply.log, |reply.log|, p))
            && (forall e :: e in reply.conflicts ==> HeldAt(reply.log, |reply.log|, e))
  {
    hide Serve, Acks;
    var reply := Serve(log, es);
    ServeSpec(log, es);
    forall p | p in Acks(es, reply.accepted)
      ensures TrueAck(reply.log, |reply.log|, p)
    {
      var a, e :| a in reply.accepted && e in es && a.id == e.id && p == Pushed(e.id, e.clock, a.seqNo);
      assert Genuine(reply.log, es, a);
    }
  }

  lemma ServeKeeps(w: World)
    requires WorldInv(w) && Enabled(w, ServePush)
    ensures WorldInv(Do(w, ServePush))
    ensures w.log <= Do(w, ServePush).log
  {
    var d, es := w.node.device, w.node.flight.envelopes;
    var log := Serve(w.log, es).log;
    ServeKeepsLogInv(w.log, w.ledger, d.vault, es);
    LongerLogKeepsLedgerInv(w.log, log, w.ledger);
    LongerLogKeepsRowsInv(w.log, log, w.ledger, d.vault, |w.log|, d.me, d.cursor, w.node.seen, d.rows);
    LaterReckoningKeepsRowsInv(log, w.ledger, |w.log|, |log|, d.me, d.cursor, w.node.seen, d.rows);
    AnswerIsTrue(w.log, es);
  }

  lemma MarkKeeps(w: World)
    requires WorldInv(w) && Enabled(w, Mark)
    ensures WorldInv(Do(w, Mark))
  {
    var d := w.node.device;
    MarkKeepsRowsInv(w.log, w.ledger, d.vault, w.node.flight.asOf, d.me, d.cursor, w.node.seen,
                     d.rows, w.node.flight.pushed);
  }

  /** Applying a batch, clock and all. */
  lemma ApplyKeeps(log: Log, n: nat, ledger: Ledger, cursor: nat, seen: nat, d: Device,
                   es: seq<Envelope>, now: u64)
    requires LogInv(log, ledger, d.vault) && LedgerInv(log, ledger) && ClockInv(ledger, d)
    requires RowsInv(log, n, ledger, d.me, cursor, seen, d.rows)
    requires forall e :: e in es ==> HeldAt(log, n, e)
    requires Roomy(d.clock, now)
    ensures var after := ApplyEnvelopes(d, es, now).0;
            && after == d.(rows := after.rows, superseded := after.superseded, clock := after.clock)
            && ClockInv(ledger, after)
            && RowsInv(log, n, ledger, d.me, cursor, seen, after.rows)
            && (forall e :: e in es && Plain(e.id) ==> Accounted(after.rows, e))
  {
    if es != [] {
      var start := Batch(d, NOTHING, None);
      InOrderHasAll(es);
      BatchKeepsRowsInv(log, ledger, n, d.me, cursor, seen, start, InOrder(es));
      ApplyAllFrame(start, InOrder(es));
      var b := ApplyAll(start, InOrder(es));
      if b.newest.Some? { MergeMovesOn(d.clock, b.newest.value, now); }
    }
  }

  lemma InOrderHasAll(es: seq<Envelope>)
    ensures forall e :: e in es <==> e in InOrder(es)
  {
    assert forall e :: e in es <==> e in multiset(es);
    assert forall e :: e in InOrder(es) <==> e in multiset(InOrder(es));
  }

  lemma MergeMovesOn(clock: Hlc, remote: Hlc, now: u64)
    requires Roomy(clock, now)
    ensures Less(clock, Merge(clock, remote, now)) && Merge(clock, remote, now).device == clock.device
  {
    assert Clamped(remote, now) < U64_MAX * U32 + (U32 - 1) by {
      assert Min(remote.wall, now + MAX_DRIFT_MS) * U32 <= (U64_MAX - 1) * U32;
    }
    MergeIsMax(clock, remote, now);
    LessIsTicks(clock, Merge(clock, remote, now));
  }

  lemma MergeConflictsKeep(w: World, now: u64)
    requires WorldInv(w) && Enabled(w, MergeConflicts(now))
    ensures WorldInv(Do(w, MergeConflicts(now)))
  {
    hide LogInv, LedgerInv, RowsInv, ClockInv;
    var d, n := w.node.device, w.node.flight.asOf;
    ApplyKeeps(w.log, n, w.ledger, d.cursor, w.node.seen, d, w.node.flight.conflicts, now);
    LaterReckoningKeepsRowsInv(w.log, w.ledger, n, |w.log|, d.me, d.cursor, w.node.seen,
                               Do(w, MergeConflicts(now)).node.device.rows);
  }

  lemma PageIsRight(log: Log, cursor: nat, fits: nat)
    requires Numbered(log) && cursor <= |log|
    ensures PageInv(log, |log|, cursor, Pull(log, cursor, fits))
  {
    PageIsComplete(log, cursor, fits);
    var page := Pull(log, cursor, fits);
    forall i | cursor <= i < |log| && Last(log, log[i].id) == i
      ensures i < page.cursor ==> log[i] in page.envelopes
      ensures !page.hasMore ==> i < page.cursor
    {
      assert Held(log, log[i]);
    }
  }

  lemma AskKeeps(w: World, fits: nat)
    requires WorldInv(w) && Enabled(w, Ask(fits))
    ensures WorldInv(Do(w, Ask(fits)))
  {
    hide PageInv;
    PageIsRight(w.log, w.node.device.cursor, fits);
  }

  lemma TakeKeeps(w: World, now: u64)
    requires WorldInv(w) && Enabled(w, Take(now))
    ensures WorldInv(Do(w, Take(now)))
  {
    hide LogInv, LedgerInv, RowsInv, ClockInv;
    var d, n := w.node.device, w.node.flight.asOf;
    ApplyKeeps(w.log, n, w.ledger, d.cursor, w.node.seen, d, w.node.flight.page.envelopes, now);
  }

  lemma AdvanceKeeps(w: World)
    requires WorldInv(w) && Enabled(w, Advance)
    ensures WorldInv(Do(w, Advance))
  {
    var d, n, page := w.node.device, w.node.flight.asOf, w.node.flight.page;
    var after := Do(w, Advance).node;
    forall i | 0 <= i < page.cursor && Plain(w.log[i].id) && LastIndex(w.log, n, w.log[i].id) == i
      ensures Accounted(d.rows, w.log[i])
    {
      if i >= d.cursor { assert w.log[i] in page.envelopes; }
    }
    if !page.hasMore {
      forall i | 0 <= i < n && Plain(w.log[i].id) && LastIndex(w.log, n, w.log[i].id) == i
        ensures Settled(d.rows, w.log[i])
      {
        assert i < page.cursor;
        assert Accounted(d.rows, w.log[i]);
      }
    }
    assert RowsInv(w.log, n, w.ledger, d.me, page.cursor, after.seen, d.rows);
    LaterReckoningKeepsRowsInv(w.log, w.ledger, n, |w.log|, d.me, page.cursor, after.seen, d.rows);
  }

  lemma PublishKeeps(w: World, now: u64)
    requires WorldInv(w) && Enabled(w, PublishManifest(now))
    ensures WorldInv(Do(w, PublishManifest(now)))
  {
    var d := w.node.device;
    if !UpToDate(d) {
      var listing := ListingOf(d);
      ListingIsOwn(d);
      PublishIsNew(w.log, w.ledger, d, listing, now);
      PublishKeepsLedgerInv(w.log, w.ledger, d, listing, now);
      PublishKeepsRowsInv(w.log, w.ledger, d.cursor, w.node.seen, d, listing, now);
      LongerLedgerKeepsLogInv(w.log, w.ledger, PublishLedger(w.log, w.ledger, d, listing, now), d.vault);
    }
  }

  lemma LoseKeeps(w: World)
    requires WorldInv(w)
    ensures WorldInv(Do(w, Lose))
  {
    var d := w.node.device;
    LaterReckoningKeepsRowsInv(w.log, w.ledger, AsOf(w.log, w.node.flight), |w.log|, d.me, d.cursor,
                               w.node.seen, d.rows);
  }

  /** Every step of a device keeps everything. */
  lemma StepKeeps(w: World, act: Action)
    requires WorldInv(w) && Enabled(w, act)
    ensures WorldInv(Do(w, act))
  {
    match act
    case Edits(changes, now) => EditsKeep(w, changes, now);
    case HostKeys(keys, superseded, now) => HostKeysKeep(w, keys, superseded, now);
    case Offer(ids) => OfferKeeps(w, ids);
    case ServePush => ServeKeeps(w);
    case Mark => MarkKeeps(w);
    case MergeConflicts(now) => MergeConflictsKeep(w, now);
    case Ask(fits) => AskKeeps(w, fits);
    case Take(now) => TakeKeeps(w, now);
    case Advance => AdvanceKeeps(w);
    case PublishManifest(now) => PublishKeeps(w, now);
    case Rewind =>
    case Lose => LoseKeeps(w);
  }

  // ----- All devices together -----

  datatype Net = Net(vault: nat, log: Log, ledger: Ledger, nodes: map<u32, Node>)

  /** One step of one device. */
  datatype Step = Step(device: u32, act: Action)

  function WorldOf(net: Net, me: u32): World
    requires me in net.nodes
  {
    World(net.log, net.ledger, net.nodes[me])
  }

  ghost predicate CanStep(net: Net, step: Step) {
    step.device in net.nodes && Enabled(WorldOf(net, step.device), step.act)
  }

  ghost function Next(net: Net, step: Step): Net
    requires CanStep(net, step)
  {
    var w := Do(WorldOf(net, step.device), step.act);
    net.(log := w.log, ledger := w.ledger, nodes := net.nodes[step.device := w.node])
  }

  predicate Inv(net: Net) {
    && LogInv(net.log, net.ledger, net.vault)
    && LedgerInv(net.log, net.ledger)
    && (forall m :: m in net.nodes ==>
          && net.nodes[m].device.me == m && net.nodes[m].device.vault == net.vault
          && NodeInv(net.log, net.ledger, net.nodes[m]))
    && (forall s :: s in net.ledger ==> s.clock.device in net.nodes)
  }

  /** What one device's step does to the log and the ledger. */
  predicate Publishes(a: World, b: World) {
    && a.log <= b.log
    && Extends(a.ledger, b.ledger)
    && b.node.device.me == a.node.device.me && b.node.device.vault == a.node.device.vault
    && forall s :: s in b.ledger && s !in a.ledger ==>
         && s.clock.device == a.node.device.me
         && (s.id.kind.Manifest? ==> s.id == ManifestId(a.node.device.me))
  }

  lemma StepPublishes(w: World, act: Action)
    requires WorldInv(w) && Enabled(w, act)
    ensures Publishes(w, Do(w, act))
  {
    var d := w.node.device;
    match act
    case Edits(changes, now) =>
      EditIsNew(w.log, w.ledger, d, changes, now);
      TickIsMax(d.clock, now);
    case ServePush => ServeKeeps(w);
    case PublishManifest(now) =>
      if !UpToDate(d) { PublishIsNew(w.log, w.ledger, d, ListingOf(d), now); }
    case MergeConflicts(now) =>
      ApplyKeeps(w.log, w.node.flight.asOf, w.ledger, d.cursor, w.node.seen, d, w.node.flight.conflicts, now);
    case Take(now) =>
      ApplyKeeps(w.log, w.node.flight.asOf, w.ledger, d.cursor, w.node.seen, d,
                 w.node.flight.page.envelopes, now);
    case _ =>
  }

  lemma LongerLogKeepsFlight(log: Log, later: Log, ledger: Ledger, d: Device, flight: Flight)
    requires log <= later
    requires AsOf(log, flight) <= |log| && FlightInv(log, ledger, d, flight)
    ensures FlightInv(later, ledger, d, flight)
  {
    forall n: nat, id | n <= |log|
      ensures LastIndex(later, n, id) == LastIndex(log, n, id)
    {
      LastIndexIgnoresLater(log, later, n, id);
    }
  }

  /** A device that did nothing keeps what it had, whatever another one did. */
  lemma BystanderKeeps(a: World, b: World, node: Node)
    requires NodeInv(a.log, a.ledger, node) && Publishes(a, b)
    requires LogInv(b.log, b.ledger, a.node.device.vault)
    requires node.device.me != a.node.device.me
    ensures NodeInv(b.log, b.ledger, node)
  {
    var d, n := node.device, AsOf(a.log, node.flight);
    assert FlightInv(a.log, b.ledger, d, node.flight);
    LongerLogKeepsFlight(a.log, b.log, b.ledger, d, node.flight);
    OthersKeepRowsInv(a.log, a.ledger, b.ledger, n, d.me, d.cursor, node.seen, d.rows);
    LongerLogKeepsRowsInv(a.log, b.log, b.ledger, a.node.device.vault, n, d.me, d.cursor, node.seen, d.rows);
    LaterReckoningKeepsRowsInv(b.log, b.ledger, n, AsOf(b.log, node.flight), d.me, d.cursor, node.seen, d.rows);
    assert ClockInv(b.ledger, d);
  }

  lemma JoinKeepsInv(net: Net, me: u32, b: World)
    requires Inv(net) && me in net.nodes
    requires WorldInv(b) && Publishes(WorldOf(net, me), b)
    ensures Inv(net.(log := b.log, ledger := b.ledger, nodes := net.nodes[me := b.node]))
  {
    hide LogInv, LedgerInv, NodeInv;
    forall m | m in net.nodes && m != me
      ensures NodeInv(b.log, b.ledger, net.nodes[m])
    {
      BystanderKeeps(WorldOf(net, me), b, net.nodes[m]);
    }
  }

  lemma NextKeepsInv(net: Net, step: Step)
    requires Inv(net) && CanStep(net, step)
    ensures Inv(Next(net, step))
  {
    var w := WorldOf(net, step.device);
    StepKeeps(w, step.act);
    StepPublishes(w, step.act);
    JoinKeepsInv(net, step.device, Do(w, step.act));
  }

  /** A run, step by step. */
  ghost predicate CanRun(net: Net, steps: seq<Step>)
    decreases |steps|
  {
    steps == [] || (CanStep(net, steps[0]) && CanRun(Next(net, steps[0]), steps[1..]))
  }

  ghost function Reached(net: Net, steps: seq<Step>): Net
    requires CanRun(net, steps)
    decreases |steps|
  {
    if steps == [] then net else Reached(Next(net, steps[0]), steps[1..])
  }

  /** Devices that have nothing yet, and a server that has nothing. */
  predicate Fresh(net: Net) {
    && net.log == [] && net.ledger == map[]
    && forall m :: m in net.nodes ==>
         && var node := net.nodes[m];
         && node.flight.Quiet? && node.seen == 0 && !node.whole
         && node.device.me == m && node.device.vault == net.vault
         && node.device.clock.device == m
         && node.device.rows == map[] && node.device.cursor == 0
  }

  lemma {:induction false} RunKeepsInv(net: Net, steps: seq<Step>)
    requires Inv(net) && CanRun(net, steps)
    ensures Inv(Reached(net, steps))
    decreases |steps|
  {
    if steps != [] {
      NextKeepsInv(net, steps[0]);
      RunKeepsInv(Next(net, steps[0]), steps[1..]);
    }
  }

  lemma FreshIsInv(net: Net)
    requires Fresh(net)
    ensures Inv(net)
  {
  }
}
