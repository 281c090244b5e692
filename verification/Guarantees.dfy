/** What the sync protocol promises, over every run. */
module Guarantees {
  import opened Basics
  import opened Clock
  import opened Versions
  import opened Records
  import opened Device
  import opened Server
  import opened Protocol
  import opened Net

  /** Some run leads here from devices and a server that have nothing. */
  ghost predicate Reachable(net: Net) {
    exists start, steps :: Fresh(start) && CanRun(start, steps) && Reached(start, steps) == net
  }

  lemma ReachableIsInv(net: Net)
    requires Reachable(net)
    ensures Inv(net)
  {
    var start, steps :| Fresh(start) && CanRun(start, steps) && Reached(start, steps) == net;
    FreshIsInv(start);
    RunKeepsInv(start, steps);
  }

  // ----- Nothing written is lost -----

  /** The version is waiting on the device that wrote it, in that row or a newer
      one, or the server took it or a later one. */
  predicate Safe(net: Net, s: Stamp)
    requires s in net.ledger && s.clock.device in net.nodes
  {
    var version := StampVersion(s, net.ledger[s]);
    var rows := net.nodes[s.clock.device].device.rows;
    || (s.id in rows && rows[s.id].dirty && AtMost(version, RowVersion(rows[s.id])))
    || ServerHad(net.log, |net.log|, s.id, version)
  }

  lemma WrittenRowIsSafe(log: Log, ledger: Ledger, vault: nat, rows: map<Id, Row>, s: Stamp)
    requires LogInv(log, ledger, vault) && Plain(s.id) && s in ledger
    requires Confirmed(log, rows) && s.clock != ZERO
    requires s.id in rows && AtMost(StampVersion(s, ledger[s]), RowVersion(rows[s.id]))
    ensures rows[s.id].dirty || ServerHad(log, |log|, s.id, StampVersion(s, ledger[s]))
  {
    if !rows[s.id].dirty {
      TakenIsCovered(log, ledger, vault, |log|, rows[s.id].serverSeq - 1, StampVersion(s, ledger[s]));
    }
  }

  lemma WrittenIsSafe(net: Net, s: Stamp)
    requires Inv(net) && s in net.ledger
    ensures s.clock.device in net.nodes && Safe(net, s)
  {
    var m := s.clock.device;
    assert Authored(net.ledger, m, net.nodes[m].device.rows);
    WrittenRowIsSafe(net.log, net.ledger, net.vault, net.nodes[m].device.rows, s);
  }

  /** No local edit is lost, in any interleaving of edits, pushes, lost answers,
      conflicts and pulls. */
  lemma NothingWrittenIsLost(net: Net, s: Stamp)
    requires Reachable(net) && s in net.ledger
    ensures s.clock.device in net.nodes && Safe(net, s)
  {
    ReachableIsInv(net);
    WrittenIsSafe(net, s);
  }

  lemma {:induction false} BatchGrows(log: Log, ledger: Ledger, n: nat, b: Batch, es: seq<Envelope>)
    requires LogInv(log, ledger, b.device.vault) && LedgerInv(log, ledger) && n <= |log|
    requires forall e :: e in es ==> HeldAt(log, n, e)
    ensures Grows(b.device.rows, ApplyAll(b, es).device.rows)
    decreases |es|
  {
    hide LogInv, LedgerInv, Takes, Readable;
    if es != [] {
      var front, e := es[..|es| - 1], es[|es| - 1];
      assert forall f :: f in front ==> f in es;
      assert HeldAt(log, n, e);
      BatchGrows(log, ledger, n, b, front);
      var d := ApplyAll(b, front).device;
      ApplyAllFrame(b, front);
      LogIsReadable(log, ledger, d, SeqOf(e) - 1);
      ApplyOneTakes(d, e);
      TakeGrows(d.rows, ApplyOne(d, e).device.rows, e);
    }
  }

  lemma ApplyGrows(log: Log, ledger: Ledger, n: nat, d: Device, es: seq<Envelope>, now: u64)
    requires LogInv(log, ledger, d.vault) && LedgerInv(log, ledger) && n <= |log|
    requires forall e :: e in es ==> HeldAt(log, n, e)
    ensures Grows(d.rows, ApplyEnvelopes(d, es, now).0.rows)
  {
    if es != [] {
      InOrderHasAll(es);
      BatchGrows(log, ledger, n, Batch(d, NOTHING, None), InOrder(es));
    }
  }

  lemma {:induction false} MarkGrows(rows: map<Id, Row>, pushed: seq<Pushed>)
    ensures Grows(rows, MarkAll(rows, pushed))
    decreases |pushed|
  {
    if pushed != [] {
      MarkGrows(rows, pushed[..|pushed| - 1]);
    }
  }

  /** No step ever loses a row or makes one older. */
  lemma StepGrows(w: World, act: Action)
    requires WorldInv(w) && Enabled(w, act)
    ensures Grows(w.node.device.rows, Do(w, act).node.device.rows)
  {
    var d := w.node.device;
    match act
    case Edits(changes, now) => EditGrows(w.ledger, d, changes, now);
    case Mark => MarkGrows(d.rows, w.node.flight.pushed);
    case MergeConflicts(now) =>
      ApplyGrows(w.log, w.ledger, w.node.flight.asOf, d, w.node.flight.conflicts, now);
    case Take(now) =>
      ApplyGrows(w.log, w.ledger, w.node.flight.asOf, d, w.node.flight.page.envelopes, now);
    case PublishManifest(now) =>
      if !UpToDate(d) { PublishGrows(w.log, w.ledger, d, ListingOf(d), now); }
    case _ =>
  }

  /** What may become of a row that is waiting to be pushed: it still waits, or
      the server took exactly that version, or the row is now a newer one. */
  predicate StillWaits(was: Row, log: Log, rows: map<Id, Row>, id: Id) {
    && id in rows
    && (|| (RowVersion(rows[id]) == RowVersion(was)
            && (rows[id].dirty || (&& 0 < rows[id].serverSeq <= |log|
                                   && log[rows[id].serverSeq - 1].id == id
                                   && EnvelopeVersion(log[rows[id].serverSeq - 1]) == RowVersion(was))))
        || Below(RowVersion(was), RowVersion(rows[id])))
  }

  lemma GrownRowStillWaits(was: Row, log: Log, rows: map<Id, Row>, id: Id)
    requires Plain(id) && was.clock != ZERO
    requires Confirmed(log, rows)
    requires id in rows && AtMost(RowVersion(was), RowVersion(rows[id]))
    ensures StillWaits(was, log, rows, id)
  {
  }

  lemma WaitingRowKeepsWaiting(w: World, act: Action, id: Id)
    requires WorldInv(w) && Enabled(w, act)
    requires Plain(id) && id in w.node.device.rows && w.node.device.rows[id].dirty
    ensures StillWaits(w.node.device.rows[id], Do(w, act).log, Do(w, act).node.device.rows, id)
  {
    assert w.node.device.rows[id].clock != ZERO by {
      assert Backed(w.ledger, w.node.device.rows);
      assert Stamp(id, w.node.device.rows[id].clock) in w.ledger;
    }
    StepGrows(w, act);
    assert Confirmed(Do(w, act).log, Do(w, act).node.device.rows) by {
      StepKeeps(w, act);
    }
    GrownRowStillWaits(w.node.device.rows[id], Do(w, act).log, Do(w, act).node.device.rows, id);
  }

  // ----- Devices at rest agree -----

  /** Nothing is in flight, the record does not wait to be pushed, and the cursor
      is past the version the server holds. */
  predicate AtRest(log: Log, node: Node, id: Id) {
    && node.flight.Quiet?
    && (id in node.device.rows ==> !node.device.rows[id].dirty)
    && Last(log, id) < node.device.cursor
  }

  /** The device has exactly this record, or it is a delete of one it never had. */
  predicate Agrees(rows: map<Id, Row>, e: Envelope) {
    || (&& e.id in rows && RowVersion(rows[e.id]) == EnvelopeVersion(e)
        && (!e.deleted ==> e.blob.Sealed? && rows[e.id].payload == e.blob.payload))
    || (e.deleted && (e.id !in rows || rows[e.id] == STUB))
  }

  lemma RestingRowsAgree(log: Log, ledger: Ledger, vault: nat, cursor: nat, rows: map<Id, Row>, id: Id)
    requires LogInv(log, ledger, vault) && Plain(id) && Last(log, id) >= 0
    requires Backed(ledger, rows) && Confirmed(log, rows)
    requires Accounted(rows, log[Last(log, id)])
    requires id in rows ==> !rows[id].dirty
    ensures Agrees(rows, log[Last(log, id)])
  {
    if id in rows && rows[id] != STUB {
      assert rows[id].serverSeq - 1 <= Last(log, id);
      assert WrittenEnvelope(ledger, log[Last(log, id)]);
    }
  }

  lemma RestIsServer(net: Net, m: u32, id: Id)
    requires Inv(net) && m in net.nodes && Plain(id)
    requires AtRest(net.log, net.nodes[m], id)
    ensures var rows, i := net.nodes[m].device.rows, Last(net.log, id);
            if i >= 0 then Agrees(rows, net.log[i]) else id !in rows || rows[id] == STUB
  {
    var node := net.nodes[m];
    var rows, i := node.device.rows, Last(net.log, id);
    assert Backed(net.ledger, rows) && Confirmed(net.log, rows);
    if i >= 0 {
      assert CaughtUp(net.log, |net.log|, node.device.cursor, rows);
      assert Accounted(rows, net.log[i]);
      RestingRowsAgree(net.log, net.ledger, net.vault, node.device.cursor, rows, id);
    }
  }

  /** All devices have the same: the version the server holds, which is the
      greatest any device ever wrote, with the same fields, or a delete where a
      device never had the record. A record nobody wrote is nowhere. */
  predicate Converged(net: Net, id: Id) {
    var i := Last(net.log, id);
    if i < 0 then
      && (forall s :: s in net.ledger ==> s.id != id)
      && (forall m :: m in net.nodes ==>
            id !in net.nodes[m].device.rows || net.nodes[m].device.rows[id] == STUB)
    else
      && WrittenEnvelope(net.ledger, net.log[i])
      && (forall s :: s in net.ledger && s.id == id ==>
            AtMost(StampVersion(s, net.ledger[s]), EnvelopeVersion(net.log[i])))
      && (forall m :: m in net.nodes ==> Agrees(net.nodes[m].device.rows, net.log[i]))
  }

  lemma RestingNetConverged(net: Net, id: Id)
    requires Inv(net) && Plain(id)
    requires forall m :: m in net.nodes ==> AtRest(net.log, net.nodes[m], id)
    ensures Converged(net, id)
  {
    forall m | m in net.nodes
      ensures var rows, i := net.nodes[m].device.rows, Last(net.log, id);
              if i >= 0 then Agrees(rows, net.log[i]) else id !in rows || rows[id] == STUB
    {
      RestIsServer(net, m, id);
    }
    forall s | s in net.ledger && s.id == id
      ensures ServerHad(net.log, |net.log|, id, StampVersion(s, net.ledger[s]))
    {
      WrittenIsSafe(net, s);
      assert AtRest(net.log, net.nodes[s.clock.device], id);
    }
  }

  /** Whatever happened before: once a record rests on every device, all of them
      agree on it. */
  lemma Convergence(net: Net, id: Id)
    requires Reachable(net) && Plain(id)
    requires forall m :: m in net.nodes ==> AtRest(net.log, net.nodes[m], id)
    ensures Converged(net, id)
  {
    ReachableIsInv(net);
    RestingNetConverged(net, id);
  }

  /** One version of a record has one content, wherever it is. */
  lemma OneContentPerVersion(net: Net, m: u32, k: u32, id: Id)
    requires Reachable(net) && Plain(id)
    requires m in net.nodes && k in net.nodes
    requires id in net.nodes[m].device.rows && id in net.nodes[k].device.rows
    ensures var a, b := net.nodes[m].device.rows[id], net.nodes[k].device.rows[id];
            a.clock == b.clock ==> a.deleted == b.deleted && (!a.deleted ==> a.payload == b.payload)
  {
    hide Reachable, LogInv, Backed, LedgerInv;
    ReachableIsInv(net);
    if net.nodes[m].device.rows[id].clock == net.nodes[k].device.rows[id].clock {
      BackedRowsAgree(net.log, net.ledger, net.nodes[m].device.rows, net.nodes[k].device.rows, id);
    }
  }

  lemma BackedRowsAgree(log: Log, ledger: Ledger, a: map<Id, Row>, b: map<Id, Row>, id: Id)
    requires LedgerInv(log, ledger) && Backed(ledger, a) && Backed(ledger, b)
    requires Plain(id) && id in a && id in b && a[id].clock == b[id].clock
    ensures a[id].deleted == b[id].deleted && (!a[id].deleted ==> a[id].payload == b[id].payload)
  {
    assert a[id] != STUB ==> Stamp(id, a[id].clock) in ledger;
    assert b[id] != STUB ==> Stamp(id, b[id].clock) in ledger;
  }

  // ----- The check raises no false alarm, but for one case -----

  lemma OwnEntryIsFine(d: Device, ledger: Ledger, s: Stamp, entry: Entry)
    requires OwnManifests(ledger, d.me, d.rows)
    requires s in ledger && s.id == ManifestId(d.me) && ledger[s].payload.Listing?
    requires entry in ledger[s].payload.entries && Plain(entry.id)
    ensures CheckEntry(d.rows, d.superseded, entry).None?
  {
    assert entry.id in d.rows && AtMost(EntryVersion(entry), RowVersion(d.rows[entry.id]));
  }

  lemma ForeignEntryIsSettled(log: Log, ledger: Ledger, vault: nat, seen: nat, rows: map<Id, Row>,
                              s: Stamp, entry: Entry)
    requires LogInv(log, ledger, vault) && Seen(log, seen, rows)
    requires s in ledger && ledger[s].payload.Listing? && ledger[s].at <= seen
    requires Backs(log, ledger[s].at, ledger[s].payload.entries)
    requires entry in ledger[s].payload.entries && Plain(entry.id)
    ensures var i := LastIndex(log, seen, entry.id);
            i >= 0 && Settled(rows, log[i]) && AtMost(EntryVersion(entry), EnvelopeVersion(log[i]))
  {
    var at := ledger[s].at;
    assert ServerHad(log, at, entry.id, EntryVersion(entry));
    TakenIsCovered(log, ledger, vault, seen, LastIndex(log, at, entry.id), EntryVersion(entry));
  }

  lemma FlaggedIsUnseenDelete(rows: map<Id, Row>, superseded: map<Id, Hlc>, e: Envelope, entry: Entry)
    requires Settled(rows, e) && e.id == entry.id
    requires AtMost(EntryVersion(entry), EnvelopeVersion(e))
    requires CheckEntry(rows, superseded, entry).Some?
    ensures e.deleted && (e.id !in rows || rows[e.id].serverSeq == 0)
  {
  }

  /** What a node's manifests are worth, by where they came from. */
  lemma ManifestIsWritten(w: World, manifest: Id)
    requires WorldInv(w) && w.node.whole
    requires manifest.kind.Manifest? && manifest in w.node.device.rows
    requires !w.node.device.rows[manifest].deleted && w.node.device.rows[manifest].payload.Listing?
    ensures var row := w.node.device.rows[manifest];
            var s := Stamp(manifest, row.clock);
            && s in w.ledger && w.ledger[s].payload == row.payload
            && (manifest != ManifestId(w.node.device.me) ==> w.ledger[s].at <= w.node.seen)
            && w.ledger[s].at <= |w.log| && Backs(w.log, w.ledger[s].at, row.payload.entries)
  {
    assert Backed(w.ledger, w.node.device.rows);
    assert ManifestsBy(w.ledger, w.node.seen, w.node.device.me, w.node.device.rows);
  }

  /** After a pull that reached the end, an entry of any manifest held here is
      flagged only if this device never had the record and the server, at that
      time, held a delete of it. */
  lemma AlarmMeansUnseenDelete(w: World, manifest: Id, entry: Entry)
    requires WorldInv(w) && w.node.whole
    requires manifest.kind.Manifest? && manifest in w.node.device.rows
    requires var row := w.node.device.rows[manifest];
             !row.deleted && row.payload.Listing? && entry in row.payload.entries
    requires Plain(entry.id)
    requires CheckEntry(w.node.device.rows, w.node.device.superseded, entry).Some?
    ensures w.node.seen <= |w.log|
    ensures var rows, i := w.node.device.rows, LastIndex(w.log, w.node.seen, entry.id);
            && manifest != ManifestId(w.node.device.me)
            && i >= 0 && w.log[i].deleted
            && (entry.id !in rows || rows[entry.id].serverSeq == 0)
  {
    var d, seen := w.node.device, w.node.seen;
    var s := Stamp(manifest, d.rows[manifest].clock);
    ManifestIsWritten(w, manifest);
    assert Seen(w.log, seen, d.rows) && OwnManifests(w.ledger, d.me, d.rows);
    if manifest == ManifestId(d.me) {
      OwnEntryIsFine(d, w.ledger, s, entry);
    } else {
      ForeignEntryIsSettled(w.log, w.ledger, d.vault, seen, d.rows, s, entry);
      FlaggedIsUnseenDelete(d.rows, d.superseded, w.log[LastIndex(w.log, seen, entry.id)], entry);
    }
  }

  /** When exactly that is: the server holds a delete this device passed over,
      and the row here, if there is one after all, is older than the entry. */
  lemma AlarmExactlyWhen(w: World, manifest: Id, entry: Entry)
    requires WorldInv(w) && w.node.whole
    requires manifest.kind.Manifest? && manifest in w.node.device.rows
    requires var row := w.node.device.rows[manifest];
             !row.deleted && row.payload.Listing? && entry in row.payload.entries
    requires Plain(entry.id) && Synced(entry.id.kind) && entry.id !in w.node.device.superseded
    ensures w.node.seen <= |w.log|
    ensures var rows, i := w.node.device.rows, LastIndex(w.log, w.node.seen, entry.id);
            CheckEntry(rows, w.node.device.superseded, entry).Some? <==>
              && i >= 0 && w.log[i].deleted
              && if entry.id in rows then
                   && rows[entry.id].serverSeq == 0 && !rows[entry.id].deleted
                   && Less(rows[entry.id].clock, entry.clock)
                 else !entry.deleted
  {
    if CheckEntry(w.node.device.rows, w.node.device.superseded, entry).Some? {
      AlarmMeansUnseenDelete(w, manifest, entry);
    }
  }

  /** So there is no alarm about a record this device has taken in, nor about one
      the server still held live. */
  lemma NoFalseAlarm(net: Net, m: u32, manifest: Id, entry: Entry)
    requires Reachable(net) && m in net.nodes && net.nodes[m].whole
    requires var rows := net.nodes[m].device.rows;
             && manifest.kind.Manifest? && manifest in rows
             && !rows[manifest].deleted && rows[manifest].payload.Listing?
             && entry in rows[manifest].payload.entries && Plain(entry.id)
    ensures var node := net.nodes[m];
            var rows, superseded := node.device.rows, node.device.superseded;
            && node.seen <= |net.log|
            && var i := LastIndex(net.log, node.seen, entry.id);
               (|| (entry.id in rows && rows[entry.id].serverSeq > 0)
                || (i >= 0 && !net.log[i].deleted)) ==> CheckEntry(rows, superseded, entry).None?
  {
    ReachableIsInv(net);
    if CheckEntry(net.nodes[m].device.rows, net.nodes[m].device.superseded, entry).Some? {
      AlarmMeansUnseenDelete(WorldOf(net, m), manifest, entry);
    }
  }
}
