/** How what waits stands to what the server holds: which rows a push would take,
    and what its answer, or a pull, makes of the rest. */
module Standing {
  import opened Basics
  import opened Clock
  import opened Versions
  import opened Records
  import opened Device
  import opened Server
  import opened Protocol
  import opened Net
  import opened Rounds
  import Batches
  import Store

  /** A push of this row would be taken. */
  predicate OnTop(log: Log, row: Row, id: Id) {
    Last(log, id) == -1 || Last(log, id) == row.serverSeq - 1
  }

  /** What waits and would be refused. */
  function Behind(log: Log, rows: map<Id, Row>): set<Id> {
    set id | id in Unsent(rows) && !OnTop(log, rows[id], id)
  }

  predicate Ready(log: Log, rows: map<Id, Row>) {
    Behind(log, rows) == {}
  }

  /** No surprise a pull from here on does not clear up: what waits and is behind,
      is behind a version that is still to be pulled. */
  predicate Foreseen(log: Log, cursor: nat, rows: map<Id, Row>) {
    forall id :: id in Behind(log, rows) ==> Last(log, id) >= cursor
  }

  /** A record this device has, but whose delete it passed over. */
  predicate PassedOver(log: Log, row: Row, id: Id) {
    row.serverSeq == 0 && Last(log, id) >= 0 && log[Last(log, id)].deleted
  }

  /** The surprises there can be are the deletes passed over. */
  lemma OnlyPassedOverIsUnforeseen(log: Log, cursor: nat, rows: map<Id, Row>, id: Id)
    requires Numbered(log) && CaughtUp(log, |log|, cursor, rows)
    requires id in Unsent(rows) && Plain(id) && Last(log, id) < cursor
    ensures id in Behind(log, rows) <==> PassedOver(log, rows[id], id)
  {
    var i := Last(log, id);
    if i >= 0 {
      assert Accounted(rows, log[i]);
    }
  }

  /** An envelope's host key, if it has one, is for the row's slot. */
  predicate SameSlot(row: Row, e: Envelope) {
    Opens(e) && e.blob.payload.HostKey? ==> row.payload.HostKey? && row.payload.slot == e.blob.payload.slot
  }

  /** The id of a host key never moves to another slot. */
  predicate StableSlots(log: Log, rows: map<Id, Row>) {
    forall i :: 0 <= i < |log| && log[i].id in Unsent(rows) ==> SameSlot(rows[log[i].id], log[i])
  }

  /** Having pulled everything, a device is ready to push all it has. */
  lemma PulledIsReady(log: Log, cursor: nat, rows: map<Id, Row>)
    requires Foreseen(log, cursor, rows) && Past(log, cursor)
    ensures Ready(log, rows)
  {
    forall id | id in Behind(log, rows)
      ensures false
    {
      assert Current(log, Last(log, id));
    }
  }

  // ----- Versions held, coming in -----

  /** A record the honest server hands out can be read. */
  predicate Legible(vault: nat, e: Envelope) {
    e.vault == vault && HasTable(e.id.kind) && Opens(e)
  }

  /** The version held, once it was looked at, leaves its row clear or on top of it. A
      host key cannot have been kept out by another one of its slot: the row itself
      has the slot. */
  lemma SettlesOne(log: Log, d: Device, e: Envelope)
    requires Held(log, e) && Legible(d.vault, e) && OnePerSlot(d.rows)
    requires e.id in Unsent(d.rows) ==> SameSlot(d.rows[e.id], e)
    ensures e.id !in Behind(log, ApplyOne(d, e).device.rows)
  {
    ApplyOneDrains(d, e);
    if e.id in Unsent(d.rows) {
      ResolveIsOrder(RowVersion(d.rows[e.id]), EnvelopeVersion(e));
      if e.blob.payload.HostKey? && Below(RowVersion(d.rows[e.id]), EnvelopeVersion(e)) {
        assert forall rival :: !Rival(d.rows, e.id, e.blob.payload.slot, rival);
      }
    }
  }

  lemma HeldKeepsOnTop(log: Log, d: Device, e: Envelope)
    requires Held(log, e)
    ensures Behind(log, ApplyOne(d, e).device.rows) <= Behind(log, d.rows)
  {
    ApplyOneDrains(d, e);
  }

  lemma DrainsKeepSlots(log: Log, a: map<Id, Row>, b: map<Id, Row>)
    requires Drains(a, b) && StableSlots(log, a)
    ensures StableSlots(log, b)
  {
    forall i | 0 <= i < |log| && log[i].id in Unsent(b)
      ensures SameSlot(b[log[i].id], log[i])
    {
      assert log[i].id in Unsent(a);
    }
  }

  lemma {:induction false} BatchKeepsOnTop(log: Log, b: Batch, es: seq<Envelope>)
    requires forall e :: e in es ==> Held(log, e)
    ensures Behind(log, ApplyAll(b, es).device.rows) <= Behind(log, b.device.rows)
    decreases |es|
  {
    if es != [] {
      var front, e := es[..|es| - 1], es[|es| - 1];
      BatchKeepsOnTop(log, b, front);
      assert Held(log, e);
      HeldKeepsOnTop(log, ApplyAll(b, front).device, e);
    }
  }

  lemma {:induction false} BatchSettles(log: Log, b: Batch, es: seq<Envelope>)
    requires OnePerSlot(b.device.rows) && StableSlots(log, b.device.rows)
    requires forall e :: e in es ==> Held(log, e) && Legible(b.device.vault, e)
    ensures var rows := ApplyAll(b, es).device.rows;
            OnePerSlot(rows) && Behind(log, rows) <= Behind(log, b.device.rows) - IdsOf(es)
    decreases |es|
  {
    hide Behind, OnePerSlot, StableSlots, ApplyOne, Held, Legible;
    if es != [] {
      var front, e := es[..|es| - 1], es[|es| - 1];
      BatchSettles(log, b, front);
      var c := ApplyAll(b, front).device;
      ApplyAllFrame(b, front);
      BatchDrains(b, front);
      DrainsKeepSlots(log, b.device.rows, c.rows);
      assert Held(log, e) && Legible(c.vault, e);
      HeldHasItsSlot(log, c.rows, e);
      SettlesOne(log, c, e);
      HeldKeepsOnTop(log, c, e);
      Store.ApplyOneKeepsSlots(c, e);
    }
  }

  lemma HeldHasItsSlot(log: Log, rows: map<Id, Row>, e: Envelope)
    requires StableSlots(log, rows) && Held(log, e)
    ensures e.id in Unsent(rows) ==> SameSlot(rows[e.id], e)
  {
  }

  lemma ApplyKeepsOnTop(log: Log, d: Device, es: seq<Envelope>, now: u64)
    requires forall e :: e in es ==> Held(log, e)
    ensures Behind(log, ApplyEnvelopes(d, es, now).0.rows) <= Behind(log, d.rows)
  {
    if es != [] {
      InOrderHasAll(es);
      BatchKeepsOnTop(log, Batch(d, NOTHING, None), InOrder(es));
    }
  }

  lemma SameIds(es: seq<Envelope>, fs: seq<Envelope>)
    requires forall e :: e in es <==> e in fs
    ensures IdsOf(es) == IdsOf(fs)
  {
    assert forall id :: Offered(es, id) <==> Offered(fs, id);
  }

  lemma ApplySettles(log: Log, d: Device, es: seq<Envelope>, now: u64)
    requires OnePerSlot(d.rows) && StableSlots(log, d.rows)
    requires forall e :: e in es ==> Held(log, e) && Legible(d.vault, e)
    ensures Behind(log, ApplyEnvelopes(d, es, now).0.rows) <= Behind(log, d.rows) - IdsOf(es)
  {
    hide Behind, OnePerSlot, StableSlots, Held, Legible, ApplyAll;
    if es != [] {
      InOrderHasAll(es);
      BatchSettles(log, Batch(d, NOTHING, None), InOrder(es));
      SameIds(es, InOrder(es));
    }
  }

  // ----- A push and its answer -----

  lemma MarkKeepsSlots(rows: map<Id, Row>, pushed: seq<Pushed>)
    requires OnePerSlot(rows)
    ensures OnePerSlot(MarkAll(rows, pushed))
  {
    Store.MarkAllKeepsClocks(rows, pushed);
  }

  /** What a push leaves waiting is where it was; what was behind in it came back. */
  lemma PushLeaves(d: Device, log: Log, ids: seq<Id>)
    requires Numbered(log)
    requires forall k :: k in ids ==> k in d.rows
    requires forall i, j :: 0 <= i < j < |ids| ==> ids[i] != ids[j]
    ensures var es := OutgoingAll(d, ids);
            var reply := Serve(log, es);
            var marked := MarkAll(d.rows, Acks(es, reply.accepted));
            && (forall id :: id in Behind(reply.log, marked) ==>
                  && id in Behind(log, d.rows) && Last(reply.log, id) == Last(log, id)
                  && (id in ids ==> Offered(reply.conflicts, id)))
            && (StableSlots(log, d.rows) ==> StableSlots(reply.log, marked))
  {
    hide MarkAll, Acks, Serve, SameSlot;
    var es := OutgoingAll(d, ids);
    var reply := Serve(log, es);
    var marked := MarkAll(d.rows, Acks(es, reply.accepted));
    ServeSpec(log, es);
    forall id | id in Unsent(marked)
      ensures id in Unsent(d.rows) && marked[id] == d.rows[id]
      ensures Last(reply.log, id) == Last(log, id) && (id in ids ==> Offered(reply.conflicts, id))
    {
      PushKeepsStanding(d, log, ids, id);
    }
    if StableSlots(log, d.rows) {
      forall i | 0 <= i < |reply.log| && reply.log[i].id in Unsent(marked)
        ensures SameSlot(marked[reply.log[i].id], reply.log[i])
      {
        assert i <= Last(reply.log, reply.log[i].id);
        assert reply.log[i] == log[i];
      }
    }
  }

  /** After the answer, what waits is what was not offered, or is on top. */
  lemma ExchangeSettles(d: Device, log: Log, ids: seq<Id>, cursor: nat, now: u64)
    requires Numbered(log)
    requires forall k :: k in ids ==> k in d.rows
    requires forall i, j :: 0 <= i < j < |ids| ==> ids[i] != ids[j]
    requires forall e :: e in Serve(log, OutgoingAll(d, ids)).log ==> Legible(d.vault, e)
    ensures var es := OutgoingAll(d, ids);
            var reply := Serve(log, es);
            var marked := d.(rows := MarkAll(d.rows, Acks(es, reply.accepted)));
            var rows := ApplyEnvelopes(marked, reply.conflicts, now).0.rows;
            && Behind(reply.log, rows) <= Behind(log, d.rows)
            && (Foreseen(log, cursor, d.rows) ==> Foreseen(reply.log, cursor, rows))
            && (StableSlots(log, d.rows) && OnePerSlot(d.rows) ==>
                  && StableSlots(reply.log, rows)
                  && forall id :: id in Behind(reply.log, rows) ==> id !in ids)
  {
    hide MarkAll, Acks, Serve, Behind, StableSlots, OnePerSlot, Legible, ApplyEnvelopes;
    var es := OutgoingAll(d, ids);
    var reply := Serve(log, es);
    var marked := d.(rows := MarkAll(d.rows, Acks(es, reply.accepted)));
    var rows := ApplyEnvelopes(marked, reply.conflicts, now).0.rows;
    ServeSpec(log, es);
    PushLeaves(d, log, ids);
    ApplyKeepsOnTop(reply.log, marked, reply.conflicts, now);
    if StableSlots(log, d.rows) && OnePerSlot(d.rows) {
      MarkKeepsSlots(d.rows, Acks(es, reply.accepted));
      ApplyDrains(marked, reply.conflicts, now);
      DrainsKeepSlots(reply.log, marked.rows, rows);
      assert forall e :: e in reply.conflicts ==> e in reply.log;
      ApplySettles(reply.log, marked, reply.conflicts, now);
    }
  }

  /** With everything up to date, a push comes back without conflicts. */
  lemma PushOfReady(d: Device, log: Log, ids: seq<Id>)
    requires Numbered(log) && Ready(log, d.rows)
    requires forall k :: k in ids ==> k in d.rows && k in Unsent(d.rows)
    requires forall i, j :: 0 <= i < j < |ids| ==> ids[i] != ids[j]
    ensures Serve(log, OutgoingAll(d, ids)).conflicts == []
  {
    var es := OutgoingAll(d, ids);
    ServeSpec(log, es);
    forall e | e in es
      ensures UpToBase(log, e)
    {
      assert e.id !in Behind(log, d.rows);
    }
  }

  /** A record based on the version held is taken. */
  lemma {:induction false} OnTopIsTaken(log: Log, es: seq<Envelope>, e: Envelope) returns (a: Accepted)
    requires Numbered(log) && DistinctIds(es) && e in es && UpToBase(log, e)
    ensures a in Serve(log, es).accepted && a.id == e.id
    decreases |es|
  {
    var front, last := es[..|es| - 1], es[|es| - 1];
    var r := Serve(log, front);
    if e == last {
      ServeSpec(log, front);
      assert !Offered(front, e.id);
      a := Serve(log, es).accepted[|r.accepted|];
    } else {
      a := OnTopIsTaken(log, front, e);
    }
  }

  /** So if nothing was cleared, all that was offered was behind. */
  lemma NothingClearedMeansBehind(d: Device, log: Log, ids: seq<Id>)
    requires Numbered(log)
    requires forall k :: k in ids ==> k in d.rows && k in Unsent(d.rows)
    requires forall i, j :: 0 <= i < j < |ids| ==> ids[i] != ids[j]
    requires var es := OutgoingAll(d, ids);
             var acks := Acks(es, Serve(log, es).accepted);
             acks == [] || Store.Cleared(d.rows, acks) == 0
    ensures forall id :: id in ids ==> id in Behind(log, d.rows)
  {
    hide Acks, Serve, Unsent, Store.Cleared;
    var es := OutgoingAll(d, ids);
    var reply := Serve(log, es);
    forall id | id in ids
      ensures id in Behind(log, d.rows)
    {
      var e := EnvelopeOf(d, id);
      var i :| 0 <= i < |ids| && ids[i] == id;
      assert es[i] == e;
      if OnTop(log, d.rows[id], id) {
        var a := OnTopIsTaken(log, es, e);
        AcksHasAll(es, reply.accepted, a, e);
        SomethingCleared(d.rows, Acks(es, reply.accepted), Pushed(e.id, e.clock, a.seqNo));
      }
    }
  }

  // ----- A page -----

  /** What is behind a version up to the end of the page is behind one on the page. */
  lemma OnThePage(log: Log, since: nat, fits: nat, id: Id)
    requires Numbered(log) && since <= Last(log, id) < Pull(log, since, fits).cursor
    ensures id in IdsOf(Pull(log, since, fits).envelopes)
  {
    var i := Last(log, id);
    PageIsComplete(log, since, fits);
    assert Held(log, log[i]);
  }

  /** A page settles what is behind a version on it. */
  lemma PageSettles(d: Device, log: Log, fits: nat, now: u64)
    requires Numbered(log) && d.cursor <= |log|
    requires forall e :: e in log ==> Legible(d.vault, e)
    ensures var page := Pull(log, d.cursor, fits);
            var rows := ApplyEnvelopes(d, page.envelopes, now).0.rows;
            && Behind(log, rows) <= Behind(log, d.rows)
            && (StableSlots(log, d.rows) && OnePerSlot(d.rows) ==>
                  && StableSlots(log, rows)
                  && (Foreseen(log, d.cursor, d.rows) ==> Foreseen(log, Max(d.cursor, page.cursor), rows)))
  {
    hide Behind, StableSlots, OnePerSlot, Legible, ApplyEnvelopes, Pull, Held, Last;
    var page := Pull(log, d.cursor, fits);
    var rows := ApplyEnvelopes(d, page.envelopes, now).0.rows;
    PageIsOfTheLog(log, d.cursor, fits);
    ApplyKeepsOnTop(log, d, page.envelopes, now);
    if StableSlots(log, d.rows) && OnePerSlot(d.rows) {
      ApplyDrains(d, page.envelopes, now);
      DrainsKeepSlots(log, d.rows, rows);
      ApplySettles(log, d, page.envelopes, now);
      if Foreseen(log, d.cursor, d.rows) {
        forall id | id in Behind(log, rows)
          ensures Last(log, id) >= Max(d.cursor, page.cursor)
        {
          if Last(log, id) < page.cursor { OnThePage(log, d.cursor, fits, id); }
        }
      }
    }
  }

  lemma PageIsOfTheLog(log: Log, since: nat, fits: nat)
    requires Numbered(log) && since <= |log|
    ensures forall e :: e in Pull(log, since, fits).envelopes ==> Held(log, e) && e in log
  {
    PageIsComplete(log, since, fits);
  }

  // ----- Deletes that were passed over -----

  /** Everything was pulled, and all that waits are live edits of records whose
      deletes were passed over. */
  predicate Surprised(log: Log, cursor: nat, rows: map<Id, Row>) {
    && Past(log, cursor)
    && forall id :: id in Unsent(rows) ==> Plain(id) && !rows[id].deleted && PassedOver(log, rows[id], id)
  }

  lemma {:induction false} AllRefused(log: Log, es: seq<Envelope>)
    requires forall e :: e in es ==> !UpToBase(log, e)
    ensures var reply := Serve(log, es);
            && reply.log == log && reply.accepted == [] && |reply.conflicts| == |es|
            && forall i :: 0 <= i < |es| ==>
                 Last(log, es[i].id) >= 0 && reply.conflicts[i] == log[Last(log, es[i].id)]
    decreases |es|
  {
    if es != [] {
      var front, e := es[..|es| - 1], es[|es| - 1];
      AllRefused(log, front);
      assert !UpToBase(log, e);
    }
  }

  /** A delete that meets a live row it can be read against. */
  predicate Deletes(d: Device, e: Envelope) {
    Plain(e.id) && e.deleted && Legible(d.vault, e) && e.id in d.rows && !d.rows[e.id].deleted
  }

  /** The same but for the rows of some records, which no longer wait. */
  predicate ClearedOf(a: map<Id, Row>, b: map<Id, Row>, ids: set<Id>) {
    && (forall id :: id in a && id !in ids ==> id in b && b[id] == a[id])
    && Unsent(b) == Unsent(a) - ids
  }

  lemma {:induction false} DeletesClear(b: Batch, es: seq<Envelope>)
    requires forall e :: e in es ==> Deletes(b.device, e)
    ensures ClearedOf(b.device.rows, ApplyAll(b, es).device.rows, IdsOf(es))
    decreases |es|
  {
    if es != [] {
      var front, e := es[..|es| - 1], es[|es| - 1];
      DeletesClear(b, front);
      ApplyAllFrame(b, front);
      var d := ApplyAll(b, front).device;
      assert Deletes(b.device, e);
      OneDeleteClears(d, e, Offered(front, e.id));
    }
  }

  lemma OneDeleteClears(d: Device, e: Envelope, again: bool)
    requires Plain(e.id) && e.deleted && Legible(d.vault, e)
    requires if again then e.id !in Unsent(d.rows) else e.id in d.rows && !d.rows[e.id].deleted
    ensures ClearedOf(d.rows, ApplyOne(d, e).device.rows, {e.id})
  {
    Batches.ApplyOneTouches(d, e);
    Batches.ApplyOneOwnRow(d, e);
    ApplyOneDrains(d, e);
    var rows := ApplyOne(d, e).device.rows;
    assert e.id !in Unsent(rows);
    forall id | id in Unsent(d.rows) && id != e.id
      ensures id in Unsent(rows)
    {
    }
  }

  /** The deletes that come back for these rows. */
  predicate AnsweredWithDeletes(log: Log, ids: seq<Id>, conflicts: seq<Envelope>) {
    && |conflicts| == |ids|
    && forall i :: 0 <= i < |ids| ==> Last(log, ids[i]) >= 0 && conflicts[i] == log[Last(log, ids[i])]
  }

  lemma Refusals(d: Device, log: Log, ids: seq<Id>)
    requires forall k :: k in ids ==> k in d.rows
    requires forall k :: k in ids ==> PassedOver(log, d.rows[k], k)
    ensures var es := OutgoingAll(d, ids);
            var reply := Serve(log, es);
            && reply.log == log && Acks(es, reply.accepted) == []
            && AnsweredWithDeletes(log, ids, reply.conflicts)
  {
    var es := OutgoingAll(d, ids);
    AllRefused(log, es);
    forall i | 0 <= i < |ids|
      ensures Last(log, ids[i]) >= 0 && Serve(log, es).conflicts[i] == log[Last(log, ids[i])]
    {
      assert es[i].id == ids[i];
    }
  }

  lemma AnswerIsFor(log: Log, ids: seq<Id>, conflicts: seq<Envelope>)
    requires AnsweredWithDeletes(log, ids, conflicts)
    ensures forall id :: id in ids <==> id in IdsOf(conflicts)
    ensures forall e :: e in conflicts ==> e in log && e.id in ids && log[Last(log, e.id)] == e
  {
    hide IdsOf;
    forall e | e in conflicts
      ensures e in log && e.id in ids && log[Last(log, e.id)] == e
    {
      var i :| 0 <= i < |ids| && conflicts[i] == e;
      assert log[Last(log, ids[i])].id == ids[i];
    }
    forall id | id in ids
      ensures Offered(conflicts, id)
    {
      var i :| 0 <= i < |ids| && ids[i] == id;
      assert conflicts[i] in conflicts && conflicts[i].id == id;
    }
  }

  lemma DeletesCome(d: Device, log: Log, ids: seq<Id>, conflicts: seq<Envelope>, now: u64)
    requires Surprised(log, d.cursor, d.rows) && forall k :: k in ids ==> k in Unsent(d.rows)
    requires forall e :: e in log ==> Legible(d.vault, e)
    requires AnsweredWithDeletes(log, ids, conflicts)
    ensures ClearedOf(d.rows, ApplyEnvelopes(d, conflicts, now).0.rows, IdsOf(conflicts))
  {
    hide ApplyAll, ClearedOf, AnsweredWithDeletes, Past, Legible;
    AnswerIsFor(log, ids, conflicts);
    forall e | e in conflicts
      ensures Deletes(d, e)
    {
      assert e.id in Unsent(d.rows);
    }
    DeletesClearAll(d, conflicts, now);
  }

  lemma DeletesClearAll(d: Device, es: seq<Envelope>, now: u64)
    requires forall e :: e in es ==> Deletes(d, e)
    ensures ClearedOf(d.rows, ApplyEnvelopes(d, es, now).0.rows, IdsOf(es))
  {
    hide ApplyAll, Deletes;
    if es != [] {
      InOrderHasAll(es);
      DeletesClear(Batch(d, NOTHING, None), InOrder(es));
      SameIds(es, InOrder(es));
    }
  }

  /** A push of these rows moves nothing: each comes back as its delete. */
  lemma SurprisedExchange(d: Device, log: Log, ids: seq<Id>, now: u64)
    requires Surprised(log, d.cursor, d.rows)
    requires forall k :: k in ids ==> k in d.rows
    requires forall k :: k in ids ==> k in Unsent(d.rows)
    requires forall e :: e in log ==> Legible(d.vault, e)
    ensures var es := OutgoingAll(d, ids);
            var reply := Serve(log, es);
            var marked := d.(rows := MarkAll(d.rows, Acks(es, reply.accepted)));
            var rows := ApplyEnvelopes(marked, reply.conflicts, now).0.rows;
            && reply.log == log && Acks(es, reply.accepted) == [] && |reply.conflicts| == |ids|
            && Surprised(log, d.cursor, rows)
            && Unsent(rows) == Unsent(d.rows) - set id | id in ids
  {
    hide Serve, Acks, ApplyEnvelopes, Past, Legible, IdsOf, Last;
    var reply := Serve(log, OutgoingAll(d, ids));
    Refusals(d, log, ids);
    DeletesCome(d, log, ids, reply.conflicts, now);
    AnswerIsFor(log, ids, reply.conflicts);
    assert IdsOf(reply.conflicts) == set id | id in ids;
  }

  /** And a pull brings nothing. */
  lemma NothingToPull(log: Log, cursor: nat, fits: nat)
    requires Numbered(log) && Past(log, cursor)
    ensures Pull(log, cursor, fits).envelopes == []
  {
    WaitingIsComplete(log, cursor);
    assert forall e :: Held(log, e) ==> SeqOf(e) <= cursor;
    assert forall e :: e !in Waiting(log, cursor);
  }
}
