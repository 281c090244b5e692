/** What one request of a sync pass, and the store calls around it, come to: for
    any server, and for the honest one. */
module Rounds {
  import opened Basics
  import opened Clock
  import opened Versions
  import opened Records
  import opened Device
  import opened Server
  import opened Protocol
  import opened Net
  import Batches
  import Guarantees
  import Store

  // ----- Any server -----

  /** Nothing starts to wait: what waits after waited before, the same but for
      the version it is based on. */
  predicate Drains(a: map<Id, Row>, b: map<Id, Row>) {
    forall id :: id in Unsent(b) ==> id in Unsent(a) && b[id] == a[id].(serverSeq := b[id].serverSeq)
  }

  lemma DrainsIsSmaller(a: map<Id, Row>, b: map<Id, Row>)
    requires Drains(a, b)
    ensures Unsent(b) <= Unsent(a) && |Unsent(b)| <= |Unsent(a)|
    ensures Unsent(b) != Unsent(a) ==> |Unsent(b)| < |Unsent(a)|
  {
    SmallerSet(Unsent(b), Unsent(a));
  }

  /** One record changes what a waiting row is based on, and only its own. */
  predicate DrainsBy(a: map<Id, Row>, b: map<Id, Row>, e: Envelope) {
    forall id :: id in Unsent(b) ==>
      && id in Unsent(a)
      && (b[id] == a[id] || (id == e.id && b[id] == a[id].(serverSeq := SeqOf(e))))
  }

  lemma ApplyOneDrains(d: Device, e: Envelope)
    ensures DrainsBy(d.rows, ApplyOne(d, e).device.rows, e)
  {
    if Plain(e.id) {
      Batches.ApplyOneTouches(d, e);
      Batches.ApplyOneOwnRow(d, e);
      OwnRowDrains(d.vault, Batches.RowAt(d.rows, e.id), e);
    } else if Opens(e) && !e.deleted {
      InsertHostKeyDrains(d, e);
    }
  }

  lemma OwnRowDrains(vault: nat, was: Option<Row>, e: Envelope)
    requires Plain(e.id)
    ensures var now := Batches.OwnRow(vault, was, e);
            now.Some? && now.value.dirty ==>
              was.Some? && (now == was || now.value == was.value.(serverSeq := SeqOf(e)))
  {
  }

  lemma InsertHostKeyDrains(d: Device, e: Envelope)
    requires Opens(e) && e.blob.payload.HostKey?
    ensures DrainsBy(d.rows, InsertHostKey(d, e).device.rows, e)
  {
  }

  lemma {:induction false} BatchDrains(b: Batch, es: seq<Envelope>)
    ensures Drains(b.device.rows, ApplyAll(b, es).device.rows)
    decreases |es|
  {
    if es != [] {
      var front, e := es[..|es| - 1], es[|es| - 1];
      BatchDrains(b, front);
      ApplyOneDrains(ApplyAll(b, front).device, e);
    }
  }

  lemma ApplyDrains(d: Device, es: seq<Envelope>, now: u64)
    ensures Drains(d.rows, ApplyEnvelopes(d, es, now).0.rows)
  {
    if es != [] {
      BatchDrains(Batch(d, NOTHING, None), InOrder(es));
    }
  }

  lemma {:induction false} BatchOfAnyServerGrows(b: Batch, es: seq<Envelope>)
    ensures Grows(b.device.rows, ApplyAll(b, es).device.rows)
    decreases |es|
  {
    if es != [] {
      var front, e := es[..|es| - 1], es[|es| - 1];
      BatchOfAnyServerGrows(b, front);
      var d := ApplyAll(b, front).device;
      forall id | id in d.rows && Plain(id)
        ensures id in ApplyOne(d, e).device.rows
        ensures AtMost(RowVersion(d.rows[id]), RowVersion(ApplyOne(d, e).device.rows[id]))
      {
        Batches.AnyServerKeepsRows(d, e, id);
      }
    }
  }

  lemma ApplyOfAnyServerGrows(d: Device, es: seq<Envelope>, now: u64)
    ensures Grows(d.rows, ApplyEnvelopes(d, es, now).0.rows)
  {
    if es != [] {
      BatchOfAnyServerGrows(Batch(d, NOTHING, None), InOrder(es));
    }
  }

  /** What marking leaves waiting is untouched, and nothing acknowledged as it is
      still waits. */
  lemma {:induction false} MarkDrains(rows: map<Id, Row>, pushed: seq<Pushed>)
    ensures forall id :: id in Unsent(MarkAll(rows, pushed)) ==>
              id in Unsent(rows) && MarkAll(rows, pushed)[id] == rows[id]
    ensures forall p :: p in pushed && Matches(rows, p) ==> p.id !in Unsent(MarkAll(rows, pushed))
    decreases |pushed|
  {
    if pushed != [] {
      MarkDrains(rows, pushed[..|pushed| - 1]);
      Store.MarkAllKeepsClocks(rows, pushed[..|pushed| - 1]);
    }
  }

  lemma {:induction false} ClearedFindsOne(rows: map<Id, Row>, pushed: seq<Pushed>)
    requires Store.Cleared(rows, pushed) > 0
    ensures exists p :: p in pushed && Matches(rows, p)
    decreases |pushed|
  {
    var p := pushed[|pushed| - 1];
    if Matches(rows, p) {
      assert p in pushed;
    } else {
      ClearedFindsOne(rows, pushed[..|pushed| - 1]);
    }
  }

  /** When something was cleared, strictly less waits than before. */
  lemma MarkShrinks(rows: map<Id, Row>, pushed: seq<Pushed>)
    requires forall p :: p in pushed ==> p.id in Unsent(rows)
    ensures Drains(rows, MarkAll(rows, pushed))
    ensures Store.Cleared(rows, pushed) > 0 ==> |Unsent(MarkAll(rows, pushed))| < |Unsent(rows)|
  {
    MarkDrains(rows, pushed);
    DrainsIsSmaller(rows, MarkAll(rows, pushed));
    if Store.Cleared(rows, pushed) > 0 {
      ClearedFindsOne(rows, pushed);
    }
  }

  // ----- The honest server -----

  predicate AllOpen(log: Log) {
    forall e :: e in log ==> Opens(e)
  }

  lemma {:induction false} PushKeepsOpen(log: Log, es: seq<Envelope>)
    requires AllOpen(log) && forall e :: e in es ==> Opens(e)
    ensures AllOpen(Serve(log, es).log)
    decreases |es|
  {
    if es != [] {
      PushKeepsOpen(log, es[..|es| - 1]);
      assert Opens(es[|es| - 1]);
    }
  }

  lemma ReadableIsNotRejected(d: Device, e: Envelope)
    requires Readable(d, e) && Opens(e)
    ensures !ApplyOne(d, e).outcome.Rejected?
  {
  }

  lemma {:induction false} NothingIsRejected(log: Log, ledger: Ledger, b: Batch, es: seq<Envelope>)
    requires LogInv(log, ledger, b.device.vault) && LedgerInv(log, ledger) && AllOpen(log)
    requires forall e :: e in es ==> e in log
    requires b.report.rejected == 0
    ensures ApplyAll(b, es).report.rejected == 0
    decreases |es|
  {
    if es != [] {
      var front, e := es[..|es| - 1], es[|es| - 1];
      NothingIsRejected(log, ledger, b, front);
      ApplyAllFrame(b, front);
      assert e in log;
      var i :| 0 <= i < |log| && log[i] == e;
      LogIsReadable(log, ledger, ApplyAll(b, front).device, i);
      ReadableIsNotRejected(ApplyAll(b, front).device, e);
    }
  }

  lemma ApplyRejectsNothing(log: Log, ledger: Ledger, d: Device, es: seq<Envelope>, now: u64)
    requires LogInv(log, ledger, d.vault) && LedgerInv(log, ledger) && AllOpen(log)
    requires forall e :: e in es ==> e in log
    ensures ApplyEnvelopes(d, es, now).1.rejected == 0
  {
    InOrderHasAll(es);
    NothingIsRejected(log, ledger, Batch(d, NOTHING, None), InOrder(es));
  }

  // ----- One push and its answer -----

  lemma {:induction false} AcksHasAll(sent: seq<Envelope>, accepted: seq<Accepted>, a: Accepted, e: Envelope)
    requires a in accepted && e in sent && e.id == a.id && DistinctIds(sent)
    ensures Pushed(e.id, e.clock, a.seqNo) in Acks(sent, accepted)
    decreases |accepted|
  {
    var last := accepted[|accepted| - 1];
    if a == last {
      var f := Find(sent, a.id).value;
      var i, j :| 0 <= i < |sent| && 0 <= j < |sent| && sent[i] == e && sent[j] == f;
      assert i == j;
    } else {
      AcksHasAll(sent, accepted[..|accepted| - 1], a, e);
    }
  }

  /** The rows a push offered, after its acknowledgements: each is clear, or was
      answered with the version the server holds. */
  lemma OfferedIsAnswered(d: Device, log: Log, ids: seq<Id>, id: Id)
    requires forall k :: k in ids ==> k in d.rows
    requires forall i, j :: 0 <= i < j < |ids| ==> ids[i] != ids[j]
    requires id in ids
    ensures var es := OutgoingAll(d, ids);
            var reply := Serve(log, es);
            || id !in Unsent(MarkAll(d.rows, Acks(es, reply.accepted)))
            || Offered(reply.conflicts, id)
  {
    var es := OutgoingAll(d, ids);
    var reply := Serve(log, es);
    var e := EnvelopeOf(d, id);
    assert e in es by {
      var i :| 0 <= i < |ids| && ids[i] == id;
      assert es[i] == e;
    }
    EverybodyIsAnswered(log, es, e);
    if !Offered(reply.conflicts, id) {
      var a :| a in reply.accepted && a.id == id;
      AcksHasAll(es, reply.accepted, a, e);
      MarkDrains(d.rows, Acks(es, reply.accepted));
      assert Matches(d.rows, Pushed(e.id, e.clock, a.seqNo));
    }
  }

  lemma LastIsOld(log: Log, later: Log, id: Id)
    requires log <= later && Last(later, id) < |log|
    ensures Last(later, id) == Last(log, id)
    ensures Last(log, id) >= 0 ==> later[Last(log, id)] == log[Last(log, id)]
  {
    LastIndexIgnoresLater(log, later, |log|, id);
    LastStays(later, |log|, |later|, id);
  }

  lemma {:induction false} LastStays(log: Log, n: nat, m: nat, id: Id)
    requires n <= m <= |log| && LastIndex(log, m, id) < n
    ensures LastIndex(log, n, id) == LastIndex(log, m, id)
    decreases m
  {
    if n < m {
      LastStays(log, n, m - 1, id);
    }
  }

  /** What waits after a push stands to the server's records as it did before. */
  lemma PushKeepsStanding(d: Device, log: Log, ids: seq<Id>, id: Id)
    requires Numbered(log)
    requires forall k :: k in ids ==> k in d.rows
    requires forall i, j :: 0 <= i < j < |ids| ==> ids[i] != ids[j]
    requires var es := OutgoingAll(d, ids);
             id in Unsent(MarkAll(d.rows, Acks(es, Serve(log, es).accepted)))
    ensures var es := OutgoingAll(d, ids);
            var reply := Serve(log, es);
            && id in Unsent(d.rows)
            && MarkAll(d.rows, Acks(es, reply.accepted))[id] == d.rows[id]
            && Last(reply.log, id) == Last(log, id)
            && (Last(log, id) >= 0 ==> reply.log[Last(log, id)] == log[Last(log, id)])
            && (id in ids ==> Offered(reply.conflicts, id))
  {
    var es := OutgoingAll(d, ids);
    var reply := Serve(log, es);
    MarkDrains(d.rows, Acks(es, reply.accepted));
    ServeSpec(log, es);
    if id in ids {
      OfferedIsAnswered(d, log, ids, id);
      var c :| c in reply.conflicts && c.id == id;
      assert Held(reply.log, c) && SeqOf(c) <= |log|;
      LastIsOld(log, reply.log, id);
    } else {
      assert !Offered(es, id);
    }
  }

  /** What the server's log gains, the list of what waits has lost. */
  lemma PushMovesRows(d: Device, log: Log, ids: seq<Id>)
    requires Numbered(log)
    requires forall k :: k in ids ==> k in d.rows && k in Unsent(d.rows)
    requires forall i, j :: 0 <= i < j < |ids| ==> ids[i] != ids[j]
    ensures var es := OutgoingAll(d, ids);
            var reply := Serve(log, es);
            |reply.log| + |Unsent(MarkAll(d.rows, Acks(es, reply.accepted)))| <= |log| + |Unsent(d.rows)|
  {
    var es := OutgoingAll(d, ids);
    var reply := Serve(log, es);
    var rows := MarkAll(d.rows, Acks(es, reply.accepted));
    ServeSpec(log, es);
    ServeGrowth(log, es);
    EachOnce(ids);
    var offered := set id | id in ids;
    LeftOrRefused(d, log, ids, offered);
    CountLeft(Unsent(d.rows), offered, IdsOf(reply.conflicts), Unsent(rows));
  }

  lemma LeftOrRefused(d: Device, log: Log, ids: seq<Id>, offered: set<Id>)
    requires Numbered(log)
    requires forall k :: k in ids ==> k in d.rows
    requires forall i, j :: 0 <= i < j < |ids| ==> ids[i] != ids[j]
    requires offered == set id | id in ids
    ensures var es := OutgoingAll(d, ids);
            var reply := Serve(log, es);
            Unsent(MarkAll(d.rows, Acks(es, reply.accepted))) <= (Unsent(d.rows) - offered) + IdsOf(reply.conflicts)
  {
    hide Unsent, MarkAll, Acks, Serve;
    var es := OutgoingAll(d, ids);
    var reply := Serve(log, es);
    forall id | id in Unsent(MarkAll(d.rows, Acks(es, reply.accepted)))
      ensures id in (Unsent(d.rows) - offered) + IdsOf(reply.conflicts)
    {
      PushKeepsStanding(d, log, ids, id);
    }
  }

  lemma CountLeft(all: set<Id>, offered: set<Id>, refused: set<Id>, left: set<Id>)
    requires offered <= all && left <= (all - offered) + refused
    ensures |left| + |offered| <= |all| + |refused|
  {
    SmallerSet(left, (all - offered) + refused);
    assert all == (all - offered) + offered;
    assert |(all - offered) + refused| <= |all - offered| + |refused|;
  }

  lemma {:induction false} ServeGrowth(log: Log, es: seq<Envelope>)
    ensures |Serve(log, es).log| == |log| + |Serve(log, es).accepted|
    decreases |es|
  {
    if es != [] {
      ServeGrowth(log, es[..|es| - 1]);
    }
  }

  /** Acknowledgements of what was sent are all read. */
  lemma {:induction false} AcksAreRead(sent: seq<Envelope>, accepted: seq<Accepted>)
    requires forall a :: a in accepted ==> exists e :: e in sent && e.id == a.id
    ensures |Acks(sent, accepted)| == |accepted|
    decreases |accepted|
  {
    if accepted != [] {
      var a := accepted[|accepted| - 1];
      assert a in accepted;
      AcksAreRead(sent, accepted[..|accepted| - 1]);
    }
  }

  /** The honest server's answer, counted: what it took is what its log has more, and the
      rest was refused. */
  lemma AnswerIsCounted(log: Log, es: seq<Envelope>)
    requires Numbered(log) && DistinctIds(es)
    ensures var reply := Serve(log, es);
            && |Acks(es, reply.accepted)| == |reply.log| - |log|
            && |Acks(es, reply.accepted)| + |reply.conflicts| == |es|
  {
    ServeSpec(log, es);
    ServeGrowth(log, es);
    AcksAreRead(es, Serve(log, es).accepted);
  }

  /** A push without conflicts clears something. */
  lemma PushWithoutConflicts(d: Device, log: Log, ids: seq<Id>)
    requires Numbered(log) && ids != []
    requires forall k :: k in ids ==> k in d.rows && k in Unsent(d.rows)
    requires forall i, j :: 0 <= i < j < |ids| ==> ids[i] != ids[j]
    requires Serve(log, OutgoingAll(d, ids)).conflicts == []
    ensures var es := OutgoingAll(d, ids);
            var acks := Acks(es, Serve(log, es).accepted);
            Store.Cleared(d.rows, acks) > 0 && acks != []
  {
    var es := OutgoingAll(d, ids);
    var reply := Serve(log, es);
    var e := EnvelopeOf(d, ids[0]);
    assert es[0] == e;
    EverybodyIsAnswered(log, es, e);
    var a :| a in reply.accepted && a.id == e.id;
    AcksHasAll(es, reply.accepted, a, e);
    SomethingCleared(d.rows, Acks(es, reply.accepted), Pushed(e.id, e.clock, a.seqNo));
  }

  lemma {:induction false} SomethingCleared(rows: map<Id, Row>, pushed: seq<Pushed>, p: Pushed)
    requires p in pushed && Matches(rows, p)
    ensures Store.Cleared(rows, pushed) > 0
    decreases |pushed|
  {
    if p != pushed[|pushed| - 1] {
      SomethingCleared(rows, pushed[..|pushed| - 1], p);
    }
  }

  // ----- One page -----

  /** The cursor is past everything the server holds. */
  predicate Past(log: Log, cursor: nat) {
    forall i :: 0 <= i < |log| && Current(log, i) ==> i < cursor
  }

  lemma {:induction false} WaitingMoves(log: Log, i: nat, k: nat)
    requires Numbered(log) && k < |Waiting(log, i)|
    ensures SeqOf(Waiting(log, i)[k]) > i + k
    decreases |log| - i
  {
    if Current(log, i) {
      if k > 0 { WaitingMoves(log, i + 1, k - 1); }
    } else {
      WaitingMoves(log, i + 1, k);
    }
  }

  /** A page that is not the last one moves the cursor by as many records as a
      page may hold; the last one takes it past everything. */
  lemma PageMoves(log: Log, since: nat, fits: nat, per: nat)
    requires Numbered(log) && since <= |log| && per <= Max(1, Min(fits, MAX_BATCH))
    ensures var page := Pull(log, since, fits);
            && (page.hasMore ==> page.cursor >= since + per && page.cursor < |log|)
            && (!page.hasMore ==> Past(log, page.cursor))
            && (forall e :: e in page.envelopes ==> Held(log, e) && e in log)
            && (page.envelopes == [] <==> page.cursor == since)
            && page.cursor >= since
  {
    var page := Pull(log, since, fits);
    var count := |page.envelopes|;
    var all := Waiting(log, since);
    PageIsComplete(log, since, fits);
    if count > 0 { WaitingMoves(log, since, count - 1); }
    if page.hasMore {
      WaitingAscends(log, since, count - 1, count);
      WaitingIsComplete(log, since);
      assert Held(log, all[count]);
    } else {
      forall i | 0 <= i < |log| && Current(log, i)
        ensures i < page.cursor
      {
        assert Held(log, log[i]);
      }
    }
  }

  // ----- As steps of the network -----

  lemma PublishesTwice(a: World, b: World, c: World)
    requires Publishes(a, b) && Publishes(b, c)
    ensures Publishes(a, c)
  {
  }

  function AfterPush(w: World, ids: seq<Id>): World
    requires forall id :: id in ids ==> id in w.node.device.rows
  {
    var d := w.node.device;
    var es := OutgoingAll(d, ids);
    var reply := Serve(w.log, es);
    World(reply.log, w.ledger,
          Node(d.(rows := MarkAll(d.rows, Acks(es, reply.accepted))), Quiet, w.node.seen, false))
  }

  ghost function AfterPushRound(w: World, ids: seq<Id>, now: u64): World
    requires forall id :: id in ids ==> id in w.node.device.rows
  {
    var b := AfterPush(w, ids);
    var conflicts := Serve(w.log, OutgoingAll(w.node.device, ids)).conflicts;
    b.(node := b.node.(device := ApplyEnvelopes(b.node.device, conflicts, now).0))
  }

  lemma StepDoes(w: World, act: Action, b: World)
    requires WorldInv(w) && Enabled(w, act) && Do(w, act) == b
    ensures WorldInv(b) && Publishes(w, b)
  {
    StepKeeps(w, act);
    StepPublishes(w, act);
  }

  lemma PushSteps(w: World, ids: seq<Id>)
    requires WorldInv(w) && Enabled(w, Offer(ids))
    ensures var es := OutgoingAll(w.node.device, ids);
            var reply := Serve(w.log, es);
            var b := World(reply.log, w.ledger, w.node.(flight :=
                       Flight.Answered(Acks(es, reply.accepted), reply.conflicts, |reply.log|)));
            WorldInv(b) && Publishes(w, b)
  {
    var es := OutgoingAll(w.node.device, ids);
    var reply := Serve(w.log, es);
    var sent := w.(node := w.node.(flight := Sent(es)));
    var served := World(reply.log, w.ledger, w.node.(flight :=
                    Flight.Answered(Acks(es, reply.accepted), reply.conflicts, |reply.log|)));
    StepDoes(w, Offer(ids), sent);
    StepDoes(sent, ServePush, served);
    PublishesTwice(w, sent, served);
  }

  lemma AnswerSteps(w: World, now: u64)
    requires WorldInv(w) && w.node.flight.Answered? && Roomy(w.node.device.clock, now)
    ensures var d := w.node.device;
            var marked := d.(rows := MarkAll(d.rows, w.node.flight.pushed));
            var b := w.(node := Node(ApplyEnvelopes(marked, w.node.flight.conflicts, now).0, Quiet,
                                     w.node.seen, false));
            WorldInv(b) && Publishes(w, b)
  {
    var d, flight := w.node.device, w.node.flight;
    var marked := w.(node := Node(d.(rows := MarkAll(d.rows, flight.pushed)),
                                  Merging(flight.conflicts, flight.asOf), w.node.seen, false));
    var merged := w.(node := Node(ApplyEnvelopes(marked.node.device, flight.conflicts, now).0, Quiet,
                                  w.node.seen, false));
    StepDoes(w, Mark, marked);
    StepDoes(marked, MergeConflicts(now), merged);
    PublishesTwice(w, marked, merged);
  }

  /** Offering rows, having them served, marking what was taken and merging what
      was not. */
  lemma PushRound(w: World, ids: seq<Id>, now: u64)
    requires WorldInv(w) && Enabled(w, Offer(ids)) && Roomy(w.node.device.clock, now)
    ensures WorldInv(AfterPushRound(w, ids, now)) && Publishes(w, AfterPushRound(w, ids, now))
  {
    var es := OutgoingAll(w.node.device, ids);
    var reply := Serve(w.log, es);
    var served := World(reply.log, w.ledger, w.node.(flight :=
                    Flight.Answered(Acks(es, reply.accepted), reply.conflicts, |reply.log|)));
    PushSteps(w, ids);
    AnswerSteps(served, now);
    PublishesTwice(w, served, AfterPushRound(w, ids, now));
  }

  ghost function AfterPullRound(w: World, fits: nat, now: u64): World {
    var d := w.node.device;
    var page := Pull(w.log, d.cursor, fits);
    var after := ApplyEnvelopes(d, page.envelopes, now).0;
    w.(node := Node(after.(cursor := Max(after.cursor, page.cursor)), Quiet,
                    if page.hasMore then w.node.seen else |w.log|, !page.hasMore))
  }

  /** Asking for a page, taking it in and moving the cursor. */
  lemma PullRound(w: World, fits: nat, now: u64)
    requires WorldInv(w) && w.node.flight.Quiet? && Roomy(w.node.device.clock, now)
    ensures WorldInv(AfterPullRound(w, fits, now)) && Publishes(w, AfterPullRound(w, fits, now))
  {
    var d := w.node.device;
    var page := Pull(w.log, d.cursor, fits);
    var after := ApplyEnvelopes(d, page.envelopes, now).0;
    var asked := w.(node := w.node.(flight := Paged(page, |w.log|)));
    var taken := w.(node := w.node.(device := after, flight := Taken(page, |w.log|), whole := false));
    StepDoes(w, Ask(fits), asked);
    StepDoes(asked, Take(now), taken);
    StepDoes(taken, Advance, AfterPullRound(w, fits, now));
    PublishesTwice(w, asked, taken);
    PublishesTwice(w, taken, AfterPullRound(w, fits, now));
  }

  /** Nothing but manifests was written. */
  predicate OnlyManifests(a: Log, b: Log) {
    a <= b && forall i :: |a| <= i < |b| ==> b[i].id.kind.Manifest?
  }

  /** A pass that sent all it had and heard the server to the end. */
  predicate Completed(a: World, b: World) {
    && WorldInv(b) && Publishes(a, b)
    && b.node.flight.Quiet? && Unsent(b.node.device.rows) == {} && Past(b.log, b.node.device.cursor)
    && (Unsent(a.node.device.rows) == {} ==> OnlyManifests(a.log, b.log))
  }

  // ----- The clock's room -----

  /** `n` more store calls, none of them later than `latest`, cannot take the
      clock to the end of its range. */
  predicate RoomFor(clock: Hlc, latest: u64, n: nat) {
    Max(Ticks(clock), (latest + MAX_DRIFT_MS + 1) * U32) + n < U64_MAX * U32 + (U32 - 1)
  }

  lemma TimesAreOrdered(now: nat, latest: nat)
    requires now <= latest
    ensures now * U32 <= latest * U32
  {
  }

  lemma RoomForOneMore(clock: Hlc, latest: u64, n: nat, now: u64)
    requires RoomFor(clock, latest, n + 1) && now <= latest
    ensures Roomy(clock, now)
    ensures RoomFor(Tick(clock, now), latest, n)
    ensures forall remote :: RoomFor(Merge(clock, remote, now), latest, n)
  {
    TickIsMax(clock, now);
    TimesAreOrdered(now, latest);
    forall remote
      ensures RoomFor(Merge(clock, remote, now), latest, n)
    {
      TimesAreOrdered(Min(remote.wall, now + MAX_DRIFT_MS), latest + MAX_DRIFT_MS);
      assert Clamped(remote, now) < (latest + MAX_DRIFT_MS + 1) * U32;
      MergeIsMax(clock, remote, now);
    }
  }

  lemma ApplyTakesRoom(d: Device, es: seq<Envelope>, latest: u64, n: nat, now: u64)
    requires RoomFor(d.clock, latest, n + 1) && now <= latest
    ensures Roomy(d.clock, now)
    ensures RoomFor(ApplyEnvelopes(d, es, now).0.clock, latest, n)
  {
    RoomForOneMore(d.clock, latest, n, now);
    if es != [] {
      ApplyAllFrame(Batch(d, NOTHING, None), InOrder(es));
    }
  }
}
