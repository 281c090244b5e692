/** One pass of syncing, against any server, and what it comes to against the
    honest one. */
module Engine {
  import opened Basics
  import opened Clock
  import opened Versions
  import opened Records
  import opened Device
  import opened Server
  import opened Protocol
  import opened Net
  import opened Rounds
  import opened Standing
  import opened Outcomes
  import Batches
  import Guarantees
  import Store

  const MAX_ROUNDS: nat := 3
  const MAX_PAGES: nat := 1_000

  /** The bytes a request has for all but its last row, and the load of a full one. */
  const SPARE: nat := Store.MAX_BATCH_BYTES - MAX_BLOB_BYTES
  const REQUEST: nat := MAX_BATCH * SPARE

  datatype Answer = Answer(accepted: seq<Accepted>, conflicts: seq<Envelope>)

  /** A server. The honest one keeps a log; any other may answer the n-th request
      with whatever it likes, or not at all. */
  class Transport {
    const honest: bool
    const fits: nat -> nat
    const answers: nat -> Option<Answer>
    const pages: nat -> Option<Page>
    const resets: nat -> bool
    var log: Log
    var asked: nat
    /** What was offered, and the cursors pages were asked for from. */
    ghost var offers: seq<seq<Envelope>>
    ghost var asks: seq<nat>

    constructor (honest: bool, fits: nat -> nat, answers: nat -> Option<Answer>,
                 pages: nat -> Option<Page>, resets: nat -> bool, log: Log)
      ensures this.honest == honest && this.fits == fits && this.log == log && asked == 0
      ensures this.answers == answers && this.pages == pages && this.resets == resets
      ensures offers == [] && asks == []
    {
      this.honest, this.fits, this.answers, this.pages, this.resets := honest, fits, answers, pages, resets;
      this.log, asked, offers, asks := log, 0, [], [];
    }

    method Push(es: seq<Envelope>) returns (answer: Option<Answer>)
      modifies this
      ensures asked == old(asked) + 1 && offers == old(offers) + [es] && asks == old(asks)
      ensures if honest then
                var reply := Serve(old(log), es);
                log == reply.log && answer == Some(Answer(reply.accepted, reply.conflicts))
              else log == old(log) && answer == answers(asked)
    {
      asked, offers := asked + 1, offers + [es];
      if honest {
        var reply := Serve(log, es);
        log := reply.log;
        answer := Some(Answer(reply.accepted, reply.conflicts));
      } else {
        answer := answers(asked);
      }
    }

    /** `reset` is an answer that says to start over. */
    method Pull(since: nat) returns (page: Option<Page>, reset: bool)
      modifies this`asked, this`asks
      ensures asked == old(asked) + 1 && asks == old(asks) + [since]
      ensures page == (if honest then Some(Server.Pull(log, since, fits(asked))) else pages(asked))
      ensures reset <==> !honest && resets(asked)
    {
      asked, asks := asked + 1, asks + [since];
      if honest {
        page, reset := Some(Server.Pull(log, since, fits(asked))), false;
      } else {
        page, reset := pages(asked), resets(asked);
      }
    }
  }

  datatype Failure = Unreachable | ConflictLoop

  function AddReports(a: Report, b: Report): (sum: Report)
    ensures forall outcome :: Number(sum, outcome) == Number(a, outcome) + Number(b, outcome)
    ensures sum.conflicts == a.conflicts + b.conflicts && sum.manifests == a.manifests + b.manifests
  {
    Report(a.applied + b.applied, a.kept + b.kept, a.same + b.same, a.skipped + b.skipped,
           a.rejected + b.rejected, a.conflicts + b.conflicts, a.manifests + b.manifests)
  }

  /** How many of these are records, not manifests. */
  function RecordsAmong(es: seq<Envelope>): (n: nat)
    ensures n <= |es|
  {
    if es == [] then 0
    else RecordsAmong(es[..|es| - 1]) + if es[|es| - 1].id.kind.Manifest? then 0 else 1
  }

  lemma {:induction false} RecordsAreCounted(es: seq<Envelope>)
    ensures RecordsAmong(es) == |set i | 0 <= i < |es| && !es[i].id.kind.Manifest?|
  {
    var all := set i | 0 <= i < |es| && !es[i].id.kind.Manifest?;
    if es == [] {
      assert all == {};
    } else {
      var front := es[..|es| - 1];
      RecordsAreCounted(front);
      var before := set i | 0 <= i < |front| && !front[i].id.kind.Manifest?;
      assert all == before + if es[|front|].id.kind.Manifest? then {} else {|front|};
    }
  }

  /** No row is lost or made older, own manifests aside, and nothing starts to
      wait. */
  predicate Preserves(a: map<Id, Row>, b: map<Id, Row>) {
    && Drains(a, b)
    && forall id :: id in a && Plain(id) && !id.kind.Manifest? ==>
         id in b && AtMost(RowVersion(a[id]), RowVersion(b[id]))
  }

  /** No row of any kind starts to wait. */
  predicate StartsNothing(a: map<Id, Row>, b: map<Id, Row>) {
    forall id :: id in b && b[id].dirty ==> id in a && a[id].dirty
  }

  lemma NothingStarts(rows: map<Id, Row>)
    ensures StartsNothing(rows, rows)
  {
  }

  lemma StartsNothingTwice(a: map<Id, Row>, b: map<Id, Row>, c: map<Id, Row>)
    requires StartsNothing(a, b) && StartsNothing(b, c)
    ensures StartsNothing(a, c)
  {
  }

  lemma {:induction false} MarkedStartsNothing(rows: map<Id, Row>, pushed: seq<Pushed>)
    ensures StartsNothing(rows, MarkAll(rows, pushed))
    decreases |pushed|
  {
    if pushed != [] {
      MarkedStartsNothing(rows, pushed[..|pushed| - 1]);
    }
  }

  lemma {:induction false} AppliedAllStartsNothing(b: Batch, es: seq<Envelope>)
    ensures StartsNothing(b.device.rows, ApplyAll(b, es).device.rows)
    decreases |es|
  {
    if es != [] {
      AppliedAllStartsNothing(b, es[..|es| - 1]);
      AppliedStartsNothing(ApplyAll(b, es[..|es| - 1]).device, es[|es| - 1]);
    }
  }

  lemma AppliedStartsNothing(d: Device, e: Envelope)
    ensures StartsNothing(d.rows, ApplyOne(d, e).device.rows)
  {
    if Plain(e.id) {
      Batches.ApplyOneTouches(d, e);
      Batches.ApplyOneOwnRow(d, e);
      OwnRowDrains(d.vault, Batches.RowAt(d.rows, e.id), e);
    } else if Opens(e) && !e.deleted {
      HostKeyStartsNothing(d, e);
    }
  }

  lemma HostKeyStartsNothing(d: Device, e: Envelope)
    requires Opens(e) && e.blob.payload.HostKey?
    ensures StartsNothing(d.rows, InsertHostKey(d, e).device.rows)
  {
  }

  lemma ReceivedStartsNothing(d: Device, es: seq<Envelope>, now: u64)
    ensures StartsNothing(d.rows, ApplyEnvelopes(d, es, now).0.rows)
  {
    if es != [] { AppliedAllStartsNothing(Batch(d, NOTHING, None), InOrder(es)); }
  }

  lemma PreservesSame(rows: map<Id, Row>)
    ensures Preserves(rows, rows)
  {
  }

  lemma PreservesTwice(a: map<Id, Row>, b: map<Id, Row>, c: map<Id, Row>)
    requires Preserves(a, b) && Preserves(b, c)
    ensures Preserves(a, c)
  {
  }

  lemma PreservesShrinks(a: map<Id, Row>, b: map<Id, Row>)
    requires Preserves(a, b)
    ensures |Unsent(b)| <= |Unsent(a)|
    ensures Unsent(a) == {} ==> Unsent(b) == {}
  {
    DrainsIsSmaller(a, b);
  }

  lemma MarkedPreserves(rows: map<Id, Row>, pushed: seq<Pushed>)
    ensures Preserves(rows, MarkAll(rows, pushed))
  {
    MarkDrains(rows, pushed);
    Guarantees.MarkGrows(rows, pushed);
  }

  lemma AppliedPreserves(d: Device, es: seq<Envelope>, now: u64)
    ensures Preserves(d.rows, ApplyEnvelopes(d, es, now).0.rows)
  {
    ApplyDrains(d, es, now);
    ApplyOfAnyServerGrows(d, es, now);
  }

  // ----- Manifests -----

  lemma PublishesNothing(w: World)
    ensures Publishes(w, w)
  {
  }

  lemma ThenAdvances(a: World, b: World, c: World)
    requires Publishes(a, b) && Advances(b, c)
    ensures Publishes(a, c)
  {
    PublishesTwice(a, b, c);
  }

  lemma PublishPreserves(d: Device, now: u64)
    ensures Preserves(d.rows, Publish(d, now).rows)
    ensures Publish(d, now).cursor == d.cursor
  {
    if !UpToDate(d) { ManifestPreserves(d, ListingOf(d), now); }
  }

  lemma ManifestPreserves(d: Device, listing: Payload, now: u64)
    ensures Preserves(d.rows, PublishAs(d, listing, now).rows)
  {
  }

  lemma HonestPublish(w: World, now: u64, latest: u64, room: nat)
    requires WorldInv(w) && w.node.flight.Quiet?
    requires RoomFor(w.node.device.clock, latest, room + 1) && now <= latest
    ensures Roomy(w.node.device.clock, now)
    ensures var b := Do(w, PublishManifest(now));
            WorldInv(b) && Publishes(w, b) && RoomFor(b.node.device.clock, latest, room)
  {
    RoomForOneMore(w.node.device.clock, latest, room, now);
    StepKeeps(w, PublishManifest(now));
    StepPublishes(w, PublishManifest(now));
  }

  lemma NothingWritten(log: Log)
    ensures OnlyManifests(log, log)
  {
  }

  lemma ServeOneManifest(log: Log, e: Envelope)
    requires e.id.kind.Manifest?
    ensures OnlyManifests(log, Serve(log, [e]).log) && |Serve(log, [e]).log| <= |log| + 1
  {
    assert ServeAll(Reply(log, [], []), [e][..0]) == Reply(log, [], []);
  }

  /** What the last check found is no concern of the invariant's. */
  lemma ViolationsAreFree(w: World, violations: map<Id, Problem>)
    requires WorldInv(w) && w.node.flight.Quiet?
    ensures WorldInv(w.(node := w.node.(device := w.node.device.(violations := violations))))
  {
  }

  /** After a pull that reached the end, the check finds what it cannot help
      finding and nothing else. */
  lemma FlaggedIsUnavoidable(w: World, m: Id, entry: Entry)
    requires WorldInv(w) && w.node.whole && w.node.seen == |w.log|
    requires m in w.node.device.rows && m.kind.Manifest?
    requires var row := w.node.device.rows[m];
             !row.deleted && row.payload.Listing? && entry in row.payload.entries
    requires CheckEntry(w.node.device.rows, w.node.device.superseded, entry).Some?
    ensures Unavoidable(w.log, w.node.device, entry.id)
  {
    if Plain(entry.id) {
      Guarantees.AlarmMeansUnseenDelete(w, m, entry);
    }
  }

  // ----- Pages -----

  /** What a device is after a page, whoever sent it. The cursor never moves
      backwards. */
  ghost function TookPage(d: Device, page: Page, now: u64): Device {
    var after := ApplyEnvelopes(d, page.envelopes, now).0;
    if Stops(d, page, now) then after else after.(cursor := page.cursor)
  }

  /** A page that is empty, all made up, or leads nowhere. */
  ghost predicate Stops(d: Device, page: Page, now: u64) {
    || page.envelopes == []
    || ApplyEnvelopes(d, page.envelopes, now).1.rejected == |page.envelopes|
    || page.cursor <= d.cursor
  }

  /** What a page comes to: all that is on it is taken in. The cursor moves to the
      page's if that is further and something on the page could be read, and only if it
      moved is there more to ask for. */
  ghost predicate PageMeans(a: Device, page: Page, now: u64, b: Device, more: bool) {
    var (taken, report) := ApplyEnvelopes(a, page.envelopes, now);
    var onwards := report.rejected < |page.envelopes| && a.cursor < page.cursor;
    && b == taken.(cursor := if onwards then page.cursor else a.cursor)
    && (more <==> onwards && page.hasMore)
  }

  lemma TookPageMeans(d: Device, page: Page, now: u64)
    ensures PageMeans(d, page, now, TookPage(d, page, now), !Stops(d, page, now) && page.hasMore)
    ensures TookPage(d, page, now).cursor >= d.cursor
  {
    ApplyLeavesCursor(d, page.envelopes, now);
    Batches.EveryRecordIsCounted(Batch(d, NOTHING, None), InOrder(page.envelopes));
    assert |InOrder(page.envelopes)| == |multiset(page.envelopes)|;
  }

  lemma TookPreserves(d: Device, page: Page, now: u64)
    ensures Preserves(d.rows, TookPage(d, page, now).rows)
    ensures StartsNothing(d.rows, TookPage(d, page, now).rows)
  {
    AppliedPreserves(d, page.envelopes, now);
    ReceivedStartsNothing(d, page.envelopes, now);
  }

  /** With nothing to pull, a page changes nothing. */
  lemma EmptyPage(w: World, fits: nat, now: u64)
    requires WorldInv(w) && Past(w.log, w.node.device.cursor)
    ensures var d, page := w.node.device, Pull(w.log, w.node.device.cursor, fits);
            TookPage(d, page, now) == d && Stops(d, page, now)
  {
    NothingToPull(w.log, w.node.device.cursor, fits);
  }

  /** Where an honest page leads. `per` is how much a page holds at least. */
  lemma HonestPageLeads(w: World, fits: nat, now: u64, per: nat)
    requires WorldInv(w) && AllOpen(w.log) && per <= Max(1, Min(fits, MAX_BATCH))
    ensures var d, page := w.node.device, Pull(w.log, w.node.device.cursor, fits);
            && TookPage(d, page, now) == AfterPullRound(w, fits, now).node.device
            && AfterPullRound(w, fits, now).node.device.cursor == page.cursor
            && (page.hasMore ==> !Stops(d, page, now) && d.cursor + per <= page.cursor < |w.log|)
            && (!page.hasMore ==> Past(w.log, page.cursor))
  {
    var d := w.node.device;
    var page := Pull(w.log, d.cursor, fits);
    PageMoves(w.log, d.cursor, fits, per);
    ApplyRejectsNothing(w.log, w.ledger, d, page.envelopes, now);
    ApplyLeavesCursor(d, page.envelopes, now);
    assert page.cursor > d.cursor ==> page.envelopes != [];
  }

  /** The honest server's log can be read by everybody it is for. */
  lemma LogIsLegible(w: World)
    requires WorldInv(w) && AllOpen(w.log)
    ensures forall e :: e in w.log ==> Legible(w.node.device.vault, e)
  {
  }

  lemma HonestPageAdvances(w: World, fits: nat, now: u64, b: World)
    requires WorldInv(w) && AllOpen(w.log) && OnePerSlot(w.node.device.rows)
    requires b == AfterPullRound(w, fits, now) && Publishes(w, b)
    ensures Advances(w, b)
  {
    hide WorldInv, Publishes, Behind, StableSlots, Foreseen, OnePerSlot, AllOpen, Legible, Pull, ApplyEnvelopes;
    var d := w.node.device;
    var page := Pull(w.log, d.cursor, fits);
    LogIsLegible(w);
    WorldIsNumbered(w);
    PageSettles(d, w.log, fits, now);
    ApplyLeavesCursor(d, page.envelopes, now);
    ApplyDrains(d, page.envelopes, now);
    DrainsIsSmaller(d.rows, b.node.device.rows);
  }

  lemma WorldIsNumbered(w: World)
    requires WorldInv(w)
    ensures Numbered(w.log) && w.node.device.cursor <= |w.log|
  {
  }

  /** What an honest page comes to. */
  lemma HonestPage(w: World, fits: nat, now: u64, latest: u64, room: nat)
    requires WorldInv(w) && w.node.flight.Quiet? && AllOpen(w.log) && OnePerSlot(w.node.device.rows)
    requires RoomFor(w.node.device.clock, latest, room + 1) && now <= latest
    ensures var b := AfterPullRound(w, fits, now);
            WorldInv(b) && Advances(w, b) && RoomFor(b.node.device.clock, latest, room)
  {
    var d := w.node.device;
    ApplyTakesRoom(d, Pull(w.log, d.cursor, fits).envelopes, latest, room, now);
    PullRound(w, fits, now);
    HonestPageAdvances(w, fits, now, AfterPullRound(w, fits, now));
  }

  lemma ApplyLeavesCursor(d: Device, es: seq<Envelope>, now: u64)
    ensures var after := ApplyEnvelopes(d, es, now).0;
            && after.cursor == d.cursor && after.floor == d.floor
            && after.violations == d.violations && after.vault == d.vault
  {
    if es != [] {
      ApplyAllFrame(Batch(d, NOTHING, None), InOrder(es));
    }
  }

  /** What a device is after the answer to a push. */
  ghost function Handled(d: Device, es: seq<Envelope>, answer: Answer, now: u64): Device {
    ApplyEnvelopes(d.(rows := MarkAll(d.rows, Acks(es, answer.accepted))), answer.conflicts, now).0
  }

  /** Something was taken, and its row is as it was sent. */
  predicate Clears(rows: map<Id, Row>, es: seq<Envelope>, answer: Answer) {
    Acks(es, answer.accepted) != [] && Store.Cleared(rows, Acks(es, answer.accepted)) > 0
  }

  lemma HandledPreserves(d: Device, es: seq<Envelope>, answer: Answer, now: u64, after: Device)
    requires after == Handled(d, es, answer, now)
    ensures Preserves(d.rows, after.rows) && StartsNothing(d.rows, after.rows)
    ensures Clears(d.rows, es, answer) && (forall e :: e in es ==> e.id in Unsent(d.rows)) ==>
              |Unsent(after.rows)| < |Unsent(d.rows)|
  {
    var acks := Acks(es, answer.accepted);
    var marked := d.(rows := MarkAll(d.rows, acks));
    MarkedPreserves(d.rows, acks);
    AppliedPreserves(marked, answer.conflicts, now);
    MarkedStartsNothing(d.rows, acks);
    ReceivedStartsNothing(marked, answer.conflicts, now);
    PreservesTwice(d.rows, marked.rows, after.rows);
    if forall e :: e in es ==> e.id in Unsent(d.rows) {
      MarkShrinks(d.rows, acks);
      DrainsIsSmaller(marked.rows, after.rows);
    }
  }

  /** Rows of this device, as they are, each once. */
  predicate Sends(d: Device, es: seq<Envelope>) {
    && es != [] && DistinctIds(es)
    && forall e :: e in es ==>
         e.id in d.rows && d.rows[e.id].dirty && HasTable(e.id.kind) && e == EnvelopeOf(d, e.id)
  }

  predicate SendsRecords(d: Device, es: seq<Envelope>) {
    Sends(d, es) && forall e :: e in es ==> e.id in Unsent(d.rows)
  }

  ghost function AfterExchange(w: World, es: seq<Envelope>, now: u64): World {
    var reply := Serve(w.log, es);
    World(reply.log, w.ledger,
          Node(Handled(w.node.device, es, Answer(reply.accepted, reply.conflicts), now), Quiet, w.node.seen, false))
  }

  function Ids(es: seq<Envelope>): seq<Id> {
    seq(|es|, i requires 0 <= i < |es| => es[i].id)
  }

  lemma SendsIsOutgoing(d: Device, es: seq<Envelope>)
    requires Sends(d, es)
    ensures forall id :: id in Ids(es) ==> id in d.rows && d.rows[id].dirty && HasTable(id.kind)
    ensures forall i, j :: 0 <= i < j < |Ids(es)| ==> Ids(es)[i] != Ids(es)[j]
    ensures OutgoingAll(d, Ids(es)) == es
  {
    forall i | 0 <= i < |es|
      ensures Ids(es)[i] in d.rows && d.rows[Ids(es)[i]].dirty && HasTable(Ids(es)[i].kind)
      ensures EnvelopeOf(d, Ids(es)[i]) == es[i]
    {
      assert es[i] in es;
    }
  }

  lemma EnvelopesOpen(w: World, es: seq<Envelope>)
    requires WorldInv(w) && Sends(w.node.device, es) && Store.KeysAreKeys(w.node.device.rows)
    ensures forall e :: e in es ==> Opens(e)
  {
    forall e | e in es
      ensures Opens(e)
    {
      if Plain(e.id) { DirtyIsSendable(w.log, w.ledger, w.node.device, e.id); }
    }
  }

  /** An exchange with the honest server, as steps of the network. */
  lemma HonestExchange(w: World, es: seq<Envelope>, now: u64, latest: u64, room: nat)
    requires WorldInv(w) && w.node.flight.Quiet? && AllOpen(w.log)
    requires Sends(w.node.device, es) && Store.KeysAreKeys(w.node.device.rows)
    requires RoomFor(w.node.device.clock, latest, room + 1) && now <= latest
    ensures var b := AfterExchange(w, es, now);
            WorldInv(b) && Publishes(w, b) && AllOpen(b.log) && RoomFor(b.node.device.clock, latest, room)
  {
    var d := w.node.device;
    var reply := Serve(w.log, es);
    var marked := d.(rows := MarkAll(d.rows, Acks(es, reply.accepted)));
    SendsIsOutgoing(d, es);
    ApplyTakesRoom(marked, reply.conflicts, latest, room, now);
    assert AfterPushRound(w, Ids(es), now) == AfterExchange(w, es, now);
    PushRound(w, Ids(es), now);
    EnvelopesOpen(w, es);
    PushKeepsOpen(w.log, es);
  }

  /** What the honest server's answer comes to. */
  lemma HonestPush(w: World, b: World, es: seq<Envelope>, answer: Answer, now: u64)
    requires WorldInv(w) && SendsRecords(w.node.device, es) && OnePerSlot(w.node.device.rows)
    requires b == AfterExchange(w, es, now) && Publishes(w, b) && WorldInv(b) && AllOpen(b.log)
    requires var reply := Serve(w.log, es); answer == Answer(reply.accepted, reply.conflicts)
    ensures Advances(w, b)
    ensures answer.conflicts == [] ==> Clears(w.node.device.rows, es, answer)
    ensures Ready(w.log, w.node.device.rows) ==> answer.conflicts == []
    ensures !Clears(w.node.device.rows, es, answer) ==> IdsOf(es) <= Behind(w.log, w.node.device.rows)
    ensures StableSlots(w.log, w.node.device.rows) ==> Behind(b.log, b.node.device.rows) !! IdsOf(es)
  {
    hide WorldInv, Publishes, Behind, StableSlots, Foreseen, OnePerSlot, AllOpen, Legible, Serve, ApplyEnvelopes,
         Unsent, Acks, MarkAll, Store.Cleared;
    var d := w.node.device;
    WorldIsNumbered(w);
    LogIsLegible(b);
    SendsIsOutgoing(d, es);
    IdsAreIds(es);
    ApplyLeavesCursor(d.(rows := MarkAll(d.rows, Acks(es, answer.accepted))), answer.conflicts, now);
    ExchangeSettles(d, w.log, Ids(es), d.cursor, now);
    HonestAnswer(w, es, now);
    if Ready(w.log, d.rows) { PushOfReady(d, w.log, Ids(es)); }
    if !Clears(d.rows, es, answer) { NothingClearedMeansBehind(d, w.log, Ids(es)); }
  }

  lemma IdsAreIds(es: seq<Envelope>)
    ensures forall id :: id in IdsOf(es) <==> id in Ids(es)
  {
    forall id
      ensures id in IdsOf(es) <==> id in Ids(es)
    {
      if id in Ids(es) {
        var i :| 0 <= i < |es| && Ids(es)[i] == id;
        assert es[i] in es;
      }
      if Offered(es, id) {
        var i :| 0 <= i < |es| && es[i].id == id;
        assert Ids(es)[i] == id;
      }
    }
  }

  /** What it does to the number of rows that wait. */
  lemma HonestAnswer(w: World, es: seq<Envelope>, now: u64)
    requires Numbered(w.log) && SendsRecords(w.node.device, es)
    ensures var a, b := w.node.device.rows, AfterExchange(w, es, now);
            var reply := Serve(w.log, es);
            var acks := Acks(es, reply.accepted);
            && |b.log| + |Unsent(b.node.device.rows)| <= |w.log| + |Unsent(a)|
            && (reply.conflicts == [] ==> acks != [] && Store.Cleared(a, acks) > 0)
  {
    var d := w.node.device;
    var reply := Serve(w.log, es);
    var marked := d.(rows := MarkAll(d.rows, Acks(es, reply.accepted)));
    SendsIsOutgoing(d, es);
    PushMovesRows(d, w.log, Ids(es));
    ApplyDrains(marked, reply.conflicts, now);
    DrainsIsSmaller(marked.rows, AfterExchange(w, es, now).node.device.rows);
    if reply.conflicts == [] {
      PushWithoutConflicts(d, w.log, Ids(es));
    }
  }

  /** Offering rows whose deletes were passed over: each is refused, and cleared. */
  lemma SurprisedPush(w: World, es: seq<Envelope>, answer: Answer, now: u64)
    requires WorldInv(w) && AllOpen(w.log) && SendsRecords(w.node.device, es)
    requires Surprised(w.log, w.node.device.cursor, w.node.device.rows)
    requires var reply := Serve(w.log, es); answer == Answer(reply.accepted, reply.conflicts)
    ensures var b := AfterExchange(w, es, now);
            && b.log == w.log && |answer.conflicts| == |es| && !Clears(w.node.device.rows, es, answer)
            && Surprised(b.log, b.node.device.cursor, b.node.device.rows)
            && Unsent(b.node.device.rows) == Unsent(w.node.device.rows) - IdsOf(es)
  {
    hide WorldInv, Surprised, AllOpen, Legible, Serve, ApplyEnvelopes, Unsent, Acks, MarkAll;
    var d := w.node.device;
    LogIsLegible(w);
    SendsIsOutgoing(d, es);
    IdsAreIds(es);
    SurprisedExchange(d, w.log, Ids(es), now);
    ApplyLeavesCursor(d.(rows := MarkAll(d.rows, Acks(es, answer.accepted))), answer.conflicts, now);
    assert IdsOf(es) == set id | id in Ids(es);
  }

  /** What every honest step of a pass comes to: the log grows by what stops
      waiting, nothing falls behind, and no new surprise is among what waits. */
  predicate Advances(a: World, b: World) {
    var before, after := a.node.device, b.node.device;
    && Publishes(a, b)
    && |b.log| + |Unsent(after.rows)| <= |a.log| + |Unsent(before.rows)|
    && Behind(b.log, after.rows) <= Behind(a.log, before.rows)
    && (StableSlots(a.log, before.rows) ==>
          && StableSlots(b.log, after.rows)
          && (Foreseen(a.log, before.cursor, before.rows) ==> Foreseen(b.log, after.cursor, after.rows)))
  }

  function BehindOf(w: World): set<Id> {
    Behind(w.log, w.node.device.rows)
  }

  lemma BehindWaits(w: World)
    ensures BehindOf(w) <= Unsent(w.node.device.rows)
    ensures BehindOf(w) == {} <==> Ready(w.log, w.node.device.rows)
  {
  }

  lemma AdvancesSame(w: World)
    ensures Advances(w, w)
  {
  }

  lemma AdvancesPublishes(a: World, b: World)
    requires Advances(a, b)
    ensures Publishes(a, b)
  {
  }

  lemma AdvancesTwice(a: World, b: World, c: World)
    requires Advances(a, b) && Advances(b, c)
    ensures Advances(a, c)
  {
    PublishesTwice(a, b, c);
  }

  /** A problem the check cannot help finding, and no other: with a host key, with
      the manifest a device was told to wait for, or with a record this device
      never had and the server holds a delete of. */
  predicate Unavoidable(log: Log, d: Device, id: Id) {
    || !Plain(id)
    || (d.floor.Some? && d.floor.value.id == id)
    || (Last(log, id) >= 0 && log[Last(log, id)].deleted && (id in d.rows ==> d.rows[id].serverSeq == 0))
  }

  class Pass {
    const store: Store.Store
    const transport: Transport
    /** The latest the wall clock can show during the pass. */
    const latest: u64
    var pulled: nat
    var pushed: nat
    var conflicts: nat
    var rounds: nat
    var oversized: nat
    var apply: Report
    var withheld: Store.Withheld
    var complete: bool
    var cursor: nat
    /** Where this pass stands in the network; see `Net`. */
    ghost var ledger: Ledger
    ghost var seen: nat
    ghost var whole: bool

    ghost function State(): World
      reads this, store, transport
    {
      World(transport.log, ledger, Node(store.Model(), Quiet, seen, whole))
    }

    ghost predicate Valid()
      reads this, store, transport
    {
      && store.Valid()
      && (transport.honest ==> WorldInv(State()) && AllOpen(transport.log))
    }

    /** Against the honest server, the clock has room for `n` more steps. */
    ghost predicate HasRoom(n: int)
      reads store, transport
    {
      transport.honest ==> n >= 0 && RoomFor(store.clock, latest, n)
    }

    lemma Slackens(n: int, m: int)
      requires HasRoom(n) && 0 <= m <= n
      ensures HasRoom(m)
    {
    }

    /** This device has seen all the server has. */
    ghost predicate UpToNow()
      reads this, store, transport
    {
      whole && seen == |transport.log| && Past(transport.log, store.cursor)
    }

    /** Everything that waits can be sent. */
    ghost predicate AllFit()
      reads store
    {
      AllRowsFit(store.rows)
    }

    ghost predicate AllRowsFit(rows: map<Id, Row>) {
      forall id :: id in Unsent(rows) ==> store.RowFits(rows[id])
    }

    lemma FitsStay(a: map<Id, Row>, b: map<Id, Row>)
      requires Preserves(a, b) && AllRowsFit(a)
      ensures AllRowsFit(b)
    {
    }

    /** What is behind fits one request, with any one more row that waits. */
    ghost predicate OneRequest(log: Log, rows: map<Id, Row>) {
      && |Behind(log, rows)| <= MAX_BATCH
      && forall id :: id in Unsent(rows) ==> store.Weigh(rows, Behind(log, rows) + {id}) <= Store.MAX_BATCH_BYTES
    }

    /** What was behind and is not any more was a full request, or all of it. */
    ghost predicate TakesARequest(a: World, b: World) {
      && BehindOf(b) <= BehindOf(a)
      && (BehindOf(b) == {} || store.FullRequest(a.node.device.rows, BehindOf(a) - BehindOf(b), MAX_BATCH))
    }

    /** A request that was all behind, and is not any more, with the others where they
        were. */
    lemma RequestIsTaken(a: World, b: World, ids: set<Id>)
      requires Advances(a, b) && ids <= BehindOf(a) && BehindOf(b) !! ids
      requires ids <= a.node.device.rows.Keys && store.FillsRequest(a.node.device.rows, ids, MAX_BATCH)
      ensures TakesARequest(a, b)
    {
      hide Behind, Unsent, Store.Store.FullRequest;
      BehindWaits(a);
      if !(Unsent(a.node.device.rows) <= ids) {
        UnsentAreRows(a.node.device.rows);
        store.FullWithMore(a.node.device.rows, ids, BehindOf(a) - BehindOf(b), MAX_BATCH);
      }
    }

    lemma UnsentAreRows(rows: map<Id, Row>)
      ensures Unsent(rows) <= rows.Keys
    {
    }

    /** Seen from before, it still was. */
    lemma TakesFromEarlier(a: World, w: World, b: World)
      requires Advances(a, w) && Preserves(a.node.device.rows, w.node.device.rows) && TakesARequest(w, b)
      ensures TakesARequest(a, b)
    {
      hide Behind, Store.Store.FullRequest;
      var was, rows := a.node.device.rows, w.node.device.rows;
      if BehindOf(b) != {} {
        BehindWaits(a);
        BehindWaits(w);
        SameSizes(was, rows);
        store.FullBefore(was, rows, BehindOf(w) - BehindOf(b), MAX_BATCH);
        store.FullWithMore(was, BehindOf(w) - BehindOf(b), BehindOf(a) - BehindOf(b), MAX_BATCH);
      }
    }

    lemma SameSizes(a: map<Id, Row>, b: map<Id, Row>)
      requires Preserves(a, b)
      ensures Unsent(b) <= Unsent(a)
      ensures forall id :: id in Unsent(b) ==> store.RowSize(a[id]) == store.RowSize(b[id])
    {
    }

    /** And seen from later. */
    lemma TakesUntilLater(a: World, b: World, c: World)
      requires TakesARequest(a, b) && Advances(b, c)
      ensures TakesARequest(a, c)
    {
      hide Behind, Store.Store.FullRequest;
      if BehindOf(c) != {} {
        BehindWaits(a);
        store.FullWithMore(a.node.device.rows, BehindOf(a) - BehindOf(b), BehindOf(a) - BehindOf(c), MAX_BATCH);
      }
    }

    /** If all that was behind fits one request, nothing is behind any more. */
    lemma OneRequestIsAll(a: World, b: World)
      requires TakesARequest(a, b) && OneRequest(a.log, a.node.device.rows)
      ensures Ready(b.log, b.node.device.rows)
    {
      hide Behind, Store.Store.Weigh;
      var was, gone := BehindOf(a), BehindOf(a) - BehindOf(b);
      if BehindOf(b) != {} {
        BehindWaits(a);
        SmallerSet(gone, was);
        if |gone| < MAX_BATCH {
          var id :| id in Unsent(a.node.device.rows) && store.Overflows(a.node.device.rows, gone, id);
          store.WeighGrows(a.node.device.rows, gone + {id}, was + {id});
        }
      }
    }

    /** Of small rows that was as many as a request holds. */
    lemma CountShrinks(a: World, b: World)
      requires TakesARequest(a, b) && SmallRows(a.node.device.rows)
      ensures |BehindOf(b)| <= Max(|BehindOf(a)| - MAX_BATCH, 0)
    {
      hide Behind, Store.Store.FullRequest, Store.Store.RowSize;
      if BehindOf(b) != {} {
        var gone := BehindOf(a) - BehindOf(b);
        BehindWaits(a);
        store.SmallIsFullByNumber(a.node.device.rows, gone, MAX_BATCH);
        assert BehindOf(a) == BehindOf(b) + gone;
      }
    }

    /** How much is behind, in number and in bytes: a full request is `REQUEST` of it,
        whatever the sizes of its rows. */
    ghost function Load(w: World): nat {
      BehindWaits(w);
      |BehindOf(w)| * SPARE + MAX_BATCH * store.Weigh(w.node.device.rows, BehindOf(w))
    }

    lemma LoadShrinks(a: World, b: World)
      requires TakesARequest(a, b) && AllRowsFit(a.node.device.rows)
      requires Preserves(a.node.device.rows, b.node.device.rows)
      ensures Load(b) <= Max(Load(a) - REQUEST, 0)
    {
      hide Behind, Store.Store.FullRequest, Store.Store.RowSize, Store.Store.Weigh, Unsent, Store.Store.RowFits,
           Preserves;
      var was, left, gone := a.node.device.rows, BehindOf(b), BehindOf(a) - BehindOf(b);
      BehindWaits(a);
      BehindWaits(b);
      UnsentAreRows(was);
      UnsentAreRows(b.node.device.rows);
      SameSizes(was, b.node.device.rows);
      if left != {} {
        store.FullByWeight(was, gone, MAX_BATCH);
        assert BehindOf(a) == gone + left;
        store.WeighApart(was, gone, left);
        store.WeighIsSame(was, b.node.device.rows, left);
        RequestsLoad(|gone|, |left|, store.Weigh(was, gone), store.Weigh(was, left));
      } else {
        NoLoad(b.node.device.rows);
      }
    }

    lemma NoLoad(rows: map<Id, Row>)
      ensures store.Weigh(rows, {}) == 0
    {
    }

    static lemma RequestsLoad(gone: nat, left: nat, goneBytes: nat, leftBytes: nat)
      requires gone >= MAX_BATCH || goneBytes > SPARE
      ensures left * SPARE + MAX_BATCH * leftBytes + REQUEST <=
              (gone + left) * SPARE + MAX_BATCH * (goneBytes + leftBytes)
    {
    }

    lemma NothingBehindIsNoLoad(w: World)
      ensures BehindOf(w) == {} <==> Load(w) == 0
    {
      NoLoad(w.node.device.rows);
    }

    /** Rows so small that only their number limits a request. */
    ghost predicate SmallRows(rows: map<Id, Row>) {
      forall id :: id in Unsent(rows) ==> store.RowSize(rows[id]) * MAX_BATCH <= Store.MAX_BATCH_BYTES
    }

    /** All that waits are small live edits of records whose deletes were passed
        over, and there is nothing left to pull. */
    ghost predicate Worst(w: World) {
      && Surprised(w.log, w.node.device.cursor, w.node.device.rows) && SmallRows(w.node.device.rows)
    }

    lemma SmallFillsByNumber(rows: map<Id, Row>, ids: set<Id>)
      requires ids <= Unsent(rows) && |ids| <= MAX_BATCH && SmallRows(rows)
      requires store.FillsRequest(rows, ids, MAX_BATCH)
      ensures |ids| == Min(MAX_BATCH, |Unsent(rows)|)
    {
      hide Store.Store.FullRequest, Unsent;
      SmallerSet(ids, Unsent(rows));
      if Unsent(rows) <= ids {
        assert ids == Unsent(rows);
      } else {
        store.SmallIsFullByNumber(rows, ids, MAX_BATCH);
      }
    }

    lemma SmallFit(rows: map<Id, Row>)
      requires SmallRows(rows)
      ensures AllRowsFit(rows)
    {
    }

    constructor (store: Store.Store, transport: Transport, latest: u64,
                 ghost ledger: Ledger, ghost seen: nat, ghost whole: bool)
      requires store.Valid()
      requires transport.honest ==>
                 && AllOpen(transport.log)
                 && WorldInv(World(transport.log, ledger, Node(store.Model(), Quiet, seen, whole)))
      ensures Valid() && this.store == store && this.transport == transport && this.latest == latest
      ensures this.ledger == ledger && this.seen == seen && this.whole == whole
    {
      this.store, this.transport, this.latest := store, transport, latest;
      this.ledger, this.seen, this.whole := ledger, seen, whole;
      pulled, pushed, conflicts, rounds, oversized, apply := 0, 0, 0, 0, 0, NOTHING;
      withheld, complete, cursor := Store.Withheld(0, false), false, 0;
    }

    method Now() returns (now: u64)
      ensures now <= latest
    {
      now :| now <= latest;
    }

    // ----- Pushing -----

    /** What another server answered. */
    ghost predicate Answered(reply: Option<Answer>, failed: bool, answer: Answer) {
      (failed <==> reply.None?) && (reply.Some? ==> answer == reply.value)
    }

    /** One push and what follows from its answer. `moved` says that something was
        taken and cleared. */
    method Exchange(envelopes: seq<Envelope>, now: u64)
      returns (failed: bool, taken: nat, moved: bool, answer: Answer)
      requires store.Valid()
      modifies this`apply, store, transport
      ensures store.Valid() && transport.asked == old(transport.asked) + 1
      ensures failed ==> store.Model() == old(store.Model()) && taken == 0 && !moved && answer == Answer([], [])
      ensures !failed ==>
                && store.Model() == Handled(old(store.Model()), envelopes, answer, now)
                && taken == |Acks(envelopes, answer.accepted)|
                && (moved <==> Clears(old(store.rows), envelopes, answer))
      ensures if transport.honest then
                var reply := Serve(old(transport.log), envelopes);
                !failed && answer == Answer(reply.accepted, reply.conflicts) && transport.log == reply.log
              else transport.log == old(transport.log)
      ensures transport.offers == old(transport.offers) + [envelopes] && transport.asks == old(transport.asks)
      ensures !transport.honest ==> Answered(transport.answers(transport.asked), failed, answer)
      ensures !failed && answer.conflicts != [] ==>
                apply == AddReports(old(apply), ApplyEnvelopes(
                  old(store.Model()).(rows := MarkAll(old(store.rows), Acks(envelopes, answer.accepted))),
                  answer.conflicts, now).1)
    {
      moved := false;
      var reply := transport.Push(envelopes);
      if reply.None? {
        return true, 0, false, Answer([], []);
      }
      failed, answer := false, reply.value;
      var accepted := Acks(envelopes, answer.accepted);
      var cleared := store.MarkPushed(accepted);
      if answer.conflicts != [] {
        var report := store.ApplyEnvelopes(answer.conflicts, now);
        apply := AddReports(apply, report);
      }
      taken, moved := |accepted|, accepted != [] && cleared > 0;
    }

    /** Any records of this device, manifests among them. */
    method PushOnce(envelopes: seq<Envelope>, ghost room: nat)
      returns (failed: bool, taken: nat, moved: bool, answer: Answer, ghost now: u64)
      requires Valid() && HasRoom(room + 1) && Sends(store.Model(), envelopes)
      modifies this`apply, this`whole, store, transport
      ensures Valid() && HasRoom(room)
      ensures transport.asked == old(transport.asked) + 1
      ensures failed ==> store.Model() == old(store.Model()) && taken == 0 && !moved && answer == Answer([], [])
      ensures transport.offers == old(transport.offers) + [envelopes] && transport.asks == old(transport.asks)
      ensures !transport.honest ==> Answered(transport.answers(transport.asked), failed, answer)
      ensures !failed ==>
                && taken == |Acks(envelopes, answer.accepted)|
                && store.Model() == Handled(old(store.Model()), envelopes, answer, now)
                && (moved ==> Clears(old(store.rows), envelopes, answer))
      ensures transport.honest ==>
                && !failed && State() == AfterExchange(old(State()), envelopes, now)
                && Publishes(old(State()), State())
                && transport.log == Serve(old(transport.log), envelopes).log
                && answer == Answer(Serve(old(transport.log), envelopes).accepted,
                                    Serve(old(transport.log), envelopes).conflicts)
                && (Clears(old(store.rows), envelopes, answer) ==> moved)
    {
      hide WorldInv, Publishes, Handled, Clears;
      var time := Now();
      now := time;
      ghost var w := State();
      failed, taken, moved, answer := Exchange(envelopes, time);
      whole := false;
      if transport.honest {
        assert State() == AfterExchange(w, envelopes, now);
        HonestExchange(w, envelopes, now, latest, room);
      }
    }

    /** How many records an answer says were taken, and how many refused. */
    ghost predicate CountsAs(reply: Option<Answer>, es: seq<Envelope>, failed: bool, taken: nat, refused: nat) {
      && (failed <==> reply.None?)
      && (!failed ==> taken == |Acks(es, reply.value.accepted)| && refused == |reply.value.conflicts|)
    }

    /** Records: nothing is lost, and when something was taken less waits. Up to
        date with the honest server, everything is taken. */
    method PushRecords(envelopes: seq<Envelope>, ghost room: nat)
      returns (failed: bool, refused: nat, moved: bool)
      requires Valid() && HasRoom(room + 1) && SendsRecords(store.Model(), envelopes)
      modifies this`pushed, this`conflicts, this`apply, this`whole, store, transport
      ensures Valid() && HasRoom(room)
      ensures transport.offers == old(transport.offers) + [envelopes] && transport.asks == old(transport.asks)
      ensures pushed >= old(pushed) && conflicts == old(conflicts) + refused
      ensures !transport.honest ==>
                CountsAs(transport.answers(transport.asked), envelopes, failed, pushed - old(pushed), refused)
      ensures transport.honest ==>
                pushed - old(pushed) == |transport.log| - |old(transport.log)| == |envelopes| - refused
      ensures transport.asked == old(transport.asked) + 1
      ensures Preserves(old(store.rows), store.rows) && StartsNothing(old(store.rows), store.rows)
      ensures |Unsent(store.rows)| <= |Unsent(old(store.rows))|
      ensures moved ==> |Unsent(store.rows)| < |Unsent(old(store.rows))|
      ensures failed ==> pushed == old(pushed) && refused == 0
      ensures transport.honest ==>
                && !failed
                && Advances(old(State()), State())
                && (refused == 0 ==> moved)
                && (Ready(old(transport.log), old(store.rows)) ==> refused == 0)
                && (!moved ==> IdsOf(envelopes) <= BehindOf(old(State())))
                && (old(StableSlots(transport.log, store.rows)) ==> BehindOf(State()) !! IdsOf(envelopes))
                && (old(Surprised(transport.log, store.cursor, store.rows)) ==>
                      && !moved && refused == |envelopes| && transport.log == old(transport.log)
                      && Surprised(transport.log, store.cursor, store.rows)
                      && Unsent(store.rows) == old(Unsent(store.rows)) - IdsOf(envelopes))
    {
      hide WorldInv, Advances, Preserves, Behind, Surprised, StableSlots, RoomFor, AllOpen, OnePerSlot,
           Store.KeysAreKeys, Clears, Handled, Publishes, Unsent, IdsOf, Offered, Acks, Drains,
           AfterExchange, Foreseen, Ready;
      ghost var w := State();
      var taken, answer;
      ghost var now;
      failed, taken, moved, answer, now := PushOnce(envelopes, room);
      refused := |answer.conflicts|;
      pushed := pushed + taken;
      conflicts := conflicts + refused;
      PreservesSame(w.node.device.rows);
      if !failed {
        HandledPreserves(w.node.device, envelopes, answer, now, store.Model());
      }
      PreservesShrinks(w.node.device.rows, store.rows);
      if transport.honest {
        WorldIsNumbered(w);
        AnswerIsCounted(w.log, envelopes);
        HonestPush(w, State(), envelopes, answer, now);
        if Surprised(w.log, w.node.device.cursor, w.node.device.rows) {
          SurprisedPush(w, envelopes, answer, now);
        }
      }
    }
 
    method NextBatch() returns (envelopes: seq<Envelope>)
      modifies this`oversized
      ensures |envelopes| <= 500
      ensures AllFit() ==>
                && IdsOf(envelopes) <= Unsent(store.rows) && |IdsOf(envelopes)| == |envelopes|
                && store.FillsRequest(store.rows, IdsOf(envelopes), MAX_BATCH)
      ensures envelopes == [] && AllFit() ==> Unsent(store.rows) == {}
      ensures envelopes == [] ==> oversized >= MAX_BATCH || oversized == |store.Oversized(store.rows)|
      ensures envelopes != [] ==> SendsRecords(store.Model(), envelopes) && Unsent(store.rows) != {}
    {
      hide Store.Store.FillsRequest, Store.Store.Crowded, Store.Store.Oversized, IdsOf;
      var leftOut;
      store.NothingIsCrowded();
      envelopes, leftOut := store.PendingEnvelopes(MAX_BATCH);
      if envelopes != [] {
        assert store.Offers(envelopes[0]);
      }
      if AllFit() { store.AllFitIsFilled(envelopes, leftOut, MAX_BATCH); }
      oversized := leftOut;
    }

    /** Some pushes, with how many records refused: none if nothing was behind. */
    ghost predicate Pushes(a: World, b: World, refused: nat) {
      Advances(a, b) && (Ready(a.log, a.node.device.rows) ==> refused == 0)
    }

    lemma PushesTwice(a: World, b: World, c: World, m: nat, n: nat)
      requires Pushes(a, b, m) && Pushes(b, c, n)
      ensures Pushes(a, c, m + n)
    {
      hide Behind, StableSlots, Foreseen;
      AdvancesTwice(a, b, c);
    }

    lemma NothingIsTaken(w: World)
      requires Unsent(w.node.device.rows) == {}
      ensures TakesARequest(w, w)
    {
      BehindWaits(w);
    }

    lemma PushesNothing(w: World)
      ensures Pushes(w, w, 0)
    {
      AdvancesSame(w);
    }

    lemma SlotsStayStable(a: World, b: World, refused: nat)
      requires Pushes(a, b, refused) && StableSlots(a.log, a.node.device.rows)
      ensures StableSlots(b.log, b.node.device.rows)
    {
    }

    lemma TakesFromFirst(a: World, w: World, b: World, refused: nat)
      requires Pushes(a, w, refused) && Preserves(a.node.device.rows, w.node.device.rows) && TakesARequest(w, b)
      ensures TakesARequest(a, b)
    {
      TakesFromEarlier(a, w, b);
    }

    lemma FewerWait(a: set<Id>, ids: set<Id>, b: set<Id>)
      requires ids <= a && b == a - ids
      ensures |b| == |a| - |ids|
    {
      assert a == b + ids;
    }

    lemma SmallStays(a: map<Id, Row>, b: map<Id, Row>)
      requires SmallRows(a) && Preserves(a, b)
      ensures SmallRows(b)
    {
    }

    /** The next batch, if anything waits that can be sent. */
    method PushBatch(ghost room: nat) returns (failed: bool, none: bool, refused: nat, moved: bool)
      requires Valid() && HasRoom(room + 1)
      modifies this`pushed, this`conflicts, this`oversized, this`apply, this`whole, store, transport
      ensures Valid() && HasRoom(room)
      ensures Preserves(old(store.rows), store.rows) && StartsNothing(old(store.rows), store.rows)
      ensures |Unsent(store.rows)| <= |Unsent(old(store.rows))|
      ensures moved ==> |Unsent(store.rows)| < |Unsent(old(store.rows))|
      ensures transport.asked == old(transport.asked) + if none then 0 else 1
      ensures conflicts == old(conflicts) + refused
      ensures transport.asks == old(transport.asks)
      ensures none ==> transport.offers == old(transport.offers) && pushed == old(pushed)
                       && (oversized >= MAX_BATCH || oversized == |store.Oversized(store.rows)|)
      ensures !none ==>
                && |transport.offers| == |old(transport.offers)| + 1 && old(transport.offers) <= transport.offers
                && pushed >= old(pushed)
                && (!transport.honest ==>
                      CountsAs(transport.answers(transport.asked), transport.offers[|old(transport.offers)|],
                               failed, pushed - old(pushed), refused))
      ensures failed ==> pushed == old(pushed)
      ensures transport.honest ==> pushed - old(pushed) == |transport.log| - |old(transport.log)|
      ensures none ==> State() == old(State()) && !failed && !moved && refused == 0
      ensures failed ==> refused == 0
      ensures old(Unsent(store.rows)) == {} ==> none
      ensures none && old(AllFit()) ==> Unsent(store.rows) == {}
      ensures transport.honest ==>
                && !failed
                && Pushes(old(State()), State(), refused)
                && (!none && refused == 0 ==> moved)
                && (!moved && old(AllFit() && StableSlots(transport.log, store.rows)) ==>
                      TakesARequest(old(State()), State()))
      ensures transport.honest && old(Worst(State())) ==> !moved && HitByWorst(old(State()), State(), refused)
    {
      hide WorldInv, Advances, Drains, Preserves, Foreseen, Ready, RoomFor, OnePerSlot, Store.KeysAreKeys, AllOpen,
           Unsent, SendsRecords, AllRowsFit, Behind, StableSlots, Surprised, SmallRows,
           Store.Store.FillsRequest, TakesARequest, IdsOf, CountsAs, Store.Store.Oversized,
           HasRoom, HitByWorst, Worst;
      ghost var w, fit, worst := State(), AllFit(), transport.honest && Worst(State());
      if worst { WorstIsSurprised(w); }
      PreservesSame(store.rows);
      AdvancesSame(w);
      var envelopes := NextBatch();
      assert State() == w;
      if envelopes == [] {
        Slackens(room + 1, room);
        if Unsent(store.rows) == {} { NothingIsTaken(w); }
        if worst { WorstIsHit(w, w, {}, 0); }
        return false, true, 0, false;
      }
      none := false;
      if worst { SmallFillsByNumber(store.rows, IdsOf(envelopes)); }
      failed, refused, moved := PushRecords(envelopes, room);
      if transport.honest && fit && !moved && StableSlots(w.log, w.node.device.rows) {
        UnsentAreRows(w.node.device.rows);
        RequestIsTaken(w, State(), IdsOf(envelopes));
      }
      if worst { WorstIsHit(w, State(), IdsOf(envelopes), refused); }
    }

    lemma WorstIsSurprised(w: World)
      requires Worst(w)
      ensures Surprised(w.log, w.node.device.cursor, w.node.device.rows)
      ensures SmallRows(w.node.device.rows) && AllRowsFit(w.node.device.rows)
    {
      SmallFit(w.node.device.rows);
    }

    lemma WorstIsHit(w: World, b: World, ids: set<Id>, refused: nat)
      requires Worst(w) && Surprised(b.log, b.node.device.cursor, b.node.device.rows) && b.log == w.log
      requires Preserves(w.node.device.rows, b.node.device.rows)
      requires ids <= Unsent(w.node.device.rows) && Unsent(b.node.device.rows) == Unsent(w.node.device.rows) - ids
      requires refused == |ids| == Min(MAX_BATCH, |Unsent(w.node.device.rows)|)
      ensures HitByWorst(w, b, refused)
    {
      hide Surprised, Preserves, Unsent, SmallRows;
      SmallStays(w.node.device.rows, b.node.device.rows);
      FewerWait(Unsent(w.node.device.rows), ids, Unsent(b.node.device.rows));
    }

    /** What became of the worst case: one request's worth of rows refused and
        cleared, and nothing else. */
    ghost predicate HitByWorst(a: World, b: World, refused: nat) {
      && Worst(b) && b.log == a.log
      && refused == Min(MAX_BATCH, |Unsent(a.node.device.rows)|)
      && |Unsent(b.node.device.rows)| == |Unsent(a.node.device.rows)| - refused
    }

    /** Everything that waits, in batches. Whatever the server answers this ends:
        each request but the last leaves less waiting. With the honest one and
        without a conflict, nothing is left. */
    method PushAll(ghost room: nat) returns (failed: bool, refused: nat)
      requires Valid() && HasRoom(room + |Unsent(store.rows)| + 1)
      modifies this`pushed, this`conflicts, this`oversized, this`apply, this`whole, store, transport
      ensures Valid() && HasRoom(room + |Unsent(store.rows)|)
      ensures Preserves(old(store.rows), store.rows) && StartsNothing(old(store.rows), store.rows)
      ensures transport.asked + |Unsent(store.rows)| <= old(transport.asked + |Unsent(store.rows)|) + 1
      ensures transport.honest ==>
                && !failed
                && Pushes(old(State()), State(), refused)
                && (refused == 0 && old(AllFit()) ==> Unsent(store.rows) == {})
                && (old(AllFit() && StableSlots(transport.log, store.rows)) ==>
                      TakesARequest(old(State()), State()))
      ensures old(Unsent(store.rows)) == {} ==> State() == old(State()) && refused == 0 && !failed
      ensures transport.honest && old(Worst(State())) ==> HitByWorst(old(State()), State(), refused)
      ensures conflicts == old(conflicts) + refused
      ensures transport.asks == old(transport.asks)
      ensures transport.honest ==> pushed - old(pushed) == |transport.log| - |old(transport.log)|
    {
      hide WorldInv, Advances, Drains, Preserves, Foreseen, Ready, RoomFor, OnePerSlot, Store.KeysAreKeys, AllOpen,
           Unsent, AllRowsFit, Behind, StableSlots, Surprised, SmallRows, HitByWorst, Worst, Pushes, Valid,
           HasRoom, TakesARequest;
      ghost var a, asked, refusedBefore := State(), transport.asked, conflicts;
      ghost var start, fit, worst := a.node.device.rows, AllFit(), transport.honest && Worst(State());
      PreservesSame(start);
      NothingStarts(start);
      PushesNothing(a);
      failed, refused := false, 0;
      while true
        invariant Valid() && HasRoom(room + |Unsent(store.rows)| + 1) && !failed
        invariant Preserves(start, store.rows) && StartsNothing(start, store.rows)
        invariant transport.asked + |Unsent(store.rows)| <= asked + |Unsent(start)|
        invariant transport.honest ==> Pushes(a, State(), refused)
        invariant Unsent(start) == {} || worst ==> State() == a && refused == 0
        invariant conflicts == refusedBefore + refused && transport.asks == old(transport.asks)
        invariant transport.honest ==> pushed - old(pushed) == |transport.log| - |a.log|
        decreases |Unsent(store.rows)|
      {
        ghost var w := State();
        ghost var left := |Unsent(store.rows)|;
        if fit { FitsStay(start, store.rows); }
        if transport.honest && StableSlots(a.log, start) { SlotsStayStable(a, w, refused); }
        var none, more, moved;
        failed, none, more, moved := PushBatch(room + left);
        PreservesTwice(start, w.node.device.rows, store.rows);
        StartsNothingTwice(start, w.node.device.rows, store.rows);
        Slackens(room + left, room + |Unsent(store.rows)|);
        if failed {
          return;
        }
        if transport.honest { PushesTwice(a, w, State(), refused, more); }
        ghost var before := refused;
        refused := refused + more;
        if !moved {
          if transport.honest && fit && StableSlots(a.log, start) { TakesFromFirst(a, w, State(), before); }
          return;
        }
        Slackens(room + left, room + |Unsent(store.rows)| + 1);
      }
    }

    // ----- Pulling -----

    method TakePage(page: Page, now: u64) returns (more: bool)
      requires store.Valid()
      modifies this`pulled, this`apply, store
      ensures store.Valid() && store.Model() == TookPage(old(store.Model()), page, now)
      ensures more <==> !Stops(old(store.Model()), page, now) && page.hasMore
      ensures pulled == old(pulled) + |set i | 0 <= i < |page.envelopes| && !page.envelopes[i].id.kind.Manifest?|
      ensures apply == AddReports(old(apply), ApplyEnvelopes(old(store.Model()), page.envelopes, now).1)
    {
      ghost var d := store.Model();
      RecordsAreCounted(page.envelopes);
      if page.envelopes == [] {
        return false;
      }
      pulled := pulled + RecordsAmong(page.envelopes);
      var report := store.ApplyEnvelopes(page.envelopes, now);
      ApplyLeavesCursor(d, page.envelopes, now);
      apply := AddReports(apply, report);
      if report.rejected == |page.envelopes| || page.cursor <= store.cursor {
        return false;
      }
      store.SetCursor(page.cursor);
      return page.hasMore;
    }

    /** One page, whoever answers. `more` says that the loop goes on, `done` that the
        end was reached, or what the server would have it be. Told to start over it
        does, unless it was at the start. */
    method PullOnce(ghost room: nat, ghost per: nat)
      returns (failed: bool, more: bool, done: bool, ghost now: u64)
      requires Valid() && HasRoom(room + 1)
      requires transport.honest ==> forall n :: per <= Max(1, Min(transport.fits(n), MAX_BATCH))
      modifies this`pulled, this`apply, this`seen, this`whole, store, transport`asked, transport`asks
      ensures Valid() && HasRoom(room)
      ensures transport.asked == old(transport.asked) + 1
      ensures transport.asks == old(transport.asks) + [old(store.cursor)]
      ensures Preserves(old(store.rows), store.rows) && StartsNothing(old(store.rows), store.rows)
      ensures more ==> !failed && !done
      ensures failed <==> PageAt(transport.asked, old(store.cursor)).None?
      ensures failed ==> store.Model() == old(store.Model()) && !done
      ensures ResetAt(transport.asked) ==>
                && store.Model() == old(store.Model()).(cursor := 0)
                && (more <==> old(store.cursor) > 0) && !done
      ensures !failed && !ResetAt(transport.asked) ==>
                && PageMeans(old(store.Model()), PageAt(transport.asked, old(store.cursor)).value, now,
                             store.Model(), more)
                && done == !more && store.cursor >= old(store.cursor)
                && (more ==> store.cursor > old(store.cursor))
                && (done ==> IsLast(PageAt(transport.asked, old(store.cursor)).value, old(store.cursor), store.cursor))
      ensures transport.honest ==>
                && !failed && (more || done)
                && Advances(old(State()), State())
                && (more ==> old(store.cursor) + per <= store.cursor < |transport.log|)
                && (done ==> UpToNow())
                && (old(Past(transport.log, store.cursor)) ==> !more && store.Model() == old(store.Model()))
    {
      hide WorldInv, Advances, Drains, Past, TookPage, Stops, ApplyEnvelopes, Server.Pull, Preserves;
      ghost var w := State();
      var time := Now();
      now := time;
      var since := store.cursor;
      var page, reset := transport.Pull(since);
      PreservesSame(store.rows);
      failed, more, done := page.None?, false, false;
      if failed {
        return;
      }
      if reset {
        if since == 0 {
          return;
        }
        store.SetCursor(0);
        more := true;
        return;
      }
      more := TakePage(page.value, time);
      done := !more;
      seen, whole := if more then seen else |transport.log|, !more;
      TookPreserves(w.node.device, page.value, now);
      TookPageMeans(w.node.device, page.value, now);
      if transport.honest {
        if Past(w.log, w.node.device.cursor) { EmptyPage(w, transport.fits(transport.asked), now); }
        HonestPageLeads(w, transport.fits(transport.asked), now, per);
        HonestPage(w, transport.fits(transport.asked), now, latest, room);
        assert State() == AfterPullRound(w, transport.fits(transport.asked), now);
      }
    }

    /** What the n-th request is answered with if it asks for a page. */
    ghost function PageAt(n: nat, since: nat): Option<Page>
      reads transport`log
    {
      if transport.honest then Some(Server.Pull(transport.log, since, transport.fits(n))) else transport.pages(n)
    }

    /** Whether it is answered with the word to start over. */
    ghost predicate ResetAt(n: nat) {
      !transport.honest && transport.pages(n).Some? && transport.resets(n)
    }

    /** A page after which there is nothing to ask for: it says so, or it leads nowhere. */
    ghost predicate IsLast(page: Page, since: nat, cursor: nat) {
      !page.hasMore || cursor == since
    }

    /** The cursors pages were asked for from since a request: the first where the
        device stood, each of the others further on, or at the start after an answer
        that said so. */
    ghost predicate AsksOn(asks: seq<nat>, before: nat, cursor: nat) {
      && asks != [] && asks[0] == cursor
      && forall k :: 0 < k < |asks| ==>
           GoesTo(ResetAt(before + k), asks[k - 1], asks[k])
    }

    /** Where a device that goes on asks next. */
    predicate GoesTo(reset: bool, from: nat, to: nat) {
      if reset then to == 0 < from else from < to
    }

    /** Where some requests have led: on from where they started, unless one of them was
        answered with a reset. */
    ghost predicate AskedOn(asks: seq<nat>, before: nat, cursor: nat, after: nat) {
      && (asks == [] ==> after == cursor)
      && (asks != [] ==>
            && AsksOn(asks, before, cursor)
            && if ResetAt(before + |asks|) then after == 0 else asks[|asks| - 1] <= after)
      && ((forall n :: before < n <= before + |asks| ==> !ResetAt(n)) ==> cursor <= after)
    }

    /** How a pull ends: with no answer, with a page after which there is nothing to ask
        for, told to start over when it was at the start, or with as many pages as it
        asks for at most. */
    ghost predicate EndsPull(n: nat, since: nat, cursor: nat, failed: bool, done: bool, most: bool)
      reads transport`log
    {
      var page := PageAt(n, since);
      && (failed <==> page.None?)
      && (done ==> !failed && !ResetAt(n) && IsLast(page.value, since, cursor))
      && (!failed && !done && !most ==> ResetAt(n) && since == 0)
    }

    lemma AsksOneMore(asks: seq<nat>, before: nat, cursor: nat, from: nat, after: nat)
      requires AskedOn(asks, before, cursor, from)
      requires asks != [] ==> if ResetAt(before + |asks|) then asks[|asks| - 1] > 0 else asks[|asks| - 1] < from
      requires if ResetAt(before + |asks| + 1) then after == 0 else from <= after
      ensures AskedOn(asks + [from], before, cursor, after)
    {
      var all := asks + [from];
      assert all[|asks|] == from;
      forall k | 0 < k < |all|
        ensures GoesTo(ResetAt(before + k), all[k - 1], all[k])
      {
        if k < |asks| { assert all[k] == asks[k] && all[k - 1] == asks[k - 1]; }
      }
      assert all[0] == cursor;
    }

    /** Everything the server has that is not here yet. Any server is asked a
        thousand times at most, and each time further on, unless it says to start over.
        The honest one is heard to the end if its pages reach that far. */
    method PullAll(ghost room: nat, ghost per: nat) returns (failed: bool, done: bool)
      requires Valid() && HasRoom(room + MAX_PAGES)
      requires transport.honest ==> forall n :: per <= Max(1, Min(transport.fits(n), MAX_BATCH))
      modifies this`pulled, this`apply, this`seen, this`whole, store, transport`asked, transport`asks
      ensures Valid() && HasRoom(room)
      ensures old(transport.asked) < transport.asked <= old(transport.asked) + 1000
      ensures Preserves(old(store.rows), store.rows) && StartsNothing(old(store.rows), store.rows)
      ensures old(transport.asks) <= transport.asks
      ensures |transport.asks| - |old(transport.asks)| == transport.asked - old(transport.asked)
      ensures transport.asks[|old(transport.asks)|] == old(store.cursor)
      ensures AskedOn(transport.asks[|old(transport.asks)|..], old(transport.asked), old(store.cursor), store.cursor)
      ensures (forall n :: old(transport.asked) < n <= transport.asked ==> !ResetAt(n)) ==>
                store.cursor >= old(store.cursor)
      ensures EndsPull(transport.asked, transport.asks[|transport.asks| - 1], store.cursor, failed, done,
                       transport.asked == old(transport.asked) + 1000)
      ensures transport.honest ==>
                && !failed
                && Advances(old(State()), State())
                && (done ==> UpToNow())
                && (|transport.log| <= old(store.cursor) + MAX_PAGES * per ==> done)
                && (old(Past(transport.log, store.cursor)) ==> store.Model() == old(store.Model()))
    {
      hide WorldInv, Advances, Drains, Preserves, Past, RoomFor, OnePerSlot, Store.KeysAreKeys, AllOpen,
           PageMeans, AskedOn, Valid, HasRoom, PageAt, ResetAt, IsLast;
      PreservesSame(store.rows);
      AdvancesSame(State());
      failed, done := false, false;
      var k := 0;
      ghost var cursor, asked, asks := store.cursor, transport.asked, transport.asks;
      NothingAsked(asks, asked, cursor);
      while k < MAX_PAGES
        invariant k <= MAX_PAGES && !failed && !done && Valid() && HasRoom(room + (MAX_PAGES - k))
        invariant transport.asked == asked + k && |transport.asks| == |asks| + k && asks <= transport.asks
        invariant AskedOn(transport.asks[|asks|..], asked, cursor, store.cursor)
        invariant k > 0 ==>
                    var last := transport.asks[|transport.asks| - 1];
                    && PageAt(transport.asked, last).Some?
                    && if ResetAt(transport.asked) then last > 0 else last < store.cursor
        invariant Preserves(old(store.rows), store.rows) && StartsNothing(old(store.rows), store.rows)
        invariant transport.honest ==> Advances(old(State()), State())
        invariant transport.honest ==> store.cursor >= old(store.cursor) + k * per
        invariant transport.honest && k > 0 ==> store.cursor < |transport.log|
        invariant transport.honest && old(Past(transport.log, store.cursor)) ==> k == 0
        invariant k == 0 ==> store.Model() == old(store.Model())
      {
        ghost var w, before := State(), transport.asks;
        assert room + (MAX_PAGES - k) == (room + (MAX_PAGES - (k + 1))) + 1;
        var more;
        ghost var now;
        failed, more, done, now := PullOnce(room + (MAX_PAGES - (k + 1)), per);
        PreservesTwice(old(store.rows), w.node.device.rows, store.rows);
        StartsNothingTwice(old(store.rows), w.node.device.rows, store.rows);
        if transport.honest { AdvancesTwice(old(State()), w, State()); }
        assert transport.asks[|asks|..] == before[|asks|..] + [w.node.device.cursor];
        AsksOneMore(before[|asks|..], asked, cursor, w.node.device.cursor, store.cursor);
        k := k + 1;
        if !more {
          Slackens(room + (MAX_PAGES - k), room);
          AskedOnwards(transport.asks[|asks|..], asked, cursor, store.cursor);
          assert transport.asks[|asks|..][0] == transport.asks[|asks|];
          return;
        }
        assert k * per == (k - 1) * per + per;
      }
      AskedOnwards(transport.asks[|asks|..], asked, cursor, store.cursor);
      assert transport.asks[|asks|..][0] == transport.asks[|asks|];
    }

    lemma NothingAsked(asks: seq<nat>, before: nat, cursor: nat)
      ensures AskedOn(asks[|asks|..], before, cursor, cursor)
    {
    }

    lemma AskedOnwards(asks: seq<nat>, before: nat, cursor: nat, after: nat)
      requires AskedOn(asks, before, cursor, after)
      ensures (forall n :: before < n <= before + |asks| ==> !ResetAt(n)) ==> cursor <= after
      ensures asks != [] ==> asks[0] == cursor
    {
    }

    // ----- Manifests -----

    /** A device before and after its manifest was written: the manifest is right, and
        was written only if it was not the one held. */
    static ghost predicate Refreshed(a: Device, b: Device) {
      var id := ManifestId(a.me);
      && id in b.rows && !b.rows[id].deleted && IsManifestOf(a.rows, a.me, b.rows[id].payload)
      && b.me == a.me && b.vault == a.vault && b.rows == a.rows[id := b.rows[id]]
      && if id in a.rows && !a.rows[id].deleted && a.rows[id].payload == b.rows[id].payload then b == a
         else b.rows[id].dirty
    }

    /** No other device's manifest waits here to be sent. */
    static predicate OnlyOwnWaits(d: Device) {
      forall id :: id in d.rows && id.kind.Manifest? && d.rows[id].dirty ==> id == ManifestId(d.me)
    }

    /** What is offered of a device's manifest: what it lists is right, and it is offered
        unless the server has it already or it is too large. */
    ghost predicate Announces(d: Device, before: seq<seq<Envelope>>, after: seq<seq<Envelope>>) {
      var id := ManifestId(d.me);
      exists listing ::
        && IsManifestOf(d.rows, d.me, listing)
        && if || (id in d.rows && !d.rows[id].deleted && d.rows[id].payload == listing && !d.rows[id].dirty)
              || store.sealedBytes(listing) > MAX_BLOB_BYTES
           then after == before
           else exists e :: after == before + [[e]] && e.id == id && !e.deleted && e.vault == d.vault
                            && e.blob == Sealed(d.vault, id, e.clock, false, listing)
    }

    lemma OffersIt(a: Device, b: Device, before: seq<seq<Envelope>>, manifest: Option<Envelope>)
      requires Refreshed(a, b) && OnlyOwnWaits(a) && b == store.Model()
      requires manifest.Some? ==> store.Manifested(manifest.value) && store.SizeOf(manifest.value) <= MAX_BLOB_BYTES
      requires manifest.None? ==> forall id :: id in b.rows && id.kind.Manifest? && b.rows[id].dirty ==>
                 exists large :: large in b.rows && large.kind.Manifest? && b.rows[large].dirty && !store.Fits(large)
      ensures Announces(a, before, if manifest.None? then before else before + [[manifest.value]])
    {
      hide IsManifestOf;
      var id := ManifestId(a.me);
      var listing := b.rows[id].payload;
      assert forall other :: other in b.rows && other.kind.Manifest? && b.rows[other].dirty ==> other == id;
      assert store.sealedBytes(listing) == store.RowSize(b.rows[id]);
    }

    /** Write this device's manifest, if it changed. */
    method Refresh(ghost room: nat)
      requires Valid() && HasRoom(room + 1)
      modifies this`ledger, store
      ensures Valid() && HasRoom(room)
      ensures Preserves(old(store.rows), store.rows) && store.cursor == old(store.cursor)
      ensures seen == old(seen) && whole == old(whole)
      ensures transport.honest ==> Publishes(old(State()), State())
      ensures Refreshed(old(store.Model()), store.Model())
    {
      hide WorldInv, Publishes, Preserves, UpToDate, ListingOf, Past, AllOpen, IsManifestOf;
      var now := Now();
      ghost var w := State();
      PublishPreserves(w.node.device, now);
      var changed := store.RefreshManifest(now);
      if changed {
        ledger := PublishLedger(transport.log, ledger, w.node.device, ListingOf(w.node.device), now);
      }
      if transport.honest {
        HonestPublish(w, now, latest, room);
        assert State() == Do(w, Action.PublishManifest(now));
      }
    }

    /** This device's manifest, on its own, after everything it lists. */
    method PublishManifest(ghost room: nat, ghost per: nat) returns (failed: bool, done: bool)
      requires Valid() && HasRoom(room + MAX_PAGES + 2) && (transport.honest ==> UpToNow())
      requires transport.honest ==> forall n :: per <= Max(1, Min(transport.fits(n), MAX_BATCH))
      modifies this`pulled, this`apply, this`ledger, this`seen, this`whole, store, transport
      ensures Valid() && HasRoom(room)
      ensures old(transport.asked) <= transport.asked <= old(transport.asked) + MAX_PAGES + 1
      ensures Preserves(old(store.rows), store.rows)
      ensures transport.honest ==>
                && !failed
                && Publishes(old(State()), State())
                && OnlyManifests(old(transport.log), transport.log)
                && |old(transport.log)| <= |transport.log| <= |old(transport.log)| + 1
                && (done ==> UpToNow())
                && (|old(transport.log)| + 1 <= MAX_PAGES * per ==> done)
      ensures old(OnlyOwnWaits(store.Model())) ==>
                Announces(old(store.Model()), old(transport.offers), transport.offers)
      ensures !failed && !done ==> transport.asked > old(transport.asked)
    {
      hide WorldInv, Publishes, Drains, Preserves, Past, RoomFor, OnePerSlot, Store.KeysAreKeys, AllOpen,
           OnlyManifests, AfterExchange, Handled, Clears, Announces, Refreshed, OnlyOwnWaits, AskedOn,
           EndsPull, StartsNothing, Answered;
      ghost var a := State();
      ghost var start := a.node.device.rows;
      Refresh(room + MAX_PAGES + 1);
      ghost var refreshed := State();
      NothingWritten(a.log);
      var manifest := store.PendingManifest();
      if OnlyOwnWaits(a.node.device) {
        OffersIt(a.node.device, store.Model(), transport.offers, manifest);
      }
      if manifest.None? {
        Slackens(room + MAX_PAGES + 1, room);
        return false, true;
      }
      failed, done := OfferManifest(manifest.value, room, per);
      PreservesTwice(start, refreshed.node.device.rows, store.rows);
      if transport.honest { PublishesTwice(a, refreshed, State()); }
    }

    /** One push of a manifest, and if it was answered a pull to the end. A manifest that
        does not get through is left for the next pass. */
    method OfferManifest(manifest: Envelope, ghost room: nat, ghost per: nat) returns (failed: bool, done: bool)
      requires Valid() && HasRoom(room + MAX_PAGES + 1) && store.Manifested(manifest)
      requires transport.honest ==> forall n :: per <= Max(1, Min(transport.fits(n), MAX_BATCH))
      modifies this`pulled, this`apply, this`seen, this`whole, store, transport
      ensures Valid() && HasRoom(room)
      ensures old(transport.asked) < transport.asked <= old(transport.asked) + MAX_PAGES + 1
      ensures transport.offers == old(transport.offers) + [[manifest]]
      ensures if transport.honest || transport.answers(old(transport.asked) + 1).Some? then
                |transport.asks| > |old(transport.asks)|
              else !failed && done && transport.asks == old(transport.asks)
      ensures Preserves(old(store.rows), store.rows)
      ensures transport.honest ==>
                && !failed
                && Publishes(old(State()), State())
                && OnlyManifests(old(transport.log), transport.log)
                && |old(transport.log)| <= |transport.log| <= |old(transport.log)| + 1
                && (done ==> UpToNow())
                && (|old(transport.log)| + 1 <= MAX_PAGES * per ==> done)
    {
      hide WorldInv, Publishes, Drains, Preserves, Past, RoomFor, OnePerSlot, Store.KeysAreKeys, AllOpen,
           OnlyManifests, AfterExchange, Handled, Clears, AskedOn, EndsPull, StartsNothing;
      ghost var a := State();
      var unheard, taken, moved, answer;
      ghost var now;
      unheard, taken, moved, answer, now := PushOnce([manifest], room + MAX_PAGES);
      if unheard {
        Slackens(room + MAX_PAGES, room);
        PreservesSame(store.rows);
        return false, true;
      }
      ghost var pushed := State();
      failed, done := PullAll(room, per);
      HandledPreserves(a.node.device, [manifest], answer, now, pushed.node.device);
      PreservesTwice(a.node.device.rows, pushed.node.device.rows, store.rows);
      if transport.honest {
        ServeOneManifest(a.log, manifest);
        PublishesTwice(a, pushed, State());
      }
    }

    /** Nothing this check found could have been found differently. */
    ghost predicate OnlyUnavoidable()
      reads this, store, transport
    {
      forall id :: id in store.violations ==> Unavoidable(transport.log, store.Model(), id)
    }

    method CheckNow() returns (found: Store.Withheld)
      requires Valid() && (transport.honest ==> UpToNow())
      modifies store`violations
      ensures Valid()
      ensures found == Store.WithheldOf(store.violations) && store.Tells(found)
      ensures transport.honest ==> OnlyUnavoidable()
      ensures Publishes(old(State()), State())
    {
      ghost var w := State();
      found := store.CheckManifests();
      if transport.honest {
        ViolationsAreFree(w, store.violations);
        forall id | id in store.violations
          ensures Unavoidable(transport.log, store.Model(), id)
        {
          if store.Flagged(id, store.violations[id]) {
            var m, entry :| store.Claims(m, entry) && entry.id == id
                            && CheckEntry(store.rows, store.superseded, entry) == Some(store.violations[id]);
            FlaggedIsUnavoidable(w, m, entry);
          }
        }
      }
    }

    /** Start over. */
    method RewindCursor()
      requires Valid()
      modifies store`cursor
      ensures Valid() && store.cursor == 0
      ensures Publishes(old(State()), State())
    {
      ghost var w := State();
      store.SetCursor(0);
      if transport.honest {
        StepDoes(w, Rewind, State());
      }
    }
 
    /** What the pass says the server kept back. A complete pass says it by what is here:
        no record exactly if every live manifest's every entry was here, or something
        newer, and the manifest to wait for is here; host keys exactly if one of them is
        missing, or could be. An incomplete one never says nothing. */
    ghost predicate Reports()
      reads this, store
    {
      && withheld == Store.WithheldOf(store.violations)
      && if complete then store.Tells(withheld) else withheld.records > 0 && withheld.hostKeys
    }

    /** An earlier check found something. */
    predicate Alarmed()
      reads this, store
    {
      exists id :: id in store.violations && (store.violations[id].Missing? || store.violations[id].Older?)
    }

    /** Hold every manifest against what is here, and before the first alarm pull
        everything again, from the start: exactly if something is missing and no check
        has found anything before. */
    method Check(ghost room: nat, ghost per: nat) returns (failed: bool)
      requires Valid() && HasRoom(room + MAX_PAGES) && (transport.honest && complete ==> UpToNow())
      requires transport.honest ==> forall n :: per <= Max(1, Min(transport.fits(n), MAX_BATCH))
      modifies this`complete, this`withheld, this`pulled, this`apply, this`seen, this`whole, store,
               transport`asked, transport`asks
      ensures Valid() && HasRoom(room)
      ensures old(transport.asked) <= transport.asked <= old(transport.asked) + MAX_PAGES
      ensures Preserves(old(store.rows), store.rows)
      ensures complete ==> old(complete)
      ensures old(transport.asks) <= transport.asks
      ensures transport.asked > old(transport.asked) <==>
                && old(complete && !store.NothingMissing())
                && forall id :: id in old(store.violations) ==>
                     !old(store.violations)[id].Missing? && !old(store.violations)[id].Older?
      ensures transport.asked > old(transport.asked) ==>
                |transport.asks| > |old(transport.asks)| && transport.asks[|old(transport.asks)|] == 0
      ensures transport.asked == old(transport.asked) ==> !failed && complete == old(complete)
      ensures !old(complete) ==> store.violations == old(store.violations)[Id(Kind.Manifest, 0) := Incomplete]
      ensures !failed ==> Reports()
      ensures transport.honest ==>
                && !failed
                && Publishes(old(State()), State())
                && (complete ==> UpToNow() && OnlyUnavoidable())
                && (old(complete) && |transport.log| <= MAX_PAGES * per ==> complete)
    {
      hide WorldInv, Publishes, Advances, Drains, Preserves, Past, RoomFor, OnePerSlot, Store.KeysAreKeys, AllOpen,
           Unavoidable, Store.WithheldOf;
      ghost var a := State();
      PreservesSame(store.rows);
      PublishesNothing(a);
      failed := false;
      if !complete {
        withheld := Note();
        Slackens(room + MAX_PAGES, room);
        return;
      }
      var alarmed := Alarmed();
      var found := CheckNow();
      if found.records == 0 || alarmed {
        withheld := found;
        Slackens(room + MAX_PAGES, room);
        return;
      }
      ghost var checked := State();
      failed := CheckFromTheStart(room, per);
      PreservesTwice(a.node.device.rows, checked.node.device.rows, store.rows);
      if transport.honest { PublishesTwice(a, checked, State()); }
    }

    /** Everything once more, and the check again. */
    method CheckFromTheStart(ghost room: nat, ghost per: nat) returns (failed: bool)
      requires Valid() && HasRoom(room + MAX_PAGES)
      requires transport.honest ==> forall n :: per <= Max(1, Min(transport.fits(n), MAX_BATCH))
      modifies this`complete, this`withheld, this`pulled, this`apply, this`seen, this`whole, store,
               transport`asked, transport`asks
      ensures Valid() && HasRoom(room)
      ensures old(transport.asked) <= transport.asked <= old(transport.asked) + MAX_PAGES
      ensures Preserves(old(store.rows), store.rows)
      ensures complete ==> old(complete)
      ensures transport.asked > old(transport.asked) && old(transport.asks) <= transport.asks
      ensures |transport.asks| > |old(transport.asks)| && transport.asks[|old(transport.asks)|] == 0
      ensures !failed && old(complete) ==> Reports()
      ensures transport.honest ==>
                && !failed
                && Publishes(old(State()), State())
                && (complete ==> UpToNow() && OnlyUnavoidable())
                && (old(complete) && |transport.log| <= MAX_PAGES * per ==> complete)
    {
      hide WorldInv, Publishes, Advances, Drains, Preserves, Past, RoomFor, OnePerSlot, Store.KeysAreKeys, AllOpen,
           Unavoidable, Store.WithheldOf, AskedOn, PageAt, ResetAt, IsLast;
      ghost var a := State();
      RewindCursor();
      ghost var w := State();
      var done;
      failed, done := PullAll(room, per);
      ghost var b := State();
      if transport.honest { ThenAdvances(a, w, b); }
      if failed {
        return;
      }
      if done {
        withheld := CheckNow();
      } else {
        complete := false;
        withheld := Note();
      }
      if transport.honest { PublishesTwice(a, b, State()); }
    }

    method Note() returns (found: Store.Withheld)
      requires Valid()
      modifies store`violations
      ensures Valid()
      ensures found == Store.WithheldOf(store.violations) && found.records > 0 && found.hostKeys
      ensures store.violations == old(store.violations)[Id(Kind.Manifest, 0) := Incomplete]
      ensures Publishes(old(State()), State())
    {
      ghost var w := State();
      found := store.NoteIncompletePull();
      if transport.honest {
        ViolationsAreFree(w, store.violations);
      }
    }
 
    // ----- The pass -----

    /** What the server has, and will have, fits the pages one pull asks for. */
    ghost predicate Reaches(w: World, per: nat) {
      |w.log| + |Unsent(w.node.device.rows)| + 1 <= MAX_PAGES * per
    }

    /** When two rounds are enough: every waiting row can be sent, no host key ever
        moved to another slot, and either all that is behind fits one request, or
        nothing waits that a full pull would not clear up. */
    ghost predicate CanSettle(w: World, per: nat) {
      && AllRowsFit(w.node.device.rows) && StableSlots(w.log, w.node.device.rows)
      && (OneRequest(w.log, w.node.device.rows)
          || (Reaches(w, per) && Foreseen(w.log, w.node.device.cursor, w.node.device.rows)))
    }

    lemma StillReaches(a: World, b: World, per: nat)
      requires Advances(a, b)
      requires Reaches(a, per)
      ensures Reaches(b, per)
    {
    }

    /** A full pull after a push leaves nothing behind, if nothing unforeseen was. */
    lemma PullSettles(a: World, b: World, c: World)
      requires Advances(a, b) && Advances(b, c) && Past(c.log, c.node.device.cursor)
      requires StableSlots(a.log, a.node.device.rows) && Foreseen(a.log, a.node.device.cursor, a.node.device.rows)
      ensures Ready(c.log, c.node.device.rows)
    {
      hide Behind, StableSlots, Foreseen;
      PulledIsReady(c.log, c.node.device.cursor, c.node.device.rows);
    }

    /** What a round comes to against the honest server. */
    ghost predicate RoundMeans(a: World, b: World, per: nat, refused: nat) {
      && (Ready(a.log, a.node.device.rows) ==> refused == 0)
      && (AllRowsFit(a.node.device.rows) && StableSlots(a.log, a.node.device.rows) && refused > 0 ==>
            TakesARequest(a, b))
      && (CanSettle(a, per) && refused > 0 ==> Ready(b.log, b.node.device.rows))
      && (Worst(a) ==>
            && refused == Min(MAX_BATCH, |Unsent(a.node.device.rows)|)
            && (refused > 0 ==> HitByWorst(a, b, refused)))
    }

    /** Push, then pull. */
    method Round(ghost room: nat, ghost per: nat) returns (failed: bool, refused: nat, done: bool)
      requires Valid() && HasRoom(room + MAX_PAGES + |Unsent(store.rows)| + 1)
      requires transport.honest ==> forall n :: per <= Max(1, Min(transport.fits(n), MAX_BATCH))
      modifies this`pushed, this`conflicts, this`oversized, this`apply, this`pulled, this`seen, this`whole,
               store, transport
      ensures Valid() && HasRoom(room + |Unsent(store.rows)|)
      ensures transport.asked + |Unsent(store.rows)| <= old(transport.asked + |Unsent(store.rows)|) + 1 + MAX_PAGES
      ensures Preserves(old(store.rows), store.rows) && StartsNothing(old(store.rows), store.rows)
      ensures old(Unsent(store.rows)) == {} && !failed ==> refused == 0 && transport.log == old(transport.log)
      ensures conflicts == old(conflicts) + refused
      ensures old(AllFit()) ==> AllFit()
      ensures transport.honest ==>
                && !failed
                && Advances(old(State()), State())
                && (done ==> UpToNow())
                && (refused == 0 && old(AllFit()) ==> Unsent(store.rows) == {})
                && (old(Reaches(State(), per)) ==> Reaches(State(), per) && done)
                && RoundMeans(old(State()), State(), per, refused)
                && pushed - old(pushed) == |transport.log| - |old(transport.log)|
    {
      hide WorldInv, Publishes, Preserves, Past, RoomFor, OnePerSlot, Store.KeysAreKeys, AllOpen, AllRowsFit, Drains,
           Foreseen, Ready, Unsent, Behind, StableSlots, OneRequest, Surprised, SmallRows, Advances,
           TakesARequest;
      ghost var a := State();
      ghost var worst, reaches := transport.honest && Worst(a), transport.honest && Reaches(a, per);
      done := false;
      failed, refused := PushAll(room + MAX_PAGES);
      ghost var b := State();
      ghost var left := |Unsent(store.rows)|;
      if failed {
        Slackens(room + MAX_PAGES + left, room + left);
        if old(AllFit()) { FitsStay(a.node.device.rows, store.rows); }
        return;
      }
      if reaches { StillReaches(a, b, per); }
      if worst { SurprisedIsPast(b); }
      failed, done := PullAll(room + left, per);
      StartsNothingTwice(a.node.device.rows, b.node.device.rows, store.rows);
      PreservesTwice(a.node.device.rows, b.node.device.rows, store.rows);
      PreservesShrinks(b.node.device.rows, store.rows);
      Slackens(room + left, room + |Unsent(store.rows)|);
      if old(AllFit()) { FitsStay(a.node.device.rows, store.rows); }
      if transport.honest {
        AdvancesTwice(a, b, State());
        if AllRowsFit(a.node.device.rows) && StableSlots(a.log, a.node.device.rows) {
          TakesUntilLater(a, b, State());
          if OneRequest(a.log, a.node.device.rows) { OneRequestIsAll(a, State()); }
        }
        if reaches { StillReaches(b, State(), per); }
        if reaches && StableSlots(a.log, a.node.device.rows)
           && Foreseen(a.log, a.node.device.cursor, a.node.device.rows) {
          PullSettles(a, b, State());
        }
      }
    }

    lemma SurprisedIsPast(w: World)
      requires Surprised(w.log, w.node.device.cursor, w.node.device.rows)
      ensures Past(w.log, w.node.device.cursor)
    {
    }

    /** Nothing is waiting any more: the manifest out, and everyone's checked. */
    method Finish(reached: bool, ghost room: nat, ghost per: nat) returns (failed: bool)
      requires Valid() && HasRoom(room + 2 * MAX_PAGES + 2) && (transport.honest && reached ==> UpToNow())
      requires transport.honest ==> forall n :: per <= Max(1, Min(transport.fits(n), MAX_BATCH))
      modifies this`complete, this`withheld, this`pulled, this`apply, this`ledger, this`seen, this`whole, this`cursor,
               store, transport
      ensures Valid() && HasRoom(room)
      ensures old(transport.asked) <= transport.asked <= old(transport.asked) + 2 * MAX_PAGES + 1
      ensures Preserves(old(store.rows), store.rows)
      ensures !failed ==> Reports() && cursor == store.cursor
      ensures complete ==> reached
      ensures !reached ==> transport.offers == old(transport.offers)
      ensures reached && old(OnlyOwnWaits(store.Model())) ==>
                Announces(old(store.Model()), old(transport.offers), transport.offers)
      ensures transport.honest ==>
                && !failed
                && Publishes(old(State()), State())
                && OnlyManifests(old(transport.log), transport.log)
                && |old(transport.log)| <= |transport.log| <= |old(transport.log)| + 1
                && (complete ==> UpToNow() && OnlyUnavoidable())
                && (reached && |old(transport.log)| + 1 <= MAX_PAGES * per ==> complete)
    {
      hide WorldInv, Publishes, Preserves, Past, RoomFor, OnePerSlot, Store.KeysAreKeys, AllOpen, OnlyManifests,
           Unavoidable, Store.WithheldOf;
      ghost var a := State();
      PreservesSame(store.rows);
      PublishesNothing(a);
      NothingWritten(a.log);
      failed, complete := false, reached;
      if reached {
        failed, complete := PublishManifest(room + MAX_PAGES, per);
        if failed {
          Slackens(room + MAX_PAGES, room);
          return;
        }
      }
      ghost var b := State();
      if !reached { Slackens(room + 2 * MAX_PAGES + 2, room + MAX_PAGES); }
      failed := Check(room, per);
      PreservesTwice(a.node.device.rows, b.node.device.rows, store.rows);
      if transport.honest { PublishesTwice(a, b, State()); }
      cursor := store.cursor;
    }

    /** A round for each request of `unit` that `n` fills, and one that finds nothing. */
    static function RoundsFor(n: nat, unit: nat): nat
      requires unit > 0
    {
      1 + (n + unit - 1) / unit
    }

    /** `left` of `n` rows after some rounds that each refused as much as a request holds. */
    static predicate Remains(n: nat, rounds: nat, left: nat) {
      left == Max(n - rounds * MAX_BATCH, 0) && (rounds > 0 ==> n > (rounds - 1) * MAX_BATCH)
    }

    static lemma NoneYet(n: nat)
      ensures Remains(n, 0, n)
    {
    }

    static lemma OneRoundLess(n: nat, round: nat, left: nat, refused: nat)
      requires 0 < round <= MAX_ROUNDS && Remains(n, round - 1, left) && refused == Min(MAX_BATCH, left)
      ensures refused > 0 ==> Remains(n, round, left - refused)
      ensures refused == 0 ==> n <= (MAX_ROUNDS - 1) * MAX_BATCH && round == RoundsFor(n, MAX_BATCH)
    {
    }

    /** At most `left` of `n` is left after some rounds that each took a request. */
    static predicate AtMostLeft(n: nat, unit: nat, rounds: nat, left: nat) {
      left <= Max(n - rounds * unit, 0) && (rounds > 0 ==> n > (rounds - 1) * unit)
    }

    static lemma RoundTakesOne(n: nat, unit: nat, round: nat, before: nat, refused: nat, after: nat)
      requires 0 < round && 0 < unit && AtMostLeft(n, unit, round - 1, before) && (before == 0 ==> refused == 0)
      requires refused > 0 ==> after <= Max(before - unit, 0)
      ensures if refused > 0 then AtMostLeft(n, unit, round, after) else round <= RoundsFor(n, unit)
    {
      assert round * unit == (round - 1) * unit + unit;
      if refused == 0 && round > 1 {
        assert n + unit - 1 >= (round - 1) * unit by { assert (round - 1) * unit == (round - 2) * unit + unit; }
        AtLeast(n + unit - 1, unit, round - 1);
      }
    }

    static lemma AtLeast(n: nat, unit: nat, k: nat)
      requires 0 < unit && n >= k * unit
      ensures n / unit >= k
    {
      var q := n / unit;
      assert n < (q + 1) * unit;
      if q + 1 <= k { TimesIsOrdered(q + 1, k, unit); }
    }

    static lemma TimesIsOrdered(a: nat, b: nat, unit: nat)
      requires a <= b
      ensures a * unit <= b * unit
    {
    }

    static lemma TooManyLeft(n: nat, unit: nat, left: nat)
      requires AtMostLeft(n, unit, MAX_ROUNDS, left)
      ensures n > (MAX_ROUNDS - 1) * unit
    {
    }

    static lemma TooMany(n: nat, left: nat)
      requires Remains(n, MAX_ROUNDS, left)
      ensures n > (MAX_ROUNDS - 1) * MAX_BATCH
    {
    }

    /** On the way from one state of a device to its rows now its manifest was right, and
        was offered if it had to be, and nothing was offered after it. */
    ghost predicate Announced(a: Device, b: map<Id, Row>, offers: seq<seq<Envelope>>) {
      OnlyOwnWaits(a) ==> exists d, before :: AnnouncedAt(a.rows, d, b, before, offers)
    }

    ghost predicate AnnouncedAt(a: map<Id, Row>, d: Device, b: map<Id, Row>, before: seq<seq<Envelope>>,
                                offers: seq<seq<Envelope>>) {
      Preserves(a, d.rows) && Preserves(d.rows, b) && Announces(d, before, offers)
    }

    lemma AnnouncedLater(a: Device, w: Device, b: map<Id, Row>, offers: seq<seq<Envelope>>)
      requires Preserves(a.rows, w.rows) && StartsNothing(a.rows, w.rows) && a.me == w.me && Announced(w, b, offers)
      ensures Announced(a, b, offers)
    {
      hide Preserves, Announces;
      if OnlyOwnWaits(a) {
        var d, before :| AnnouncedAt(w.rows, d, b, before, offers);
        PreservesTwice(a.rows, w.rows, d.rows);
        assert AnnouncedAt(a.rows, d, b, before, offers);
      }
    }

    lemma OnlyOwnStillWaits(a: Device, b: Device)
      requires StartsNothing(a.rows, b.rows) && a.me == b.me && OnlyOwnWaits(a)
      ensures OnlyOwnWaits(b)
    {
    }

    /** One round, and what follows the last one: a round in which nothing was refused. */
    method RoundAndFinish(round: nat, ghost room: nat, ghost per: nat) returns (failed: bool, refused: nat)
      requires Valid() && HasRoom(room + 3 * MAX_PAGES + 3 + |Unsent(store.rows)|)
      requires transport.honest ==> forall n :: per <= Max(1, Min(transport.fits(n), MAX_BATCH))
      modifies this, store, transport
      ensures Valid() && rounds == round && conflicts == old(conflicts) + refused
      ensures StartsNothing(old(store.rows), store.rows) || refused == 0
      ensures !failed && refused > 0 ==> HasRoom(room + 2 * MAX_PAGES + 2 + |Unsent(store.rows)|)
      ensures transport.asked + |Unsent(store.rows)| <=
              old(transport.asked + |Unsent(store.rows)|) + MAX_PAGES + 1
              + if refused == 0 then 2 * MAX_PAGES + 1 else 0
      ensures Preserves(old(store.rows), store.rows)
      ensures old(Unsent(store.rows)) == {} && !failed ==> refused == 0
      ensures !failed && refused == 0 ==> Reports() && cursor == store.cursor
      ensures !failed && refused == 0 && complete ==> Announced(old(store.Model()), store.rows, transport.offers)
      ensures transport.honest ==>
                var unaccounted := (|transport.log| - |old(transport.log)|) - (pushed - old(pushed));
                0 <= unaccounted <= if refused == 0 then 1 else 0
      ensures transport.honest ==>
                && !failed
                && (if refused > 0 then Advances(old(State()), State()) else Publishes(old(State()), State()))
                && RoundMeans(old(State()), State(), per, refused)
                && (refused == 0 && old(AllFit()) ==> Unsent(store.rows) == {})
                && (refused == 0 && complete ==> UpToNow() && OnlyUnavoidable())
                && (refused == 0 && old(Unsent(store.rows)) == {} ==>
                      OnlyManifests(old(transport.log), transport.log))
      ensures transport.honest && old(Reaches(State(), per)) && refused == 0 ==> complete
    {
      hide WorldInv, Publishes, Preserves, Past, RoomFor, OnePerSlot, Store.KeysAreKeys, AllOpen, OnlyManifests,
           AllRowsFit, Foreseen, Ready, Unavoidable, Unsent, Advances, Store.WithheldOf, Behind, StableSlots,
           OneRequest, Surprised, SmallRows, OnlyUnavoidable, Worst, UpToNow, CanSettle, TakesARequest, HitByWorst,
           Announces, OnlyOwnWaits, Reports, StartsNothing;
      rounds := round;
      ghost var a := State();
      var done;
      failed, refused, done := Round(room + 2 * MAX_PAGES + 2, per);
      ghost var b := State();
      if transport.honest { AdvancesPublishes(a, b); }
      if !failed && refused == 0 {
        Slackens(room + 2 * MAX_PAGES + 2 + |Unsent(store.rows)|, 2 * MAX_PAGES + 2);
        ghost var offers := transport.offers;
        if OnlyOwnWaits(a.node.device) { OnlyOwnStillWaits(a.node.device, b.node.device); }
        failed := Finish(done, 0, per);
        PreservesTwice(a.node.device.rows, b.node.device.rows, store.rows);
        assert done && OnlyOwnWaits(a.node.device) ==>
            AnnouncedAt(a.node.device.rows, b.node.device, store.rows, offers, transport.offers);
        PreservesShrinks(b.node.device.rows, store.rows);
        if transport.honest { PublishesTwice(a, b, State()); }
      }
    }

    /** With at most two requests behind, the pass ends, after a round for each of them
        and one more at the most. */
    static predicate EndsInTime(n: nat, unit: nat, failure: Option<Failure>, rounds: nat)
      requires unit > 0
    {
      n <= (MAX_ROUNDS - 1) * unit ==> failure.None? && rounds <= RoundsFor(n, unit)
    }

    /** The worst case after some rounds. */
    ghost predicate WorstSoFar(a: World, w: World, round: nat) {
      Worst(w) && Remains(|Unsent(a.node.device.rows)|, round, |Unsent(w.node.device.rows)|)
    }

    /** How the pass ends then. */
    ghost predicate WorstEnd(a: World, failure: Option<Failure>, rounds: nat) {
      var n := |Unsent(a.node.device.rows)|;
      if n > (MAX_ROUNDS - 1) * MAX_BATCH then failure == Some(ConflictLoop)
      else failure.None? && rounds == RoundsFor(n, MAX_BATCH)
    }

    lemma WorstGoesOn(a: World, w: World, b: World, round: nat, refused: nat)
      requires 0 < round <= MAX_ROUNDS && WorstSoFar(a, w, round - 1)
      requires refused == Min(MAX_BATCH, |Unsent(w.node.device.rows)|)
      requires refused > 0 ==> HitByWorst(w, b, refused)
      ensures if refused > 0 then WorstSoFar(a, b, round) else WorstEnd(a, None, round)
    {
      hide Worst, Remains, RoundsFor, Unsent;
      OneRoundLess(|Unsent(a.node.device.rows)|, round, |Unsent(w.node.device.rows)|, refused);
    }

    lemma WorstStarts(a: World)
      requires Worst(a)
      ensures WorstSoFar(a, a, 0)
    {
      NoneYet(|Unsent(a.node.device.rows)|);
    }

    lemma WorstFails(a: World, w: World, rounds: nat)
      requires WorstSoFar(a, w, MAX_ROUNDS)
      ensures WorstEnd(a, Some(ConflictLoop), rounds)
    {
      TooMany(|Unsent(a.node.device.rows)|, |Unsent(w.node.device.rows)|);
    }

    /** Where a pass stands against the honest server after some rounds that were each
        refused something. */
    ghost predicate SoFar(a: World, w: World, per: nat, round: nat) {
      && Advances(a, w) && Preserves(a.node.device.rows, w.node.device.rows) && (round == 0 ==> w == a)
      && (AllRowsFit(a.node.device.rows) && StableSlots(a.log, a.node.device.rows) ==> OnCourse(a, w, round))
      && (CanSettle(a, per) && round > 0 ==> Ready(w.log, w.node.device.rows) && round < 2)
      && (Worst(a) ==> WorstSoFar(a, w, round))
    }

    /** How it ends. */
    ghost predicate Ends(a: World, per: nat, failure: Option<Failure>, rounds: nat) {
      && (CanSettle(a, per) ==> failure.None? && rounds <= 2)
      && (AllRowsFit(a.node.device.rows) && StableSlots(a.log, a.node.device.rows) ==> InTime(a, failure, rounds))
      && (Worst(a) ==> WorstEnd(a, failure, rounds))
    }

    lemma NothingSoFar(a: World, per: nat)
      ensures SoFar(a, a, per, 0)
    {
      hide Advances, Preserves, OnCourse, WorstSoFar, Worst, CanSettle, AllRowsFit, StableSlots;
      AdvancesSame(a);
      PreservesSame(a.node.device.rows);
      StartsOnCourse(a);
      if Worst(a) { WorstStarts(a); }
    }

    lemma GoesOn(a: World, w: World, b: World, per: nat, round: nat, refused: nat)
      requires 0 < round <= MAX_ROUNDS && SoFar(a, w, per, round - 1) && RoundMeans(w, b, per, refused)
      requires Preserves(w.node.device.rows, b.node.device.rows) && (refused > 0 ==> Advances(w, b))
      ensures if refused > 0 then SoFar(a, b, per, round) else Ends(a, per, None, round)
    {
      hide Advances, Preserves, OnCourse, WorstSoFar, WorstEnd, Worst, CanSettle, AllRowsFit, StableSlots, Ready,
           TakesARequest, InTime, HitByWorst;
      PreservesTwice(a.node.device.rows, w.node.device.rows, b.node.device.rows);
      if refused > 0 { AdvancesTwice(a, w, b); }
      if AllRowsFit(a.node.device.rows) && StableSlots(a.log, a.node.device.rows) {
        FitsStay(a.node.device.rows, w.node.device.rows);
        SlotsStillStable(a, w);
        StaysOnCourse(a, w, b, round, refused);
      }
      if Worst(a) {
        WorstIsWorst(a, w, round - 1);
        WorstGoesOn(a, w, b, round, refused);
      }
    }

    lemma WorstIsWorst(a: World, w: World, round: nat)
      requires WorstSoFar(a, w, round)
      ensures Worst(w)
    {
    }

    lemma Fails(a: World, w: World, per: nat, rounds: nat)
      requires SoFar(a, w, per, MAX_ROUNDS)
      ensures Ends(a, per, Some(ConflictLoop), rounds)
    {
      hide OnCourse, WorstSoFar, WorstEnd, Worst, CanSettle, AllRowsFit, StableSlots, InTime;
      if AllRowsFit(a.node.device.rows) && StableSlots(a.log, a.node.device.rows) {
        EndsInTimeAnyway(a, w, Some(ConflictLoop), rounds);
      }
      if Worst(a) { WorstFails(a, w, rounds); }
    }

    lemma SoFarPublishes(a: World, w: World, per: nat, round: nat)
      requires SoFar(a, w, per, round)
      ensures Publishes(a, w)
      ensures Reaches(a, per) ==> Reaches(w, per)
    {
      AdvancesPublishes(a, w);
      if Reaches(a, per) { StillReaches(a, w, per); }
    }

    lemma KeepsInv()
      requires Valid()
      ensures transport.honest ==> WorldInv(State())
    {
    }

    lemma SlotsStillStable(a: World, b: World)
      requires Advances(a, b) && StableSlots(a.log, a.node.device.rows)
      ensures StableSlots(b.log, b.node.device.rows)
    {
    }

    /** So it does by load, and of small rows by number. */
    ghost predicate InTime(a: World, failure: Option<Failure>, rounds: nat) {
      && EndsInTime(Load(a), REQUEST, failure, rounds)
      && (SmallRows(a.node.device.rows) ==> EndsInTime(|BehindOf(a)|, MAX_BATCH, failure, rounds))
    }

    ghost predicate OnCourse(a: World, w: World, round: nat) {
      && AtMostLeft(Load(a), REQUEST, round, Load(w))
      && (SmallRows(a.node.device.rows) ==> AtMostLeft(|BehindOf(a)|, MAX_BATCH, round, |BehindOf(w)|))
    }

    lemma StartsOnCourse(a: World)
      ensures OnCourse(a, a, 0)
    {
      hide Load, BehindOf, SmallRows;
    }

    /** A round keeps the pass on course, or ends it in time. */
    lemma StaysOnCourse(a: World, w: World, b: World, round: nat, refused: nat)
      requires Preserves(a.node.device.rows, w.node.device.rows) && AllRowsFit(a.node.device.rows)
      requires 0 < round && OnCourse(a, w, round - 1)
      requires Ready(w.log, w.node.device.rows) ==> refused == 0
      requires refused > 0 ==> TakesARequest(w, b) && Preserves(w.node.device.rows, b.node.device.rows)
      ensures if refused > 0 then OnCourse(a, b, round) else InTime(a, None, round)
    {
      hide Ready, Behind, BehindOf, AtMostLeft, RoundsFor, TakesARequest, Load, Preserves, AllRowsFit, SmallRows;
      EmptyIsReady(w);
      FitsStay(a.node.device.rows, w.node.device.rows);
      if refused > 0 { LoadShrinks(w, b); }
      RoundTakesOne(Load(a), REQUEST, round, Load(w), refused, Load(b));
      if SmallRows(a.node.device.rows) {
        SmallStays(a.node.device.rows, w.node.device.rows);
        if refused > 0 { CountShrinks(w, b); }
        RoundTakesOne(|BehindOf(a)|, MAX_BATCH, round, |BehindOf(w)|, refused, |BehindOf(b)|);
      }
    }

    lemma EndsInTimeAnyway(a: World, w: World, failure: Option<Failure>, rounds: nat)
      requires OnCourse(a, w, MAX_ROUNDS)
      ensures InTime(a, failure, rounds)
    {
      hide Load, BehindOf, SmallRows, RoundsFor, AtMostLeft;
      TooManyLeft(Load(a), REQUEST, Load(w));
      if SmallRows(a.node.device.rows) { TooManyLeft(|BehindOf(a)|, MAX_BATCH, |BehindOf(w)|); }
    }

    lemma EmptyIsReady(w: World)
      ensures Load(w) == 0 || |BehindOf(w)| == 0 ==> Ready(w.log, w.node.device.rows)
    {
      BehindWaits(w);
      NothingBehindIsNoLoad(w);
    }

    /** One pass.

        Against any server it ends: it takes at most one request for each row that
        stops waiting and 5004 more; no row is lost or made older, and nothing
        starts to wait. It fails only if a request does, or with three rounds of
        conflicts.

        Against the honest server, what is left of the rows that waited is nothing,
        and a complete pass has seen everything and raised no alarm it could help.
        If nothing waited, it writes nothing but a manifest. If what the server has
        fits the pages, a pass that does not fail is complete. Two rounds are enough
        if all that is behind fits one request, or is behind versions still to be
        pulled. Whatever else is behind, each round takes care of one request of it, and
        with at most two requests behind the pass does not fail; counted by number
        where the rows are small, and by number and bytes where they are not. Three
        rounds need not be enough for more: edits of records whose deletes were
        passed over take a round for each request they fill, and with more than two
        requests of them the pass fails. */
    method SyncOnce(ghost per: nat) returns (failure: Option<Failure>)
      requires Valid() && HasRoom(5 * MAX_PAGES + 5 + |Unsent(store.rows)|)
      requires transport.honest ==> forall n :: per <= Max(1, Min(transport.fits(n), MAX_BATCH))
      modifies this, store, transport
      ensures Valid()
      ensures transport.asked + |Unsent(store.rows)| <=
              old(transport.asked + |Unsent(store.rows)|) + 5004
      ensures Preserves(old(store.rows), store.rows)
      ensures failure == Some(ConflictLoop) ==> rounds == 3 && conflicts >= old(conflicts) + 3
      ensures failure.None? ==> 1 <= rounds <= 3 && Reports() && cursor == store.cursor
      ensures failure.None? && complete ==> Announced(old(store.Model()), store.rows, transport.offers)
      ensures transport.honest ==>
                0 <= (|transport.log| - |old(transport.log)|) - (pushed - old(pushed)) <= 1
      ensures transport.honest ==>
                && failure != Some(Unreachable)
                && Publishes(old(State()), State())
                && (old(Unsent(store.rows)) == {} ==>
                      failure.None? && rounds == 1 && OnlyManifests(old(transport.log), transport.log))
                && (failure.None? && old(AllFit()) ==> Unsent(store.rows) == {})
                && (failure.None? && complete ==> UpToNow() && OnlyUnavoidable())
                && (failure.None? && complete && old(AllFit()) ==> Completed(old(State()), State()))
      ensures transport.honest && old(Reaches(State(), per)) && failure.None? ==> complete
      ensures transport.honest ==> Ends(old(State()), per, failure, rounds)
    {
      hide WorldInv, Publishes, Preserves, Past, RoomFor, OnePerSlot, Store.KeysAreKeys, AllOpen, OnlyManifests,
           AllRowsFit, Foreseen, Ready, Unavoidable, Unsent, Advances, Store.WithheldOf, Behind, StableSlots,
           OneRequest, Surprised, SmallRows, OnlyUnavoidable, Valid, HasRoom, SoFar, Ends, RoundMeans, Reaches,
           Announced, Reports, StartsNothing;
      ghost var a, asked, before := State(), transport.asked, conflicts;
      ghost var start := a.node.device.rows;
      ghost var fit, reaches := AllFit(), Reaches(a, per);
      PreservesSame(start);
      NothingStarts(start);
      NothingSoFar(a, per);
      var round := 0;
      while round < MAX_ROUNDS
        invariant round <= MAX_ROUNDS && Valid()
        invariant HasRoom((MAX_ROUNDS - round) * (MAX_PAGES + 1) + 2 * MAX_PAGES + 2 + |Unsent(store.rows)|)
        invariant transport.asked + |Unsent(store.rows)| <= asked + |Unsent(start)| + round * (MAX_PAGES + 1)
        invariant Preserves(start, store.rows) && StartsNothing(start, store.rows)
        invariant round == 0 ==> State() == a
        invariant conflicts >= before + round && (round > 0 ==> rounds == round && Unsent(start) != {})
        invariant transport.honest ==> SoFar(a, State(), per, round)
        invariant transport.honest ==> pushed - old(pushed) == |transport.log| - |a.log|
      {
        round := round + 1;
        ghost var w := State();
        if fit { FitsStay(start, store.rows); }
        if transport.honest { SoFarPublishes(a, w, per, round - 1); }
        var failed, refused := RoundAndFinish(round, (MAX_ROUNDS - round) * (MAX_PAGES + 1), per);
        PreservesTwice(start, w.node.device.rows, store.rows);
        if refused > 0 { StartsNothingTwice(start, w.node.device.rows, store.rows); }
        if transport.honest {
          GoesOn(a, w, State(), per, round, refused);
          if refused == 0 { PublishesTwice(a, w, State()); }
        }
        if failed {
          return Some(Unreachable);
        }
        if refused == 0 {
          KeepsInv();
          if complete { AnnouncedLater(a.node.device, w.node.device, store.rows, transport.offers); }
          return None;
        }
      }
      if transport.honest {
        Fails(a, State(), per, rounds);
        SoFarPublishes(a, State(), per, MAX_ROUNDS);
      }
      return Some(ConflictLoop);
    }
  }
}
