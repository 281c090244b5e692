/** What holds of one device against an honest server, whatever else happens.

    `ledger` is every version any device ever wrote. The predicates talk about
    one device's rows, the server's log and the ledger; the lemmas say that the
    device's own steps, and everybody else's, keep them. */
module Protocol {
  import opened Basics
  import opened Clock
  import opened Versions
  import opened Records
  import opened Device
  import opened Server

  datatype Stamp = Stamp(id: Id, clock: Hlc)

  /** `at` is how long the log was when this version was written. */
  datatype Content = Content(deleted: bool, payload: Payload, at: nat)

  type Ledger = map<Stamp, Content>

  function StampVersion(s: Stamp, c: Content): Version {
    Version(s.clock, c.deleted)
  }

  function EntryVersion(entry: Entry): Version {
    Version(entry.clock, entry.deleted)
  }

  predicate WrittenRow(ledger: Ledger, id: Id, row: Row) {
    var s := Stamp(id, row.clock);
    && s in ledger
    && ledger[s].deleted == row.deleted
    && (!row.deleted ==> ledger[s].payload == row.payload)
  }

  predicate WrittenEnvelope(ledger: Ledger, e: Envelope) {
    var s := Stamp(e.id, e.clock);
    && Opens(e)
    && s in ledger
    && ledger[s].deleted == e.deleted
    && ledger[s].payload == e.blob.payload
  }

  /** The server held this version of the record, or a later one. */
  predicate ServerHad(log: Log, n: nat, id: Id, version: Version)
    requires n <= |log|
  {
    var i := LastIndex(log, n, id);
    i >= 0 && AtMost(version, EnvelopeVersion(log[i]))
  }

  // ----- The server and the ledger -----

  predicate LedgerInv(log: Log, ledger: Ledger) {
    forall s :: s in ledger ==>
      && Plain(s.id) && HasTable(s.id.kind)
      && s.clock != ZERO
      && ledger[s].at <= |log|
      && WellKinded(s.id.kind, ledger[s].deleted, ledger[s].payload)
      && (s.id.kind.Manifest? ==>
            && ledger[s].payload.Listing?
            && s.id == ManifestId(ledger[s].payload.device)
            && s.clock.device == ledger[s].payload.device
            && Backs(log, ledger[s].at, ledger[s].payload.entries))
  }

  /** Everything a manifest lists was on the server before the manifest. */
  predicate Backs(log: Log, n: nat, entries: seq<Entry>)
    requires n <= |log|
  {
    forall entry :: entry in entries && Plain(entry.id) ==>
      ServerHad(log, n, entry.id, EntryVersion(entry))
  }

  predicate LogInv(log: Log, ledger: Ledger, vault: nat) {
    && Numbered(log)
    && (forall i :: 0 <= i < |log| ==> log[i].vault == vault && HasTable(log[i].id.kind))
    && (forall i :: 0 <= i < |log| && Plain(log[i].id) ==>
          && WrittenEnvelope(ledger, log[i])
          && (log[i].id.kind.Manifest? ==> ledger[Stamp(log[i].id, log[i].clock)].at <= i))
    && Rising(log)
  }

  /** Nothing the server takes is older than what it replaces. */
  predicate Rising(log: Log) {
    forall i, j :: 0 <= i < j < |log| && log[i].id == log[j].id && Plain(log[i].id) ==>
      AtMost(EnvelopeVersion(log[i]), EnvelopeVersion(log[j]))
  }

  // ----- One device's rows -----

  predicate Backed(ledger: Ledger, rows: map<Id, Row>) {
    forall id :: id in rows && Plain(id) ==> rows[id] == STUB || WrittenRow(ledger, id, rows[id])
  }

  /** A row that is not waiting to be pushed is exactly what the server took. */
  predicate Confirmed(log: Log, rows: map<Id, Row>) {
    forall id :: id in rows && Plain(id) && !rows[id].dirty ==>
      || rows[id] == STUB
      || (&& 0 < rows[id].serverSeq <= |log|
          && log[rows[id].serverSeq - 1].id == id
          && EnvelopeVersion(log[rows[id].serverSeq - 1]) == RowVersion(rows[id]))
  }

  /** What a push is based on is a version this row already includes, and one of
      the first `n` the server took. */
  predicate Based(log: Log, n: nat, rows: map<Id, Row>)
    requires n <= |log|
  {
    forall id :: id in rows && Plain(id) && rows[id].serverSeq > 0 ==>
      && rows[id].serverSeq <= n
      && log[rows[id].serverSeq - 1].id == id
      && AtMost(EnvelopeVersion(log[rows[id].serverSeq - 1]), RowVersion(rows[id]))
  }

  /** This version has been taken in: the row is at least as new and based on
      it, or it is a delete of something this device does not have. */
  predicate Accounted(rows: map<Id, Row>, e: Envelope) {
    || (e.id in rows && rows[e.id].serverSeq == SeqOf(e) && AtMost(EnvelopeVersion(e), RowVersion(rows[e.id])))
    || (e.deleted && (e.id !in rows || rows[e.id].serverSeq == 0))
  }

  /** The cursor is right: what the server held up to it, after `n` writes, is
      accounted for here. */
  predicate CaughtUp(log: Log, n: nat, cursor: nat, rows: map<Id, Row>)
    requires n <= |log|
  {
    && cursor <= n
    && forall i :: 0 <= i < cursor && Plain(log[i].id) && LastIndex(log, n, log[i].id) == i ==>
         Accounted(rows, log[i])
  }

  /** Settled stays true for good, also when the server moves on. */
  predicate Settled(rows: map<Id, Row>, e: Envelope) {
    || (e.id in rows && AtMost(EnvelopeVersion(e), RowVersion(rows[e.id])))
    || (e.deleted && (e.id !in rows || rows[e.id].serverSeq == 0))
  }

  predicate Seen(log: Log, seen: nat, rows: map<Id, Row>) {
    && seen <= |log|
    && forall i :: 0 <= i < seen && Plain(log[i].id) && LastIndex(log, seen, log[i].id) == i ==>
         Settled(rows, log[i])
  }

  /** What this device wrote is still here, or something newer is. */
  predicate Authored(ledger: Ledger, me: u32, rows: map<Id, Row>) {
    forall s :: s in ledger && s.clock.device == me ==>
      s.id in rows && AtMost(StampVersion(s, ledger[s]), RowVersion(rows[s.id]))
  }

  /** Another device's manifest was written when the log was at most `n` long. */
  predicate ManifestsBy(ledger: Ledger, n: nat, me: u32, rows: map<Id, Row>) {
    forall id :: id in rows && id.kind.Manifest? && id != ManifestId(me) ==>
      Stamp(id, rows[id].clock) in ledger && ledger[Stamp(id, rows[id].clock)].at <= n
  }

  /** What this device's own manifests list is still here, or something newer. */
  predicate OwnManifests(ledger: Ledger, me: u32, rows: map<Id, Row>) {
    forall s, entry :: s in ledger && s.id == ManifestId(me) && ledger[s].payload.Listing?
                       && entry in ledger[s].payload.entries && Plain(entry.id) ==>
      entry.id in rows && AtMost(EntryVersion(entry), RowVersion(rows[entry.id]))
  }

  predicate RowsInv(log: Log, n: nat, ledger: Ledger, me: u32, cursor: nat, seen: nat, rows: map<Id, Row>) {
    && n <= |log| && seen <= n
    && Backed(ledger, rows)
    && Confirmed(log, rows)
    && Based(log, n, rows)
    && CaughtUp(log, n, cursor, rows)
    && Seen(log, seen, rows)
    && Authored(ledger, me, rows)
    && ManifestsBy(ledger, n, me, rows)
    && OwnManifests(ledger, me, rows)
  }

  // ----- Taking a record in -----

  /** What applying one record does to the rows, host keys aside. */
  predicate Takes(a: map<Id, Row>, b: map<Id, Row>, e: Envelope) {
    && (forall id :: id in a && Plain(id) && id != e.id ==> id in b && b[id] == a[id])
    && (forall id :: id in b && Plain(id) && id !in a && id != e.id ==>
          b[id] == STUB && !id.kind.Manifest?)
    && (Plain(e.id) ==> TakesOwn(a, b, e))
  }

  predicate TakesOwn(a: map<Id, Row>, b: map<Id, Row>, e: Envelope) {
    if e.id !in a && e.deleted then e.id !in b
    else
      && e.id in b && b[e.id].serverSeq == SeqOf(e)
      && (if e.id !in a || Below(RowVersion(a[e.id]), EnvelopeVersion(e)) then
            && RowVersion(b[e.id]) == EnvelopeVersion(e) && !b[e.id].dirty
            && (!e.deleted ==> e.blob.Sealed? && b[e.id].payload == e.blob.payload)
          else
            && RowVersion(b[e.id]) == RowVersion(a[e.id]) && b[e.id].payload == a[e.id].payload
            && b[e.id].dirty == (a[e.id].dirty && Below(EnvelopeVersion(e), RowVersion(a[e.id]))))
  }

  /** A record an honest server can hand out. */
  predicate Readable(d: Device, e: Envelope) {
    && e.vault == d.vault && HasTable(e.id.kind)
    && (Plain(e.id) ==> Opens(e))
    && (e.id.kind.Manifest? ==>
          !e.deleted && e.blob.payload.Listing? && e.id == ManifestId(e.blob.payload.device))
  }

  lemma ApplyOneTakes(d: Device, e: Envelope)
    requires Readable(d, e)
    ensures Takes(d.rows, ApplyOne(d, e).device.rows, e)
    ensures Plain(e.id) ==> !ApplyOne(d, e).outcome.Rejected?
  {
    if Plain(e.id) && e.id in d.rows {
      ResolveIsOrder(RowVersion(d.rows[e.id]), EnvelopeVersion(e));
    }
  }

  /** The record was the version held after `n` writes. */
  predicate HeldAt(log: Log, n: nat, e: Envelope)
    requires n <= |log|
  {
    && 0 < SeqOf(e) <= n && e == log[SeqOf(e) - 1]
    && LastIndex(log, n, e.id) == SeqOf(e) - 1
  }

  lemma RisingTo(log: Log, ledger: Ledger, vault: nat, n: nat, i: nat, e: Envelope)
    requires LogInv(log, ledger, vault) && n <= |log| && HeldAt(log, n, e) && Plain(e.id)
    requires i < n && log[i].id == e.id
    ensures AtMost(EnvelopeVersion(log[i]), EnvelopeVersion(e))
    ensures i <= SeqOf(e) - 1
  {
  }

  lemma WrittenIsNotStub(log: Log, ledger: Ledger, e: Envelope)
    requires LedgerInv(log, ledger) && WrittenEnvelope(ledger, e)
    ensures e.clock != ZERO && Below(RowVersion(STUB), EnvelopeVersion(e))
  {
    assert Stamp(e.id, e.clock) in ledger;
  }

  lemma TakeKeepsBacked(log: Log, ledger: Ledger, vault: nat, a: map<Id, Row>, b: map<Id, Row>, e: Envelope)
    requires LedgerInv(log, ledger) && Takes(a, b, e) && Backed(ledger, a)
    requires Plain(e.id) ==> WrittenEnvelope(ledger, e)
    ensures Backed(ledger, b)
  {
    forall id | id in b && Plain(id)
      ensures b[id] == STUB || WrittenRow(ledger, id, b[id])
    {
      if id == e.id {
        WrittenIsNotStub(log, ledger, e);
      }
    }
  }

  /** Rows are never lost and never get older. */
  predicate Grows(a: map<Id, Row>, b: map<Id, Row>) {
    forall id :: id in a && Plain(id) ==> id in b && AtMost(RowVersion(a[id]), RowVersion(b[id]))
  }

  lemma TakeGrows(a: map<Id, Row>, b: map<Id, Row>, e: Envelope)
    requires Takes(a, b, e)
    ensures Grows(a, b)
  {
  }

  lemma TakeKeepsConfirmed(log: Log, ledger: Ledger, vault: nat, n: nat,
                           a: map<Id, Row>, b: map<Id, Row>, e: Envelope)
    requires LogInv(log, ledger, vault) && LedgerInv(log, ledger) && n <= |log|
    requires Takes(a, b, e) && (Plain(e.id) ==> HeldAt(log, n, e))
    requires Confirmed(log, a) && Based(log, n, a)
    ensures Confirmed(log, b)
  {
    hide LedgerInv, Rising;
    if Plain(e.id) {
      WrittenIsNotStub(log, ledger, e);
      if e.id in a && !a[e.id].dirty && a[e.id] != STUB {
        RisingTo(log, ledger, vault, n, a[e.id].serverSeq - 1, e);
      }
    }
  }

  lemma TakeKeepsBased(log: Log, n: nat, a: map<Id, Row>, b: map<Id, Row>, e: Envelope)
    requires n <= |log|
    requires Takes(a, b, e) && (Plain(e.id) ==> HeldAt(log, n, e))
    requires Based(log, n, a)
    ensures Based(log, n, b)
  {
  }

  lemma TakeKeepsCaughtUp(log: Log, n: nat, cursor: nat, a: map<Id, Row>, b: map<Id, Row>, e: Envelope)
    requires n <= |log|
    requires Takes(a, b, e) && (Plain(e.id) ==> HeldAt(log, n, e))
    requires CaughtUp(log, n, cursor, a)
    ensures CaughtUp(log, n, cursor, b)
    ensures Plain(e.id) ==> Accounted(b, e)
  {
    forall i | 0 <= i < cursor && Plain(log[i].id) && LastIndex(log, n, log[i].id) == i
      ensures Accounted(b, log[i])
    {
      assert Accounted(a, log[i]);
    }
  }

  lemma TakeKeepsAccounted(log: Log, n: nat, a: map<Id, Row>, b: map<Id, Row>, e: Envelope, f: Envelope)
    requires n <= |log| && Plain(f.id)
    requires Takes(a, b, e) && HeldAt(log, n, f) && (Plain(e.id) ==> HeldAt(log, n, e))
    requires Accounted(a, f)
    ensures Accounted(b, f)
  {
  }

  lemma TakeKeepsSeen(log: Log, ledger: Ledger, vault: nat, n: nat, seen: nat,
                      a: map<Id, Row>, b: map<Id, Row>, e: Envelope)
    requires LogInv(log, ledger, vault) && n <= |log| && seen <= n
    requires Takes(a, b, e) && (Plain(e.id) ==> HeldAt(log, n, e))
    requires Seen(log, seen, a)
    ensures Seen(log, seen, b)
  {
    forall i | 0 <= i < seen && Plain(log[i].id) && LastIndex(log, seen, log[i].id) == i
      ensures Settled(b, log[i])
    {
      assert Settled(a, log[i]);
      if log[i].id == e.id { RisingTo(log, ledger, vault, n, i, e); }
    }
  }

  lemma GrowthKeepsAuthored(ledger: Ledger, me: u32, a: map<Id, Row>, b: map<Id, Row>)
    requires Grows(a, b) && Authored(ledger, me, a)
    requires forall s :: s in ledger ==> Plain(s.id)
    ensures Authored(ledger, me, b)
  {
  }

  lemma GrowthKeepsOwnManifests(ledger: Ledger, me: u32, a: map<Id, Row>, b: map<Id, Row>)
    requires Grows(a, b) && OwnManifests(ledger, me, a)
    ensures OwnManifests(ledger, me, b)
  {
    forall s, entry | s in ledger && s.id == ManifestId(me) && ledger[s].payload.Listing?
                      && entry in ledger[s].payload.entries && Plain(entry.id)
      ensures entry.id in b && AtMost(EntryVersion(entry), RowVersion(b[entry.id]))
    {
      assert entry.id in a && AtMost(RowVersion(a[entry.id]), RowVersion(b[entry.id]));
    }
  }

  lemma TakeKeepsManifestsBy(log: Log, ledger: Ledger, vault: nat, n: nat, me: u32,
                             a: map<Id, Row>, b: map<Id, Row>, e: Envelope)
    requires LogInv(log, ledger, vault) && n <= |log|
    requires Takes(a, b, e) && (Plain(e.id) ==> HeldAt(log, n, e))
    requires ManifestsBy(ledger, n, me, a)
    ensures ManifestsBy(ledger, n, me, b)
  {
    forall id | id in b && id.kind.Manifest? && id != ManifestId(me)
      ensures Stamp(id, b[id].clock) in ledger && ledger[Stamp(id, b[id].clock)].at <= n
    {
      if id == e.id {
        assert WrittenEnvelope(ledger, log[SeqOf(e) - 1]);
      } else {
        assert id in a && b[id] == a[id];
      }
    }
  }

  /** Taking in a record the server held keeps everything, and accounts for it. */
  lemma TakeKeepsRowsInv(log: Log, ledger: Ledger, vault: nat, n: nat, me: u32, cursor: nat, seen: nat,
                         a: map<Id, Row>, b: map<Id, Row>, e: Envelope)
    requires LogInv(log, ledger, vault) && LedgerInv(log, ledger)
    requires RowsInv(log, n, ledger, me, cursor, seen, a)
    requires Takes(a, b, e) && (Plain(e.id) ==> HeldAt(log, n, e))
    ensures RowsInv(log, n, ledger, me, cursor, seen, b)
    ensures Plain(e.id) ==> Accounted(b, e)
  {
    TakeGrows(a, b, e);
    TakeKeepsBacked(log, ledger, vault, a, b, e);
    TakeKeepsConfirmed(log, ledger, vault, n, a, b, e);
    TakeKeepsBased(log, n, a, b, e);
    TakeKeepsCaughtUp(log, n, cursor, a, b, e);
    TakeKeepsSeen(log, ledger, vault, n, seen, a, b, e);
    GrowthKeepsAuthored(ledger, me, a, b);
    TakeKeepsManifestsBy(log, ledger, vault, n, me, a, b, e);
    GrowthKeepsOwnManifests(ledger, me, a, b);
  }

  // ----- The server's answer to a push -----

  /** An acknowledgement that names a record the server held after `n` writes. */
  predicate TrueAck(log: Log, n: nat, p: Pushed)
    requires n <= |log|
  {
    && 0 < p.seqNo <= n
    && log[p.seqNo - 1].id == p.id && log[p.seqNo - 1].clock == p.clock
    && LastIndex(log, n, p.id) == p.seqNo - 1
  }

  /** Clearing the flag for what the server took is taking that very record in. */
  lemma MarkTakes(log: Log, ledger: Ledger, vault: nat, n: nat, rows: map<Id, Row>, p: Pushed)
    requires LogInv(log, ledger, vault) && LedgerInv(log, ledger) && n <= |log|
    requires Backed(ledger, rows)
    requires TrueAck(log, n, p) && Matches(rows, p)
    ensures Takes(rows, MarkOne(rows, p), log[p.seqNo - 1])
    ensures HeldAt(log, n, log[p.seqNo - 1])
  {
    var e := log[p.seqNo - 1];
    if Plain(e.id) {
      WrittenIsNotStub(log, ledger, e);
      assert WrittenRow(ledger, e.id, rows[e.id]);
      assert RowVersion(rows[e.id]) == EnvelopeVersion(e);
    }
  }

  lemma {:induction false} MarkKeepsRowsInv(
    log: Log, ledger: Ledger, vault: nat, n: nat, me: u32, cursor: nat, seen: nat,
    rows: map<Id, Row>, pushed: seq<Pushed>)
    requires LogInv(log, ledger, vault) && LedgerInv(log, ledger)
    requires RowsInv(log, n, ledger, me, cursor, seen, rows)
    requires forall p :: p in pushed ==> TrueAck(log, n, p)
    ensures RowsInv(log, n, ledger, me, cursor, seen, MarkAll(rows, pushed))
    decreases |pushed|
  {
    if pushed != [] {
      var front, p := pushed[..|pushed| - 1], pushed[|pushed| - 1];
      MarkKeepsRowsInv(log, ledger, vault, n, me, cursor, seen, rows, front);
      var a := MarkAll(rows, front);
      if Matches(a, p) {
        MarkTakes(log, ledger, vault, n, a, p);
        TakeKeepsRowsInv(log, ledger, vault, n, me, cursor, seen, a, MarkOne(a, p), log[p.seqNo - 1]);
      }
    }
  }

  lemma LogIsReadable(log: Log, ledger: Ledger, d: Device, i: nat)
    requires LogInv(log, ledger, d.vault) && LedgerInv(log, ledger) && i < |log|
    ensures Readable(d, log[i])
  {
    if Plain(log[i].id) {
      assert Stamp(log[i].id, log[i].clock) in ledger;
    }
  }

  lemma ApplyKeepsRowsInv(log: Log, ledger: Ledger, n: nat, me: u32, cursor: nat, seen: nat,
                          d: Device, e: Envelope)
    requires LogInv(log, ledger, d.vault) && LedgerInv(log, ledger)
    requires RowsInv(log, n, ledger, me, cursor, seen, d.rows)
    requires HeldAt(log, n, e)
    ensures var rows := ApplyOne(d, e).device.rows;
            && Takes(d.rows, rows, e)
            && RowsInv(log, n, ledger, me, cursor, seen, rows)
            && (Plain(e.id) ==> Accounted(rows, e))
  {
    LogIsReadable(log, ledger, d, SeqOf(e) - 1);
    ApplyOneTakes(d, e);
    TakeKeepsRowsInv(log, ledger, d.vault, n, me, cursor, seen, d.rows, ApplyOne(d, e).device.rows, e);
  }

  /** A whole batch: whatever the order, everything is kept and every record of
      it is accounted for. */
  lemma {:induction false} BatchKeepsRowsInv(
    log: Log, ledger: Ledger, n: nat, me: u32, cursor: nat, seen: nat, b: Batch, es: seq<Envelope>)
    requires LogInv(log, ledger, b.device.vault) && LedgerInv(log, ledger)
    requires RowsInv(log, n, ledger, me, cursor, seen, b.device.rows)
    requires forall e :: e in es ==> HeldAt(log, n, e)
    ensures RowsInv(log, n, ledger, me, cursor, seen, ApplyAll(b, es).device.rows)
    ensures forall e :: e in es && Plain(e.id) ==> Accounted(ApplyAll(b, es).device.rows, e)
    decreases |es|
  {
    if es != [] {
      var front, e := es[..|es| - 1], es[|es| - 1];
      BatchKeepsRowsInv(log, ledger, n, me, cursor, seen, b, front);
      var d := ApplyAll(b, front).device;
      ApplyAllFrame(b, front);
      ApplyKeepsRowsInv(log, ledger, n, me, cursor, seen, d, e);
      var rows := ApplyOne(d, e).device.rows;
      assert rows == ApplyAll(b, es).device.rows;
      forall f | f in es && Plain(f.id)
        ensures Accounted(rows, f)
      {
        if f != e {
          assert f in front;
          TakeKeepsAccounted(log, n, d.rows, rows, e, f);
        }
      }
    }
  }

  // ----- The server taking a push -----

  /** A record on its way to the server: written, and no older than the version
      it is based on. */
  predicate Sendable(log: Log, ledger: Ledger, vault: nat, e: Envelope) {
    && e.vault == vault && HasTable(e.id.kind)
    && (Plain(e.id) ==>
          && WrittenEnvelope(ledger, e)
          && (e.baseSeq > 0 ==>
                && e.baseSeq <= |log| && log[e.baseSeq - 1].id == e.id
                && AtMost(EnvelopeVersion(log[e.baseSeq - 1]), EnvelopeVersion(e))))
  }

  lemma ServeOneKeepsLogInv(log: Log, ledger: Ledger, vault: nat, r: Reply, e: Envelope)
    requires LogInv(r.log, ledger, vault) && LedgerInv(log, ledger)
    requires log <= r.log && Sendable(log, ledger, vault, e)
    ensures LogInv(ServeOne(r, e).log, ledger, vault)
    ensures log <= ServeOne(r, e).log
  {
    var s := ServeOne(r, e);
    if s.log != r.log && Plain(e.id) {
      var held := Last(r.log, e.id);
      forall i | 0 <= i < |r.log| && r.log[i].id == e.id
        ensures AtMost(EnvelopeVersion(r.log[i]), EnvelopeVersion(e))
      {
        assert i <= held;
      }
    }
  }

  lemma {:induction false} ServeKeepsLogInv(log: Log, ledger: Ledger, vault: nat, es: seq<Envelope>)
    requires LogInv(log, ledger, vault) && LedgerInv(log, ledger)
    requires forall e :: e in es ==> Sendable(log, ledger, vault, e)
    ensures LogInv(Serve(log, es).log, ledger, vault)
    ensures log <= Serve(log, es).log
    decreases |es|
  {
    if es != [] {
      ServeKeepsLogInv(log, ledger, vault, es[..|es| - 1]);
      ServeOneKeepsLogInv(log, ledger, vault, Serve(log, es[..|es| - 1]), es[|es| - 1]);
    }
  }

  // ----- What everybody else does -----

  /** The log only ever gets longer. */
  lemma LongerLogKeepsRowsInv(log: Log, later: Log, ledger: Ledger, vault: nat, n: nat,
                              me: u32, cursor: nat, seen: nat, rows: map<Id, Row>)
    requires log <= later && LogInv(later, ledger, vault)
    requires RowsInv(log, n, ledger, me, cursor, seen, rows)
    ensures RowsInv(later, n, ledger, me, cursor, seen, rows)
  {
    forall i, m | 0 <= i < m <= |log|
      ensures LastIndex(later, m, log[i].id) == LastIndex(log, m, log[i].id)
    {
      LastIndexIgnoresLater(log, later, m, log[i].id);
    }
  }

  /** What was caught up with stays so when the reckoning moves to a later one. */
  lemma LaterReckoningKeepsRowsInv(log: Log, ledger: Ledger, n: nat, m: nat,
                                   me: u32, cursor: nat, seen: nat, rows: map<Id, Row>)
    requires RowsInv(log, n, ledger, me, cursor, seen, rows)
    requires n <= m <= |log|
    ensures RowsInv(log, m, ledger, me, cursor, seen, rows)
  {
    forall i | 0 <= i < cursor && LastIndex(log, m, log[i].id) == i
      ensures LastIndex(log, n, log[i].id) == i
    {
    }
  }

  /** The ledger after somebody wrote something: nothing in it changes. */
  predicate Extends(ledger: Ledger, later: Ledger) {
    forall s :: s in ledger ==> s in later && later[s] == ledger[s]
  }

  predicate WrittenByOthers(ledger: Ledger, later: Ledger, me: u32) {
    && Extends(ledger, later)
    && forall s :: s in later && s !in ledger ==> s.clock.device != me && s.id != ManifestId(me)
  }

  lemma LongerLedgerKeepsLogInv(log: Log, ledger: Ledger, later: Ledger, vault: nat)
    requires LogInv(log, ledger, vault) && Extends(ledger, later)
    ensures LogInv(log, later, vault)
  {
  }

  lemma OthersKeepRowsInv(log: Log, ledger: Ledger, later: Ledger, n: nat,
                          me: u32, cursor: nat, seen: nat, rows: map<Id, Row>)
    requires RowsInv(log, n, ledger, me, cursor, seen, rows)
    requires WrittenByOthers(ledger, later, me)
    ensures RowsInv(log, n, later, me, cursor, seen, rows)
  {
  }

  lemma LongerLogKeepsLedgerInv(log: Log, later: Log, ledger: Ledger)
    requires LedgerInv(log, ledger) && log <= later
    ensures LedgerInv(later, ledger)
  {
    forall s | s in ledger && s.id.kind.Manifest?
      ensures Backs(later, ledger[s].at, ledger[s].payload.entries)
    {
      var at := ledger[s].at;
      forall entry | entry in ledger[s].payload.entries && Plain(entry.id)
        ensures ServerHad(later, at, entry.id, EntryVersion(entry))
      {
        LastIndexIgnoresLater(log, later, at, entry.id);
        assert ServerHad(log, at, entry.id, EntryVersion(entry));
      }
    }
  }

  // ----- Local edits -----

  /** Every version this device wrote has a clock at most its own. */
  predicate ClockInv(ledger: Ledger, d: Device) {
    && d.clock.device == d.me
    && forall s :: s in ledger && s.clock.device == d.me ==> !Less(d.clock, s.clock)
  }

  /** What a local edit may do: change rows that are here and not deleted, or add
      records nobody has seen. */
  predicate Permitted(ledger: Ledger, d: Device, changes: map<Id, Change>) {
    && !AtTop(d.clock)
    && forall id :: id in changes ==>
         && Plain(id) && Synced(id.kind)
         && (changes[id].Put? ==> WellKinded(id.kind, false, changes[id].payload))
         && (if id in d.rows then !d.rows[id].deleted
             else changes[id].Put? && forall s :: s in ledger ==> s.id != id)
  }

  /** And what it writes over is older. `Drift` says when that is so by itself. */
  predicate Editable(ledger: Ledger, d: Device, changes: map<Id, Change>, now: u64) {
    && Permitted(ledger, d, changes)
    && forall id :: id in changes && id in d.rows && changes[id].Put? ==> Less(d.rows[id].clock, Tick(d.clock, now))
  }

  function EditLedger(log: Log, ledger: Ledger, d: Device, changes: map<Id, Change>, now: u64): Ledger {
    var clock := Tick(d.clock, now);
    ledger + map id | id in changes :: Stamp(id, clock) :=
      match changes[id]
      case Put(payload) => Content(false, payload, |log|)
      case Tombstone => Content(true, Empty, |log|)
  }

  lemma EditIsNew(log: Log, ledger: Ledger, d: Device, changes: map<Id, Change>, now: u64)
    requires ClockInv(ledger, d) && !AtTop(d.clock)
    ensures Extends(ledger, EditLedger(log, ledger, d, changes, now))
    ensures forall s :: s in ledger ==> s.clock != Tick(d.clock, now)
    ensures Less(d.clock, Tick(d.clock, now))
    ensures ClockInv(EditLedger(log, ledger, d, changes, now), Edit(d, changes, now))
  {
    TickIsMax(d.clock, now);
  }

  lemma EditGrows(ledger: Ledger, d: Device, changes: map<Id, Change>, now: u64)
    requires Editable(ledger, d, changes, now)
    ensures Grows(d.rows, Edit(d, changes, now).rows)
  {
    forall id | id in d.rows && Plain(id)
      ensures id in Edit(d, changes, now).rows
      ensures AtMost(RowVersion(d.rows[id]), RowVersion(Edit(d, changes, now).rows[id]))
    {
    }
  }

  lemma EditKeepsLedgerInv(log: Log, ledger: Ledger, d: Device, changes: map<Id, Change>, now: u64)
    requires LedgerInv(log, ledger) && ClockInv(ledger, d)
    requires Editable(ledger, d, changes, now)
    ensures LedgerInv(log, EditLedger(log, ledger, d, changes, now))
  {
    EditIsNew(log, ledger, d, changes, now);
  }

  /** What local writes do to rows: the ones written wait to be pushed, based on
      what they were based on before; none is older, none of the new ones is
      known to the server. */
  predicate Rewrites(log: Log, a: map<Id, Row>, b: map<Id, Row>) {
    && Grows(a, b)
    && (forall id :: id in b && Plain(id) ==>
          || (id in a && b[id] == a[id])
          || (b[id].dirty && b[id].serverSeq == if id in a then a[id].serverSeq else 0))
    && (forall i :: 0 <= i < |log| && Plain(log[i].id) && log[i].id in b ==> log[i].id in a)
  }

  lemma RewritesKeepCaughtUp(log: Log, n: nat, cursor: nat, seen: nat, a: map<Id, Row>, b: map<Id, Row>)
    requires Rewrites(log, a, b) && n <= |log|
    requires CaughtUp(log, n, cursor, a) && Seen(log, seen, a)
    ensures CaughtUp(log, n, cursor, b) && Seen(log, seen, b)
  {
    forall i | 0 <= i < |log| && Plain(log[i].id)
      ensures Accounted(a, log[i]) ==> Accounted(b, log[i])
      ensures Settled(a, log[i]) ==> Settled(b, log[i])
    {
    }
  }

  lemma RewritesKeepAccounted(log: Log, a: map<Id, Row>, b: map<Id, Row>, i: nat)
    requires Rewrites(log, a, b) && i < |log| && Plain(log[i].id)
    requires Accounted(a, log[i])
    ensures Accounted(b, log[i])
  {
  }

  lemma RewritesKeepConfirmed(log: Log, n: nat, a: map<Id, Row>, b: map<Id, Row>)
    requires Rewrites(log, a, b) && n <= |log| && Confirmed(log, a) && Based(log, n, a)
    ensures Confirmed(log, b) && Based(log, n, b)
  {
  }

  lemma EditRewrites(log: Log, ledger: Ledger, d: Device, changes: map<Id, Change>, now: u64)
    requires LogInv(log, ledger, d.vault)
    requires Editable(ledger, d, changes, now)
    ensures Rewrites(log, d.rows, Edit(d, changes, now).rows)
  {
    var rows := Edit(d, changes, now).rows;
    EditGrows(ledger, d, changes, now);
    forall i | 0 <= i < |log| && Plain(log[i].id) && log[i].id in rows
      ensures log[i].id in d.rows
    {
      assert Stamp(log[i].id, log[i].clock) in ledger;
    }
  }

  lemma EditKeepsAuthored(log: Log, ledger: Ledger, d: Device, changes: map<Id, Change>, now: u64)
    requires forall s :: s in ledger ==> Plain(s.id)
    requires ClockInv(ledger, d) && Authored(ledger, d.me, d.rows)
    requires Editable(ledger, d, changes, now)
    ensures Authored(EditLedger(log, ledger, d, changes, now), d.me, Edit(d, changes, now).rows)
  {
    var later := EditLedger(log, ledger, d, changes, now);
    var rows := Edit(d, changes, now).rows;
    EditIsNew(log, ledger, d, changes, now);
    EditGrows(ledger, d, changes, now);
    GrowthKeepsAuthored(ledger, d.me, d.rows, rows);
    forall s | s in later && s !in ledger
      ensures s.id in rows && AtMost(StampVersion(s, later[s]), RowVersion(rows[s.id]))
    {
      assert s.id in changes && Stamp(s.id, Tick(d.clock, now)) == s;
    }
  }

  lemma EditKeepsOwnManifests(log: Log, ledger: Ledger, d: Device, changes: map<Id, Change>, now: u64)
    requires ClockInv(ledger, d) && OwnManifests(ledger, d.me, d.rows)
    requires Editable(ledger, d, changes, now)
    ensures OwnManifests(EditLedger(log, ledger, d, changes, now), d.me, Edit(d, changes, now).rows)
  {
    var later := EditLedger(log, ledger, d, changes, now);
    EditIsNew(log, ledger, d, changes, now);
    EditGrows(ledger, d, changes, now);
    GrowthKeepsOwnManifests(ledger, d.me, d.rows, Edit(d, changes, now).rows);
    forall s | s in later && s.id == ManifestId(d.me)
      ensures s in ledger && later[s] == ledger[s]
    {
      assert s !in ledger ==> s.id in changes;
    }
  }

  lemma EditKeepsRowsInv(log: Log, n: nat, ledger: Ledger, cursor: nat, seen: nat,
                         d: Device, changes: map<Id, Change>, now: u64)
    requires LogInv(log, ledger, d.vault) && LedgerInv(log, ledger) && ClockInv(ledger, d)
    requires RowsInv(log, n, ledger, d.me, cursor, seen, d.rows)
    requires Editable(ledger, d, changes, now)
    ensures RowsInv(log, n, EditLedger(log, ledger, d, changes, now), d.me, cursor, seen,
                    Edit(d, changes, now).rows)
  {
    var rows := Edit(d, changes, now).rows;
    EditRewrites(log, ledger, d, changes, now);
    RewritesKeepCaughtUp(log, n, cursor, seen, d.rows, rows);
    RewritesKeepConfirmed(log, n, d.rows, rows);
    EditKeepsBacked(log, ledger, d, changes, now);
    EditKeepsAuthored(log, ledger, d, changes, now);
    EditKeepsOwnManifests(log, ledger, d, changes, now);
    EditIsNew(log, ledger, d, changes, now);
  }

  lemma EditKeepsBacked(log: Log, ledger: Ledger, d: Device, changes: map<Id, Change>, now: u64)
    requires Backed(ledger, d.rows) && ClockInv(ledger, d)
    requires Editable(ledger, d, changes, now)
    ensures Backed(EditLedger(log, ledger, d, changes, now), Edit(d, changes, now).rows)
  {
    EditIsNew(log, ledger, d, changes, now);
  }

  // ----- Publishing a manifest -----

  function PublishLedger(log: Log, ledger: Ledger, d: Device, listing: Payload, now: u64): Ledger {
    ledger[Stamp(ManifestId(d.me), Tick(d.clock, now)) := Content(false, listing, |log|)]
  }

  /** A manifest that lists this device's own rows, as they are. */
  predicate ListsOwnRows(rows: map<Id, Row>, me: u32, listing: Payload) {
    && listing.Listing? && listing.device == me
    && forall entry :: entry in listing.entries ==>
         entry.id in rows && Listed(rows[entry.id]) && entry == EntryOf(rows, entry.id)
  }

  lemma ListingIsOwn(d: Device)
    ensures ListsOwnRows(d.rows, d.me, ListingOf(d))
  {
    forall entry | entry in ListingOf(d).entries
      ensures entry.id in d.rows && Listed(d.rows[entry.id]) && entry == EntryOf(d.rows, entry.id)
    {
      assert entry in EntriesFrom(d.rows, 0);
    }
  }

  lemma PublishIsNew(log: Log, ledger: Ledger, d: Device, listing: Payload, now: u64)
    requires ClockInv(ledger, d) && !AtTop(d.clock)
    ensures Stamp(ManifestId(d.me), Tick(d.clock, now)) !in ledger
    ensures Extends(ledger, PublishLedger(log, ledger, d, listing, now))
    ensures ClockInv(PublishLedger(log, ledger, d, listing, now), d.(clock := Tick(d.clock, now)))
    ensures Less(d.clock, Tick(d.clock, now)) && Tick(d.clock, now).device == d.me
  {
    TickIsMax(d.clock, now);
  }

  lemma TakenIsCovered(log: Log, ledger: Ledger, vault: nat, n: nat, i: nat, version: Version)
    requires LogInv(log, ledger, vault) && i < n <= |log| && Plain(log[i].id)
    requires AtMost(version, EnvelopeVersion(log[i]))
    ensures ServerHad(log, n, log[i].id, version)
  {
    var j := LastIndex(log, n, log[i].id);
    assert i <= j;
  }

  lemma ListingIsBacked(log: Log, ledger: Ledger, d: Device, listing: Payload)
    requires LogInv(log, ledger, d.vault)
    requires Confirmed(log, d.rows) && ListsOwnRows(d.rows, d.me, listing)
    ensures Backs(log, |log|, listing.entries)
  {
    forall entry | entry in listing.entries && Plain(entry.id)
      ensures ServerHad(log, |log|, entry.id, EntryVersion(entry))
    {
      TakenIsCovered(log, ledger, d.vault, |log|, d.rows[entry.id].serverSeq - 1, EntryVersion(entry));
    }
  }

  /** The ledger's own manifests are this device's. */
  lemma OwnManifestClock(log: Log, ledger: Ledger, d: Device, clock: Hlc)
    requires LedgerInv(log, ledger) && ClockInv(ledger, d)
    requires Stamp(ManifestId(d.me), clock) in ledger
    ensures clock.device == d.me && !Less(d.clock, clock)
    ensures !ledger[Stamp(ManifestId(d.me), clock)].deleted
  {
    var s := Stamp(ManifestId(d.me), clock);
    assert s.id.kind.Manifest? && s.id == ManifestId(ledger[s].payload.device);
  }

  lemma PublishGrows(log: Log, ledger: Ledger, d: Device, listing: Payload, now: u64)
    requires LedgerInv(log, ledger) && ClockInv(ledger, d) && Backed(ledger, d.rows)
    requires !AtTop(d.clock)
    ensures Grows(d.rows, PublishAs(d, listing, now).rows)
  {
    var id := ManifestId(d.me);
    PublishIsNew(log, ledger, d, listing, now);
    if id in d.rows && d.rows[id] != STUB {
      OwnManifestClock(log, ledger, d, d.rows[id].clock);
    }
  }

  lemma PublishRewrites(log: Log, ledger: Ledger, d: Device, listing: Payload, now: u64)
    requires LogInv(log, ledger, d.vault) && LedgerInv(log, ledger) && ClockInv(ledger, d)
    requires Backed(ledger, d.rows) && Authored(ledger, d.me, d.rows)
    requires !AtTop(d.clock)
    ensures Rewrites(log, d.rows, PublishAs(d, listing, now).rows)
  {
    var id := ManifestId(d.me);
    PublishGrows(log, ledger, d, listing, now);
    forall i | 0 <= i < |log| && log[i].id == id
      ensures id in d.rows
    {
      assert WrittenEnvelope(ledger, log[i]);
      OwnManifestClock(log, ledger, d, log[i].clock);
    }
  }

  lemma PublishKeepsOwnManifests(ledger: Ledger, me: u32, a: map<Id, Row>, b: map<Id, Row>,
                                 s: Stamp, content: Content)
    requires OwnManifests(ledger, me, a) && Grows(a, b)
    requires ListsOwnRows(a, me, content.payload)
    ensures OwnManifests(ledger[s := content], me, b)
  {
    GrowthKeepsOwnManifests(ledger, me, a, b);
    forall entry | entry in content.payload.entries && Plain(entry.id)
      ensures entry.id in b && AtMost(EntryVersion(entry), RowVersion(b[entry.id]))
    {
      assert AtMost(RowVersion(a[entry.id]), RowVersion(b[entry.id]));
    }
  }

  lemma PublishKeepsRowsInv(log: Log, ledger: Ledger, cursor: nat, seen: nat,
                            d: Device, listing: Payload, now: u64)
    requires LogInv(log, ledger, d.vault) && LedgerInv(log, ledger) && ClockInv(ledger, d)
    requires RowsInv(log, |log|, ledger, d.me, cursor, seen, d.rows)
    requires ListsOwnRows(d.rows, d.me, listing) && !AtTop(d.clock)
    ensures RowsInv(log, |log|, PublishLedger(log, ledger, d, listing, now), d.me, cursor, seen,
                    PublishAs(d, listing, now).rows)
  {
    var rows := PublishAs(d, listing, now).rows;
    PublishIsNew(log, ledger, d, listing, now);
    PublishGrows(log, ledger, d, listing, now);
    PublishRewrites(log, ledger, d, listing, now);
    RewritesKeepCaughtUp(log, |log|, cursor, seen, d.rows, rows);
    RewritesKeepConfirmed(log, |log|, d.rows, rows);
    GrowthKeepsAuthored(ledger, d.me, d.rows, rows);
    PublishKeepsOwnManifests(ledger, d.me, d.rows, rows,
                             Stamp(ManifestId(d.me), Tick(d.clock, now)), Content(false, listing, |log|));
  }

  lemma PublishKeepsLedgerInv(log: Log, ledger: Ledger, d: Device, listing: Payload, now: u64)
    requires LogInv(log, ledger, d.vault) && LedgerInv(log, ledger) && ClockInv(ledger, d)
    requires Confirmed(log, d.rows) && ListsOwnRows(d.rows, d.me, listing)
    requires !AtTop(d.clock)
    ensures LedgerInv(log, PublishLedger(log, ledger, d, listing, now))
    ensures ClockInv(PublishLedger(log, ledger, d, listing, now), PublishAs(d, listing, now))
  {
    PublishIsNew(log, ledger, d, listing, now);
    ListingIsBacked(log, ledger, d, listing);
  }
}
