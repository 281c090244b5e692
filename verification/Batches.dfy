/** What a batch leaves behind: independent of its order, with every reference
    intact and every record counted once. */
module Batches {
  import opened Basics
  import opened Clock
  import opened Versions
  import opened Records
  import opened Device

  /** What the user sees of a record: live rows that are more than placeholders. */
  function Shown(rows: map<Id, Row>, id: Id): Option<Row> {
    if id in rows && !rows[id].deleted && rows[id].clock != ZERO then Some(rows[id]) else None
  }

  predicate ZeroIsStub(rows: map<Id, Row>) {
    forall id :: id in rows && rows[id].clock == ZERO ==> rows[id] == STUB
  }

  /** One version per id, none of them a placeholder's, host keys aside. */
  predicate OneEach(es: seq<Envelope>) {
    && (forall i, j :: 0 <= i < j < |es| ==> es[i].id != es[j].id)
    && (forall e :: e in es ==> Plain(e.id) && e.clock != ZERO)
  }

  /** The rows after one record, wherever it comes in the batch: only its own
      row, and placeholders where there was nothing. */
  predicate Touches(a: map<Id, Row>, b: map<Id, Row>, id: Id) {
    && (forall other :: other in a && other != id ==> other in b && b[other] == a[other])
    && (forall other :: other in b && other !in a && other != id ==> b[other] == STUB)
    && (id in a ==> id in b)
  }

  lemma ApplyOneTouches(d: Device, e: Envelope)
    requires Plain(e.id)
    ensures Touches(d.rows, ApplyOne(d, e).device.rows, e.id)
  {
  }

  function RowAt(rows: map<Id, Row>, id: Id): Option<Row> {
    if id in rows then Some(rows[id]) else None
  }

  /** What becomes of a record's own row, by what it was. */
  function OwnRow(vault: nat, was: Option<Row>, e: Envelope): Option<Row> {
    if e.vault != vault || !HasTable(e.id.kind) || !Opens(e) then was
    else if was.None? && e.deleted then was
    else
      var resolution := if was.None? then Remote else Resolve(RowVersion(was.value), EnvelopeVersion(e));
      match resolution
      case Identical => Some(was.value.(dirty := false, serverSeq := SeqOf(e)))
      case Local => Some(was.value.(serverSeq := SeqOf(e)))
      case Remote =>
        if e.deleted then Some(Tombstoned(was.value, e.id.kind, e.clock, false, SeqOf(e)))
        else if e.id.kind.Manifest? && (!e.blob.payload.Listing? || e.id != ManifestId(e.blob.payload.device)) then was
        else Some(Incoming(e))
  }

  lemma ApplyOneOwnRow(d: Device, e: Envelope)
    requires Plain(e.id)
    ensures RowAt(ApplyOne(d, e).device.rows, e.id) == OwnRow(d.vault, RowAt(d.rows, e.id), e)
  {
  }

  function ShownRow(row: Option<Row>): Option<Row> {
    if row.Some? && !row.value.deleted && row.value.clock != ZERO then row else None
  }

  /** A placeholder, or nothing. */
  predicate Absent(row: Option<Row>) {
    row.None? || row.value == STUB
  }

  lemma PlaceholderCountsAsNothing(vault: nat, a: Option<Row>, b: Option<Row>, e: Envelope)
    requires e.clock != ZERO && Absent(a) && Absent(b)
    ensures ShownRow(OwnRow(vault, a, e)) == ShownRow(OwnRow(vault, b, e))
  {
  }

  /** The same row, unless it is one nobody is shown. */
  predicate SameOrAbsent(was: Option<Row>, now: Option<Row>) {
    if Absent(was) then Absent(now) else now == was
  }

  /** The row `e` is about is what it would be if `e` had come alone. */
  predicate AsIfAlone(vault: nat, start: map<Id, Row>, rows: map<Id, Row>, e: Envelope) {
    var was := RowAt(start, e.id);
    && Shown(rows, e.id) == ShownRow(OwnRow(vault, was, e))
    && (!Absent(was) ==> RowAt(rows, e.id) == OwnRow(vault, was, e))
  }

  /** Every row of a batch is, and every other row is the same. */
  ghost predicate AllAsIfAlone(vault: nat, start: map<Id, Row>, rows: map<Id, Row>, es: seq<Envelope>) {
    && (forall e :: e in es ==> AsIfAlone(vault, start, rows, e))
    && (forall id :: !Offered(es, id) ==> SameOrAbsent(RowAt(start, id), RowAt(rows, id)))
  }

  lemma OfferedOneMore(es: seq<Envelope>, e: Envelope, id: Id)
    ensures Offered(es + [e], id) <==> Offered(es, id) || e.id == id
  {
    if Offered(es, id) {
      var f :| f in es && f.id == id;
      assert f in es + [e];
    }
    assert e in es + [e];
  }

  lemma OwnIsAsIfAlone(vault: nat, start: map<Id, Row>, a: map<Id, Row>, b: map<Id, Row>, e: Envelope)
    requires e.clock != ZERO && SameOrAbsent(RowAt(start, e.id), RowAt(a, e.id))
    requires RowAt(b, e.id) == OwnRow(vault, RowAt(a, e.id), e)
    ensures AsIfAlone(vault, start, b, e)
  {
    if Absent(RowAt(start, e.id)) {
      PlaceholderCountsAsNothing(vault, RowAt(start, e.id), RowAt(a, e.id), e);
    }
  }

  lemma OtherStaysAsIfAlone(vault: nat, start: map<Id, Row>, a: map<Id, Row>, b: map<Id, Row>,
                            e: Envelope, f: Envelope)
    requires AsIfAlone(vault, start, a, f) && Touches(a, b, e.id) && f.id != e.id
    ensures AsIfAlone(vault, start, b, f)
  {
    assert Shown(b, f.id) == Shown(a, f.id);
    if !Absent(RowAt(start, f.id)) {
      OwnRowStays(vault, RowAt(start, f.id), f);
      assert f.id in a;
    }
  }

  lemma OwnRowStays(vault: nat, was: Option<Row>, e: Envelope)
    requires was.Some?
    ensures OwnRow(vault, was, e).Some?
  {
  }

  lemma OneMoreIsAsIfAlone(vault: nat, start: map<Id, Row>, a: map<Id, Row>, b: map<Id, Row>,
                           es: seq<Envelope>, e: Envelope)
    requires AllAsIfAlone(vault, start, a, es)
    requires e.clock != ZERO && !Offered(es, e.id)
    requires Touches(a, b, e.id) && RowAt(b, e.id) == OwnRow(vault, RowAt(a, e.id), e)
    ensures AllAsIfAlone(vault, start, b, es + [e])
  {
    OwnIsAsIfAlone(vault, start, a, b, e);
    forall f | f in es + [e]
      ensures AsIfAlone(vault, start, b, f)
    {
      if f != e {
        assert f in es;
        OtherStaysAsIfAlone(vault, start, a, b, e, f);
      }
    }
    forall id | !Offered(es + [e], id)
      ensures SameOrAbsent(RowAt(start, id), RowAt(b, id))
    {
      OfferedOneMore(es, e, id);
      assert SameOrAbsent(RowAt(start, id), RowAt(a, id));
    }
  }

  lemma {:induction false} BatchIsAsIfAlone(b: Batch, es: seq<Envelope>)
    requires OneEach(es)
    ensures AllAsIfAlone(b.device.vault, b.device.rows, ApplyAll(b, es).device.rows, es)
    ensures ApplyAll(b, es).device.vault == b.device.vault
    decreases |es|
  {
    hide ApplyOne, OwnRow, Touches, AsIfAlone;
    if es != [] {
      var front, e := es[..|es| - 1], es[|es| - 1];
      assert OneEach(front) by { assert forall f :: f in front ==> f in es; }
      BatchIsAsIfAlone(b, front);
      var d := ApplyAll(b, front).device;
      ApplyOneTouches(d, e);
      ApplyOneOwnRow(d, e);
      ApplyOneFrame(d, e);
      assert es == front + [e];
      OneMoreIsAsIfAlone(b.device.vault, b.device.rows, d.rows, ApplyOne(d, e).device.rows, front, e);
    }
  }

  /** Any two orders of a batch leave the same records with the same fields. What
      may differ is a row nobody is shown: a delete that found a placeholder in
      one order and nothing in the other. */
  lemma OrderDoesNotMatter(b: Batch, es: seq<Envelope>, fs: seq<Envelope>, id: Id)
    requires multiset(es) == multiset(fs) && OneEach(es) && OneEach(fs)
    ensures var x, y := ApplyAll(b, es).device.rows, ApplyAll(b, fs).device.rows;
            && Shown(x, id) == Shown(y, id)
            && (!Absent(RowAt(b.device.rows, id)) ==> RowAt(x, id) == RowAt(y, id))
  {
    BatchIsAsIfAlone(b, es);
    BatchIsAsIfAlone(b, fs);
    var start, x, y := b.device.rows, ApplyAll(b, es).device.rows, ApplyAll(b, fs).device.rows;
    if Offered(es, id) {
      var e :| e in es && e.id == id;
      assert e in multiset(fs);
      assert AsIfAlone(b.device.vault, start, x, e) && AsIfAlone(b.device.vault, start, y, e);
    } else {
      assert forall f :: f in fs ==> f in multiset(es);
      assert !Offered(fs, id);
      assert SameOrAbsent(RowAt(start, id), RowAt(x, id)) && SameOrAbsent(RowAt(start, id), RowAt(y, id));
    }
  }

  // ----- References -----

  /** Every record points at rows that exist. */
  predicate RefsHold(rows: map<Id, Row>) {
    forall id, ref :: id in rows && rows[id].payload.Fields? && ref in rows[id].payload.refs ==>
      Pointable(ref.kind) && ref in rows
  }

  /** Nothing a record can point at ever goes away. */
  lemma PointableRowsStay(d: Device, e: Envelope, ref: Id)
    requires ref in d.rows && Pointable(ref.kind)
    ensures ref in ApplyOne(d, e).device.rows
  {
  }

  /** What a new row points at is there. */
  lemma NewRowPointsAtRows(d: Device, e: Envelope, id: Id)
    requires id in ApplyOne(d, e).device.rows
    requires ApplyOne(d, e).device.rows[id].payload.Fields?
    ensures var rows := ApplyOne(d, e).device.rows;
            || (id in d.rows && rows[id].payload == d.rows[id].payload)
            || forall ref :: ref in rows[id].payload.refs ==> Pointable(ref.kind) && ref in rows
  {
  }

  lemma ApplyOneKeepsRefs(d: Device, e: Envelope)
    requires RefsHold(d.rows)
    ensures RefsHold(ApplyOne(d, e).device.rows)
  {
    var rows := ApplyOne(d, e).device.rows;
    forall id, ref | id in rows && rows[id].payload.Fields? && ref in rows[id].payload.refs
      ensures Pointable(ref.kind) && ref in rows
    {
      NewRowPointsAtRows(d, e, id);
      if id in d.rows && rows[id].payload == d.rows[id].payload { PointableRowsStay(d, e, ref); }
    }
  }

  lemma ApplyOneKeepsStubs(d: Device, e: Envelope)
    requires ZeroIsStub(d.rows) && e.clock != ZERO
    ensures ZeroIsStub(ApplyOne(d, e).device.rows)
  {
  }

  /** After every single record of a batch, in any order and from any server,
      references hold, and placeholders are neither waiting to be pushed nor
      listed in a manifest. */
  lemma {:induction false} BatchKeepsRefs(b: Batch, es: seq<Envelope>)
    requires RefsHold(b.device.rows) && ZeroIsStub(b.device.rows)
    requires forall e :: e in es ==> e.clock != ZERO
    ensures var rows := ApplyAll(b, es).device.rows;
            && RefsHold(rows) && ZeroIsStub(rows)
            && forall id :: id in rows && rows[id].clock == ZERO ==> !rows[id].dirty && !Listed(rows[id])
    decreases |es|
  {
    if es != [] {
      var front, e := es[..|es| - 1], es[|es| - 1];
      assert forall f :: f in front ==> f in es;
      BatchKeepsRefs(b, front);
      ApplyOneKeepsRefs(ApplyAll(b, front).device, e);
      ApplyOneKeepsStubs(ApplyAll(b, front).device, e);
    }
  }

  // ----- The report -----

  function Total(r: Report): nat {
    r.applied + r.kept + r.same + r.skipped + r.rejected + r.manifests
  }

  /** Every envelope is counted exactly once. */
  lemma {:induction false} EveryRecordIsCounted(b: Batch, es: seq<Envelope>)
    ensures Total(ApplyAll(b, es).report) == Total(b.report) + |es|
    decreases |es|
  {
    if es != [] {
      EveryRecordIsCounted(b, es[..|es| - 1]);
    }
  }

  // ----- A server that lies -----

  /** Whether a row waits to be pushed, with the version it has. */
  predicate Waits(rows: map<Id, Row>, id: Id, version: Version) {
    id in rows && rows[id].dirty && RowVersion(rows[id]) == version
  }

  /** Whatever a server sends: no row is lost or made older, none starts to wait,
      and a row stops waiting only for its own version or a newer one, under its
      seal. */
  lemma AnyServerKeepsRows(d: Device, e: Envelope, id: Id)
    requires Plain(id)
    ensures var rows := ApplyOne(d, e).device.rows;
            && (id in d.rows ==> id in rows && AtMost(RowVersion(d.rows[id]), RowVersion(rows[id])))
            && (forall version :: Waits(rows, id, version) ==> Waits(d.rows, id, version))
            && (forall version :: Waits(d.rows, id, version) && !Waits(rows, id, version) ==>
                  id == e.id && Opens(e) && AtMost(version, EnvelopeVersion(e)))
  {
    if id == e.id {
      ApplyOneOwnRow(d, e);
    } else if Plain(e.id) {
      ApplyOneTouches(d, e);
    }
  }

  /** A row that changes to a version it did not have holds what was sealed. */
  lemma NothingIsForged(d: Device, e: Envelope, id: Id)
    requires var rows := ApplyOne(d, e).device.rows;
             id in rows && (id !in d.rows || RowVersion(rows[id]) != RowVersion(d.rows[id]))
    ensures var row := ApplyOne(d, e).device.rows[id];
            || row == STUB
            || (&& id == e.id && Opens(e) && e.blob.vault == e.vault == d.vault && e.blob.id == id
                && RowVersion(row) == Version(e.blob.clock, e.blob.deleted) && !row.dirty
                && (!row.deleted ==> row.payload == e.blob.payload))
  {
  }

  // ----- The check and the merge -----

  /** Whether applying `e` would write its version here. */
  ghost predicate Writes(d: Device, e: Envelope) {
    e.id in ApplyOne(d, e).device.rows
    && (e.id in d.rows ==> RowVersion(d.rows[e.id]) != EnvelopeVersion(e))
    && RowVersion(ApplyOne(d, e).device.rows[e.id]) == EnvelopeVersion(e)
  }

  /** The check flags a live version exactly when the merge would write it. A
      flagged delete would always be written; the deletes the check passes over
      although they would be are those of a row whose clock is not older. */
  lemma CheckAgreesWithMerge(d: Device, e: Envelope)
    requires Plain(e.id) && HasTable(e.id.kind) && e.id !in d.superseded
    requires e.vault == d.vault && Opens(e)
    requires e.id.kind.Manifest? ==> e.blob.payload.Listing? && e.id == ManifestId(e.blob.payload.device)
    ensures var entry := Entry(e.id, e.clock, e.deleted);
            var flagged := CheckEntry(d.rows, d.superseded, entry).Some?;
            && (!e.deleted ==> (flagged <==> Writes(d, e)))
            && (e.deleted ==>
                  (Writes(d, e) <==>
                     flagged || (e.id in d.rows && RowVersion(d.rows[e.id]) != EnvelopeVersion(e)
                                 && (if d.rows[e.id].deleted then Less(d.rows[e.id].clock, e.clock)
                                     else !Less(d.rows[e.id].clock, e.clock)))))
  {
  }

  /** Whether the merge would write `e` as a live row. */
  predicate Lands(d: Device, e: Envelope) {
    && e.vault == d.vault && HasTable(e.id.kind) && Opens(e) && !e.deleted
    && (e.id in d.rows ==> Below(RowVersion(d.rows[e.id]), EnvelopeVersion(e)))
    && (|| e.blob.payload.Fields?
        || (e.blob.payload.Listing? && e.id == ManifestId(e.blob.payload.device)))
  }

  /** Whether `e` puts something older than `entry` where there was nothing: itself,
      or a placeholder for what it points at. */
  predicate Uncovers(e: Envelope, entry: Entry) {
    || (e.id == entry.id && Less(e.clock, entry.clock))
    || (&& e.id != entry.id && e.blob.Sealed? && e.blob.payload.Fields?
        && entry.id in e.blob.payload.refs && Less(ZERO, entry.clock))
  }

  /** When what is accounted for stays so: always, if there is a row for it; and
      where there is none, which is a delete never taken in, unless the record that
      arrives lands, and is older or points at it. */
  lemma CheckStaysPassed(d: Device, e: Envelope, entry: Entry)
    requires Plain(entry.id) && entry.id !in d.superseded && Plain(e.id)
    requires HasTable(entry.id.kind) && CheckEntry(d.rows, d.superseded, entry).None?
    ensures var after := ApplyOne(d, e).device;
            CheckEntry(after.rows, after.superseded, entry).None?
            <==> entry.id in d.rows || !Lands(d, e) || !Uncovers(e, entry)
  {
    AnyServerKeepsRows(d, e, entry.id);
    assert ApplyOne(d, e).device.superseded == d.superseded;
  }

  /** A delete of a group this device never had passes the check. Then a host of
      that group arrives, the group gets a placeholder, and the same line of the
      same manifest is a problem. */
  lemma PassedDeleteIsUncovered()
    ensures var group, host := Id(Group, 5), Id(Host, 6);
            var d := Device(1, 0, map[], map[], Hlc(0, 0, 1), 0, map[], None);
            var clock := Hlc(7, 0, 2);
            var e := Envelope(0, host, clock, false, 0, Sealed(0, host, clock, false, Fields(0, [group])), Some(1));
            var entry := Entry(group, Hlc(9, 0, 2), true);
            var after := ApplyOne(d, e).device;
            && CheckEntry(d.rows, d.superseded, entry).None?
            && CheckEntry(after.rows, after.superseded, entry) == Some(Older)
  {
    var group, host := Id(Group, 5), Id(Host, 6);
    var d := Device(1, 0, map[], map[], Hlc(0, 0, 1), 0, map[], None);
    var clock := Hlc(7, 0, 2);
    var e := Envelope(0, host, clock, false, 0, Sealed(0, host, clock, false, Fields(0, [group])), Some(1));
    assert Opens(e);
    var rows := ApplyOne(d, e).device.rows;
    assert rows == AddStubs(d.rows, [group])[host := Incoming(e)];
    assert group in rows && rows[group] == STUB;
  }
}
