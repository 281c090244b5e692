/** Host keys: one row per address and port, taken by the newest record. */
module KnownHosts {
  import opened Basics
  import opened Clock
  import opened Versions
  import opened Records
  import opened Device

  /** A host key as it can arrive: live, sealed, for this vault. */
  predicate Deliverable(vault: nat, e: Envelope) {
    e.vault == vault && e.id.kind.KnownHost? && !e.deleted && Opens(e)
  }

  /** A record is for one slot, and no two records share a clock. */
  predicate Consistent(es: set<Envelope>) {
    forall a, b :: a in es && b in es ==>
      && (a.id == b.id ==> a.blob == b.blob || a.clock != b.clock)
      && (a.id == b.id ==> SlotOf(a) == SlotOf(b))
      && (a.clock == b.clock ==> a.id == b.id)
  }

  function SlotOf(e: Envelope): nat {
    if e.blob.Sealed? && e.blob.payload.HostKey? then e.blob.payload.slot else 0
  }

  /** The row is what one of the delivered records says. */
  predicate From(rows: map<Id, Row>, id: Id, e: Envelope) {
    && id in rows && id == e.id && !rows[id].deleted && rows[id].clock == e.clock
    && e.blob.Sealed? && rows[id].payload == e.blob.payload
  }

  ghost predicate RowsComeFrom(es: set<Envelope>, rows: map<Id, Row>) {
    forall id :: id in rows && id.kind.KnownHost? ==> exists e :: e in es && From(rows, id, e)
  }

  predicate Occupies(rows: map<Id, Row>, id: Id, e: Envelope) {
    && id in rows && id.kind.KnownHost?
    && rows[id].payload.HostKey? && rows[id].payload.slot == SlotOf(e)
    && !Less(rows[id].clock, e.clock)
  }

  /** Somebody at least as new has the slot. */
  ghost predicate SlotTaken(rows: map<Id, Row>, e: Envelope) {
    exists id :: Occupies(rows, id, e)
  }

  /** What the manifest check asks: a row, or a note that a version at least as
      new was given up. */
  predicate Remembered(d: Device, e: Envelope) {
    || (e.id in d.rows && !Less(d.rows[e.id].clock, e.clock))
    || (e.id in d.superseded && !Less(d.superseded[e.id], e.clock))
  }

  ghost predicate SlotInv(d: Device, es: set<Envelope>) {
    && RowsComeFrom(es, d.rows)
    && OnePerSlot(d.rows)
    && (forall e :: e in es ==> SlotTaken(d.rows, e) && Remembered(d, e))
  }

  /** What the rows look like to a record that arrives. */
  predicate Admits(rows: map<Id, Row>, e: Envelope)
    requires e.blob.Sealed?
  {
    forall id :: id in rows && id.kind.KnownHost? ==>
      && rows[id].payload.HostKey? && !rows[id].deleted
      && (id == e.id ==> rows[id].payload.slot == SlotOf(e))
      && (id == e.id && rows[id].clock == e.clock ==> rows[id].payload == e.blob.payload)
      && (id != e.id ==> rows[id].clock != e.clock)
  }

  lemma RowsAdmit(vault: nat, rows: map<Id, Row>, es: set<Envelope>, e: Envelope)
    requires RowsComeFrom(es, rows) && Deliverable(vault, e) && Consistent(es + {e})
    requires forall f :: f in es ==> Deliverable(vault, f)
    ensures Admits(rows, e)
  {
    forall id | id in rows && id.kind.KnownHost?
      ensures rows[id].payload.HostKey? && !rows[id].deleted
      ensures id == e.id ==> rows[id].payload.slot == SlotOf(e)
      ensures id == e.id && rows[id].clock == e.clock ==> rows[id].payload == e.blob.payload
      ensures id != e.id ==> rows[id].clock != e.clock
    {
      var own :| own in es && From(rows, id, own);
      assert own in es + {e} && e in es + {e};
    }
  }

  lemma SupersedeRemembers(superseded: map<Id, Hlc>, id: Id, clock: Hlc)
    ensures var after := Supersede(superseded, id, clock);
            && id in after && !Less(after[id], clock)
            && forall other :: other in superseded ==> other in after && !Less(after[other], superseded[other])
  {
  }

  /** The record that arrives loses its slot. */
  lemma GivenUp(d: Device, es: set<Envelope>, e: Envelope, rival: Id)
    requires SlotInv(d, es) && Deliverable(d.vault, e) && Admits(d.rows, e)
    requires Occupies(d.rows, rival, e)
    ensures SlotInv(d.(superseded := Supersede(d.superseded, e.id, e.clock)), es + {e})
  {
    var after := d.(superseded := Supersede(d.superseded, e.id, e.clock));
    SupersedeRemembers(d.superseded, e.id, e.clock);
    forall f | f in es + {e}
      ensures SlotTaken(after.rows, f) && Remembered(after, f)
    {
      if f in es {
        assert SlotTaken(d.rows, f) && Remembered(d, f);
      }
    }
  }

  /** The same key at the same clock. */
  predicate SameKey(a: map<Id, Row>, b: map<Id, Row>, id: Id) {
    && id in a && id in b
    && b[id].clock == a[id].clock && b[id].deleted == a[id].deleted && b[id].payload == a[id].payload
  }

  lemma RowsStayFrom(es: set<Envelope>, e: Envelope, a: map<Id, Row>, b: map<Id, Row>)
    requires RowsComeFrom(es, a)
    requires forall id :: id in b && id.kind.KnownHost? ==> SameKey(a, b, id) || From(b, id, e)
    ensures RowsComeFrom(es + {e}, b)
  {
    forall id | id in b && id.kind.KnownHost?
      ensures exists f :: f in es + {e} && From(b, id, f)
    {
      if SameKey(a, b, id) {
        var own :| own in es && From(a, id, own);
        assert own in es + {e} && From(b, id, own);
      } else {
        assert e in es + {e};
      }
    }
  }

  /** `heir` has the slot now. */
  predicate Inherits(a: map<Id, Row>, b: map<Id, Row>, id: Id, heir: Id) {
    && id in a && heir in b && heir.kind.KnownHost? && b[heir].payload.HostKey?
    && (a[id].payload.HostKey? ==> b[heir].payload.slot == a[id].payload.slot)
    && Less(a[id].clock, b[heir].clock)
  }

  lemma SlotStaysTaken(f: Envelope, a: map<Id, Row>, b: map<Id, Row>, heir: Id)
    requires SlotTaken(a, f)
    requires forall id :: id in a && id.kind.KnownHost? ==> SameKey(a, b, id) || Inherits(a, b, id, heir)
    ensures SlotTaken(b, f)
  {
    var id :| Occupies(a, id, f);
    assert Occupies(b, if SameKey(a, b, id) then id else heir, f);
  }

  /** The row is there already, at least as new. */
  lemma HadIt(d: Device, es: set<Envelope>, e: Envelope, row: Row)
    requires SlotInv(d, es) && Deliverable(d.vault, e) && Admits(d.rows, e)
    requires e.id in d.rows && !Less(d.rows[e.id].clock, e.clock)
    requires row.clock == d.rows[e.id].clock && row.deleted == d.rows[e.id].deleted
    requires row.payload == d.rows[e.id].payload
    ensures SlotInv(d.(rows := d.rows[e.id := row]), es + {e})
  {
    hide RowsComeFrom;
    var after := d.(rows := d.rows[e.id := row]);
    RowsStayFrom(es, e, d.rows, after.rows);
    assert Occupies(after.rows, e.id, e);
    forall f | f in es
      ensures SlotTaken(after.rows, f) && Remembered(after, f)
    {
      SlotStaysTaken(f, d.rows, after.rows, e.id);
      assert Remembered(d, f);
    }
  }

  lemma StaysOnePerSlot(rows: map<Id, Row>, rival: set<Id>, e: Envelope)
    requires OnePerSlot(rows) && Opens(e) && e.blob.payload.HostKey?
    requires forall id :: id in rows && id !in rival ==> !Rival(rows, e.id, SlotOf(e), id)
    ensures OnePerSlot((rows - rival)[e.id := Incoming(e)])
  {
  }

  lemma StaysRemembered(d: Device, rival: set<Id>, e: Envelope, f: Envelope, superseded: map<Id, Hlc>)
    requires Remembered(d, f) && Opens(e)
    requires e.id in d.rows ==> Less(d.rows[e.id].clock, e.clock)
    requires forall id :: id in rival ==>
               id in d.rows && id in superseded && !Less(superseded[id], d.rows[id].clock)
    requires forall id :: id in d.superseded ==> id in superseded && !Less(superseded[id], d.superseded[id])
    ensures Remembered(d.(rows := (d.rows - rival)[e.id := Incoming(e)], superseded := superseded), f)
  {
  }

  /** The record that arrives takes the slot, from `rival` if there is one. */
  lemma TakesOver(d: Device, es: set<Envelope>, e: Envelope, rival: set<Id>, superseded: map<Id, Hlc>)
    requires SlotInv(d, es) && Deliverable(d.vault, e) && Admits(d.rows, e)
    requires e.id in d.rows ==> Less(d.rows[e.id].clock, e.clock)
    requires forall id :: id in d.rows && id !in rival ==> !Rival(d.rows, e.id, SlotOf(e), id)
    requires forall id :: id in rival ==>
               && Rival(d.rows, e.id, SlotOf(e), id) && Less(d.rows[id].clock, e.clock)
               && id in superseded && !Less(superseded[id], d.rows[id].clock)
    requires forall id :: id in d.superseded ==> id in superseded && !Less(superseded[id], d.superseded[id])
    ensures SlotInv(d.(rows := (d.rows - rival)[e.id := Incoming(e)], superseded := superseded), es + {e})
  {
    var rows := (d.rows - rival)[e.id := Incoming(e)];
    assert From(rows, e.id, e) && Occupies(rows, e.id, e);
    RowsStayFrom(es, e, d.rows, rows);
    StaysOnePerSlot(d.rows, rival, e);
    forall f | f in es
      ensures SlotTaken(rows, f)
    {
      SlotStaysTaken(f, d.rows, rows, e.id);
    }
    forall f | f in es
      ensures Remembered(d.(rows := rows, superseded := superseded), f)
    {
      StaysRemembered(d, rival, e, f, superseded);
    }
  }

  lemma DeliverAbsent(d: Device, es: set<Envelope>, e: Envelope)
    requires SlotInv(d, es) && Deliverable(d.vault, e) && Admits(d.rows, e)
    requires e.id in d.rows ==> Less(d.rows[e.id].clock, e.clock)
    ensures SlotInv(InsertHostKey(d, e).device, es + {e})
  {
    hide SlotTaken, Remembered, RowsComeFrom;
    match RivalOf(d.rows, e.id, SlotOf(e))
    case None =>
      TakesOver(d, es, e, {}, d.superseded);
      assert d.rows - {} == d.rows;
    case Some(rival) =>
      assert forall id :: Rival(d.rows, e.id, SlotOf(e), id) ==> id == rival;
      if Less(e.clock, d.rows[rival].clock) {
        GivenUp(d, es, e, rival);
      } else {
        SupersedeRemembers(d.superseded, rival, d.rows[rival].clock);
        TakesOver(d, es, e, {rival}, Supersede(d.superseded, rival, d.rows[rival].clock));
      }
  }

  lemma ApplyToNewerKey(d: Device, e: Envelope)
    requires Deliverable(d.vault, e) && e.id in d.rows && !d.rows[e.id].deleted
    requires !Less(d.rows[e.id].clock, e.clock)
    ensures var row := ApplyOne(d, e).device.rows[e.id];
            && ApplyOne(d, e).device == d.(rows := d.rows[e.id := row])
            && row.clock == d.rows[e.id].clock && !row.deleted && row.payload == d.rows[e.id].payload
  {
  }

  lemma ApplyToOlderKey(d: Device, e: Envelope)
    requires Deliverable(d.vault, e)
    requires e.id in d.rows ==> !d.rows[e.id].deleted && Less(d.rows[e.id].clock, e.clock)
    ensures ApplyOne(d, e) == InsertHostKey(d, e)
  {
  }

  /** One delivery, new or repeated, keeps the slots right. */
  lemma DeliverKeepsSlots(d: Device, es: set<Envelope>, e: Envelope)
    requires SlotInv(d, es) && Deliverable(d.vault, e) && Admits(d.rows, e)
    ensures SlotInv(ApplyOne(d, e).device, es + {e})
  {
    if e.id in d.rows && !Less(d.rows[e.id].clock, e.clock) {
      ApplyToNewerKey(d, e);
      HadIt(d, es, e, ApplyOne(d, e).device.rows[e.id]);
    } else {
      ApplyToOlderKey(d, e);
      DeliverAbsent(d, es, e);
    }
  }

  function Elements(es: seq<Envelope>): set<Envelope> {
    set e | e in es
  }

  lemma ElementsOneMore(es: seq<Envelope>)
    requires es != []
    ensures Elements(es) == Elements(es[..|es| - 1]) + {es[|es| - 1]}
  {
    assert forall f :: f in es <==> f in es[..|es| - 1] || f == es[|es| - 1];
  }

  lemma PartIsConsistent(es: set<Envelope>, part: set<Envelope>)
    requires Consistent(es) && part <= es
    ensures Consistent(part)
  {
  }

  lemma NextDelivery(d: Device, es: set<Envelope>, e: Envelope)
    requires SlotInv(d, es) && Consistent(es + {e})
    requires forall f :: f in es + {e} ==> Deliverable(d.vault, f)
    ensures SlotInv(ApplyOne(d, e).device, es + {e})
  {
    assert e in es + {e};
    assert Admits(d.rows, e) by {
      assert forall f :: f in es ==> f in es + {e};
      RowsAdmit(d.vault, d.rows, es, e);
    }
    DeliverKeepsSlots(d, es, e);
  }

  /** Any delivery order, with any duplicates. */
  lemma {:induction false} DeliveriesKeepSlots(b: Batch, es: seq<Envelope>)
    requires forall id :: id in b.device.rows ==> !id.kind.KnownHost?
    requires forall e :: e in Elements(es) ==> Deliverable(b.device.vault, e)
    requires Consistent(Elements(es))
    ensures SlotInv(ApplyAll(b, es).device, Elements(es))
    decreases |es|
  {
    if es != [] {
      var front, e := es[..|es| - 1], es[|es| - 1];
      ElementsOneMore(es);
      ApplyAllFrame(b, front);
      PartIsConsistent(Elements(es), Elements(front));
      DeliveriesKeepSlots(b, front);
      var d := ApplyAll(b, front).device;
      NextDelivery(d, Elements(front), e);
    }
  }

  /** The newest record delivered for a slot. */
  predicate Newest(es: set<Envelope>, e: Envelope) {
    e in es && forall f :: f in es && SlotOf(f) == SlotOf(e) ==> !Less(e.clock, f.clock)
  }

  lemma WinnerIsNewest(d: Device, es: set<Envelope>, e: Envelope)
    requires SlotInv(d, es) && e in es && Consistent(es)
    requires forall f :: f in es ==> Deliverable(d.vault, f)
    ensures Newest(es, e) <==> From(d.rows, e.id, e)
  {
    var id :| Occupies(d.rows, id, e);
    var own :| own in es && From(d.rows, id, own);
    if Newest(es, e) {
      assert SlotOf(own) == SlotOf(e) && own.clock == e.clock;
    }
    if From(d.rows, e.id, e) {
      forall f | f in es && SlotOf(f) == SlotOf(e)
        ensures !Less(e.clock, f.clock)
      {
        var other :| Occupies(d.rows, other, f);
        assert other == e.id;
      }
    }
  }

  lemma RememberedPasses(d: Device, e: Envelope)
    requires Remembered(d, e)
    ensures CheckEntry(d.rows, d.superseded, Entry(e.id, e.clock, false)).None?
  {
  }

  /** Whatever the order and however often each record arrives: every address and
      port has at most one key, it is the newest of those delivered for it, and
      every record that lost is remembered by its id, so the check does not miss
      it. */
  lemma NewestKeyWins(b: Batch, es: seq<Envelope>, e: Envelope)
    requires forall id :: id in b.device.rows ==> !id.kind.KnownHost?
    requires forall f :: f in es ==> Deliverable(b.device.vault, f)
    requires Consistent(Elements(es)) && e in es
    ensures var d := ApplyAll(b, es).device;
            && OnePerSlot(d.rows)
            && Remembered(d, e)
            && CheckEntry(d.rows, d.superseded, Entry(e.id, e.clock, false)).None?
            && (From(d.rows, e.id, e) <==> Newest(Elements(es), e))
  {
    var d := ApplyAll(b, es).device;
    ApplyAllFrame(b, es);
    assert e in Elements(es) && forall f :: f in Elements(es) ==> f in es;
    DeliveriesKeepSlots(b, es);
    WinnerIsNewest(d, Elements(es), e);
    RememberedPasses(d, e);
  }
}
