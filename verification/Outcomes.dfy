/** What a batch reports: the order it is applied in, what became of each record, and
    the clock it is heard at. */
module Outcomes {
  import opened Basics
  import opened Clock
  import opened Versions
  import opened Records
  import opened Device
  import opened Batches

  // ----- The order -----

  /** Whatever can be pointed at comes first, each kind before the kinds that point at
      it, and within a kind the smaller sequence number. */
  lemma BeforeMeans(a: Envelope, b: Envelope)
    ensures a.id.kind == b.id.kind ==> (Before(a, b) <==> SeqOf(a) < SeqOf(b))
    ensures a.id.kind.Secret? && !b.id.kind.Secret? ==> Before(a, b)
    ensures a.id.kind.Key? && (b.id.kind.Identity? || b.id.kind.Group? || b.id.kind.Host?) ==> Before(a, b)
    ensures a.id.kind.Identity? && (b.id.kind.Group? || b.id.kind.Host?) ==> Before(a, b)
    ensures a.id.kind.Group? && b.id.kind.Host? ==> Before(a, b)
    ensures Pointable(a.id.kind) && !Pointable(b.id.kind) ==> Before(a, b)
    ensures !(Before(a, b) && Before(b, a))
  {
  }

  /** Those of some envelopes that neither come before `e` nor after it, in their order. */
  function Alike(es: seq<Envelope>, e: Envelope): seq<Envelope>
    decreases |es|
  {
    if es == [] then []
    else
      var last := es[|es| - 1];
      Alike(es[..|es| - 1], e) + if Before(last, e) || Before(e, last) then [] else [last]
  }

  lemma {:induction false} AlikeAdds(a: seq<Envelope>, b: seq<Envelope>, e: Envelope)
    ensures Alike(a + b, e) == Alike(a, e) + Alike(b, e)
    decreases |b|
  {
    if b == [] {
      assert a + b == a;
    } else {
      AlikeAdds(a, b[..|b| - 1], e);
      assert (a + b)[..|a + b| - 1] == a + b[..|b| - 1];
    }
  }

  predicate Sorted(es: seq<Envelope>) {
    forall i, j :: 0 <= i < j < |es| ==> !Before(es[j], es[i])
  }

  lemma {:induction false} InsertSorts(f: Envelope, es: seq<Envelope>, e: Envelope)
    requires Sorted(es)
    ensures Sorted(Insert(f, es)) && Alike(Insert(f, es), e) == Alike(es + [f], e)
    decreases |es|
  {
    hide Before, Alike, Sorted;
    AlikeAdds(es, [f], e);
    if es == [] || Before(f, es[0]) {
      NoneAlikeAfter(f, es, e);
      AlikeAdds([f], es, e);
      SortedWithFirst(f, es);
    } else {
      var rest := Insert(f, es[1..]);
      RestIsSorted(es);
      InsertSorts(f, es[1..], e);
      AlikeAdds(es[1..], [f], e);
      AlikeAdds([es[0]], es[1..], e);
      AlikeAdds([es[0]], rest, e);
      assert [es[0]] + es[1..] == es;
      FirstStaysFirst(f, es);
      SortedWithFirst(es[0], rest);
    }
  }

  lemma RestIsSorted(es: seq<Envelope>)
    requires es != [] && Sorted(es)
    ensures Sorted(es[1..])
  {
    hide Before;
  }

  lemma FirstStaysFirst(f: Envelope, es: seq<Envelope>)
    requires es != [] && Sorted(es) && !Before(f, es[0])
    ensures forall g :: g in Insert(f, es[1..]) ==> !Before(g, es[0])
  {
    hide Before, Insert;
    forall g | g in Insert(f, es[1..])
      ensures !Before(g, es[0])
    {
      assert g in multiset(es[1..]) + multiset{f};
      if g != f {
        var k :| 1 <= k < |es| && es[k] == g;
      }
    }
  }

  lemma SortedWithFirst(f: Envelope, es: seq<Envelope>)
    requires Sorted(es) && forall g :: g in es ==> !Before(g, f)
    ensures Sorted([f] + es)
  {
    hide Before;
    var r := [f] + es;
    forall i, j | 0 <= i < j < |r|
      ensures !Before(r[j], r[i])
    {
      assert r[j] == es[j - 1];
      if i > 0 { assert r[i] == es[i - 1]; }
    }
  }

  /** What comes before the first of a sorted list is like none of it. */
  lemma {:induction false} NoneAlikeAfter(f: Envelope, es: seq<Envelope>, e: Envelope)
    requires Sorted(es) && (es != [] ==> Before(f, es[0]))
    ensures Alike([f], e) == [] || Alike(es, e) == []
    ensures forall g :: g in es ==> Before(f, g) && !Before(g, f)
    decreases |es|
  {
    if es != [] {
      var front, last := es[..|es| - 1], es[|es| - 1];
      NoneAlikeAfter(f, front, e);
      assert |es| > 1 ==> !Before(last, es[0]);
      assert [f][..0] == [];
      assert es == front + [last];
    }
  }

  /** A batch is sorted, and records of the same rank and number stay in the order they
      came in. */
  lemma {:induction false} InOrderSorts(es: seq<Envelope>, e: Envelope)
    ensures multiset(InOrder(es)) == multiset(es)
    ensures Sorted(InOrder(es)) && Alike(InOrder(es), e) == Alike(es, e)
    decreases |es|
  {
    hide Before, Alike, Insert;
    if es != [] {
      var front, last := es[..|es| - 1], es[|es| - 1];
      InOrderSorts(front, e);
      InsertSorts(last, InOrder(front), e);
      AlikeAdds(InOrder(front), [last], e);
      AlikeAdds(front, [last], e);
      assert es == front + [last];
    }
  }

  // ----- What became of a record -----

  /** A record the device can make sense of: for its vault, of a kind it keeps, under
      its seal, and a manifest only under its device's id. */
  predicate MakesSense(d: Device, e: Envelope) {
    && e.vault == d.vault && Synced(e.id.kind) && Opens(e)
  }

  /** The row of another host key in the slot. */
  predicate Holds(rows: map<Id, Row>, other: Id, slot: nat, id: Id) {
    other in rows && other != id && other.kind.KnownHost? && rows[other].payload.HostKey?
    && rows[other].payload.slot == slot
  }

  /** A host key that comes to a slot somebody newer holds. */
  ghost predicate LosesSlot(d: Device, e: Envelope) {
    && Opens(e) && e.blob.payload.HostKey?
    && exists other :: Holds(d.rows, other, e.blob.payload.slot, e.id) && Less(e.clock, d.rows[other].clock)
  }

  /** The version given up that is remembered: the later of the two. */
  function Remembered(superseded: map<Id, Hlc>, id: Id, clock: Hlc): Hlc {
    if id in superseded && !Less(superseded[id], clock) then superseded[id] else clock
  }

  /** What a new or newer host key does to its slot: it takes an empty one, and one that
      somebody holds unless that is newer, in which case it gives up. Who gives up is
      remembered by its version, and nothing else changes. */
  lemma SlotChanges(d: Device, e: Envelope)
    requires MakesSense(d, e) && OnePerSlot(d.rows) && !e.deleted && e.blob.payload.HostKey?
    requires e.id in d.rows ==> Below(RowVersion(d.rows[e.id]), EnvelopeVersion(e))
    ensures var after, slot := ApplyOne(d, e).device, e.blob.payload.slot;
            var row := Row(e.clock, false, false, SeqOf(e), e.blob.payload);
            && ((forall other :: !Holds(d.rows, other, slot, e.id)) ==> after == d.(rows := d.rows[e.id := row]))
            && (forall other :: Holds(d.rows, other, slot, e.id) ==>
                  var theirs := d.rows[other].clock;
                  after == if Less(e.clock, theirs) then
                             d.(superseded := d.superseded[e.id := Remembered(d.superseded, e.id, e.clock)])
                           else
                             d.(rows := (d.rows - {other})[e.id := row],
                                superseded := d.superseded[other := Remembered(d.superseded, other, theirs)]))
  {
    if e.id in d.rows { ResolveIsOrder(RowVersion(d.rows[e.id]), EnvelopeVersion(e)); }
    var slot := e.blob.payload.slot;
    forall other | Holds(d.rows, other, slot, e.id)
      ensures RivalOf(d.rows, e.id, slot) == Some(other)
    {
      assert Rival(d.rows, e.id, slot, other);
    }
    RememberedIsSupersede(d.superseded, e.id, e.clock);
    forall other
      ensures Holds(d.rows, other, slot, e.id) ==>
                var theirs := d.rows[other].clock;
                Supersede(d.superseded, other, theirs) ==
                d.superseded[other := Remembered(d.superseded, other, theirs)]
    {
      if Holds(d.rows, other, slot, e.id) { RememberedIsSupersede(d.superseded, other, d.rows[other].clock); }
    }
    if RivalOf(d.rows, e.id, slot).Some? {
      assert Holds(d.rows, RivalOf(d.rows, e.id, slot).value, slot, e.id);
    }
  }

  lemma RememberedIsSupersede(superseded: map<Id, Hlc>, id: Id, clock: Hlc)
    ensures Supersede(superseded, id, clock) == superseded[id := Remembered(superseded, id, clock)]
  {
  }

  /** What became of a record, by what was there. A record is taken in exactly if it is
      new or newer than its row, wins its slot if it is a host key, and is no delete of
      something that is not here; the row is then as it was sealed, confirmed, and waits
      for nothing. */
  lemma OutcomeMeans(d: Device, e: Envelope)
    requires MakesSense(d, e) && OnePerSlot(d.rows)
    ensures var known := e.id in d.rows;
            var newer := known ==> Below(RowVersion(d.rows[e.id]), EnvelopeVersion(e));
            var effect := ApplyOne(d, e);
            && (effect.outcome.Applied? <==> newer && (e.deleted ==> known) && (!e.deleted ==> !LosesSlot(d, e)))
            && (effect.outcome.Kept? <==>
                  if newer then !e.deleted && LosesSlot(d, e)
                  else RowVersion(d.rows[e.id]) != EnvelopeVersion(e))
            && (effect.outcome.Same? <==> known && RowVersion(d.rows[e.id]) == EnvelopeVersion(e))
            && (effect.outcome.Skipped? <==> !known && e.deleted)
            && !effect.outcome.Rejected?
  {
    if e.id in d.rows { ResolveIsOrder(RowVersion(d.rows[e.id]), EnvelopeVersion(e)); }
    SlotIsLost(d, e);
  }

  lemma SlotIsLost(d: Device, e: Envelope)
    requires OnePerSlot(d.rows)
    ensures LosesSlot(d, e) <==>
              && Opens(e) && e.blob.payload.HostKey?
              && var rival := RivalOf(d.rows, e.id, e.blob.payload.slot);
                 rival.Some? && Less(e.clock, d.rows[rival.value].clock)
  {
    if Opens(e) && e.blob.payload.HostKey? {
      var slot := e.blob.payload.slot;
      forall other | Holds(d.rows, other, slot, e.id)
        ensures RivalOf(d.rows, e.id, slot) == Some(other)
      {
        assert Rival(d.rows, e.id, slot, other);
      }
      var rival := RivalOf(d.rows, e.id, slot);
      assert rival.Some? ==> Holds(d.rows, rival.value, slot, e.id);
    }
  }

  /** And what the device does then. */
  lemma OutcomeDoes(d: Device, e: Envelope)
    requires MakesSense(d, e)
    ensures var effect := ApplyOne(d, e);
            var rows := effect.device.rows;
            && (effect.outcome.Applied? ==>
                  e.id in rows
                  && rows[e.id] == Row(e.clock, e.deleted, false, SeqOf(e),
                                       if !e.deleted then e.blob.payload
                                       else if e.id.kind.Secret? then Empty
                                       else d.rows[e.id].payload))
            && (effect.outcome.Kept? && e.id in d.rows
                && AtMost(EnvelopeVersion(e), RowVersion(d.rows[e.id])) ==>
                  effect.device == d.(rows := d.rows[e.id := d.rows[e.id].(serverSeq := SeqOf(e))]))
            && (effect.outcome.Same? ==>
                  effect.device == d.(rows := d.rows[e.id := d.rows[e.id].(serverSeq := SeqOf(e), dirty := false)]))
            && (effect.outcome.Skipped? ==> effect.device == d)
  {
    if e.id in d.rows { ResolveIsOrder(RowVersion(d.rows[e.id]), EnvelopeVersion(e)); }
  }

  /** What makes no sense changes nothing: of a kind this build has no table for it is
      skipped, anything else is rejected. */
  lemma NonsenseChangesNothing(d: Device, e: Envelope)
    requires !e.id.kind.Manifest? && !MakesSense(d, e)
    ensures ApplyOne(d, e).device == d && !ApplyOne(d, e).conflict
    ensures ApplyOne(d, e).outcome == if e.vault == d.vault && !HasTable(e.id.kind) then Skipped else Rejected
  {
  }

  /** A manifest is taken in under its own device's id only. */
  lemma ForeignManifestIsRejected(d: Device, e: Envelope)
    requires e.id.kind.Manifest? && e.blob.Sealed? && e.blob.payload.Listing?
    requires e.id != ManifestId(e.blob.payload.device) && !e.deleted
    requires e.id in d.rows ==> Below(RowVersion(d.rows[e.id]), EnvelopeVersion(e))
    ensures ApplyOne(d, e) == Effect(d, Rejected, false)
  {
  }

  /** A conflict is reported exactly for a key that another device put where a different
      one was, whoever wins. */
  lemma ConflictExactlyWhen(d: Device, e: Envelope)
    requires OnePerSlot(d.rows)
    ensures ApplyOne(d, e).conflict <==>
              && e.vault == d.vault && Opens(e) && e.id.kind.KnownHost? && !e.deleted && e.clock.device != d.me
              && (e.id in d.rows ==> Below(RowVersion(d.rows[e.id]), EnvelopeVersion(e)))
              && exists other ::
                   && Holds(d.rows, other, e.blob.payload.slot, e.id)
                   && d.rows[other].payload.fingerprint != e.blob.payload.fingerprint
  {
    if e.id in d.rows { ResolveIsOrder(RowVersion(d.rows[e.id]), EnvelopeVersion(e)); }
    if e.vault == d.vault && Opens(e) && e.id.kind.KnownHost? && !e.deleted {
      assert e.blob.payload.HostKey?;
      var rival := RivalOf(d.rows, e.id, e.blob.payload.slot);
      forall other | Holds(d.rows, other, e.blob.payload.slot, e.id)
        ensures rival == Some(other)
      {
        assert Rival(d.rows, e.id, e.blob.payload.slot, other);
      }
      assert rival.Some? ==> Holds(d.rows, rival.value, e.blob.payload.slot, e.id);
    }
  }

  // ----- The report -----

  /** What became of each record of a batch. */
  ghost function Effects(b: Batch, es: seq<Envelope>): (r: seq<Effect>)
    ensures |r| == |es|
    decreases |es|
  {
    if es == [] then []
    else Effects(b, es[..|es| - 1]) + [ApplyOne(ApplyAll(b, es[..|es| - 1]).device, es[|es| - 1])]
  }

  function Number(report: Report, outcome: Outcome): nat {
    match outcome
    case Applied => report.applied
    case Kept => report.kept
    case Same => report.same
    case Skipped => report.skipped
    case Rejected => report.rejected
  }

  /** The records of a batch of which that became; a manifest is none, unless it was
      rejected. */
  function Those(effects: seq<Effect>, es: seq<Envelope>, outcome: Outcome): set<nat>
    requires |effects| == |es|
  {
    set i: nat | i < |es| && effects[i].outcome == outcome && (outcome.Rejected? || !es[i].id.kind.Manifest?)
  }

  function Conflicting(effects: seq<Effect>): set<nat> {
    set i: nat | i < |effects| && effects[i].conflict
  }

  lemma OneMore(effects: seq<Effect>, es: seq<Envelope>, effect: Effect, e: Envelope, outcome: Outcome)
    requires |effects| == |es|
    ensures |Those(effects + [effect], es + [e], outcome)| ==
            |Those(effects, es, outcome)|
            + if effect.outcome == outcome && (outcome.Rejected? || !e.id.kind.Manifest?) then 1 else 0
  {
    var before, after := Those(effects, es, outcome), Those(effects + [effect], es + [e], outcome);
    forall i: nat | i < |es|
      ensures i in after <==> i in before
    {
      assert (effects + [effect])[i] == effects[i] && (es + [e])[i] == es[i];
    }
    IndexOneMore(before, after, |es|);
  }

  lemma ConflictOneMore(effects: seq<Effect>, effect: Effect)
    ensures |Conflicting(effects + [effect])| == |Conflicting(effects)| + if effect.conflict then 1 else 0
  {
    var before, after := Conflicting(effects), Conflicting(effects + [effect]);
    forall i: nat | i < |effects|
      ensures i in after <==> i in before
    {
      assert (effects + [effect])[i] == effects[i];
    }
    IndexOneMore(before, after, |effects|);
  }

  lemma IndexOneMore(before: set<nat>, after: set<nat>, n: nat)
    requires forall i :: i in before ==> i < n
    requires forall i :: i in after ==> i <= n
    requires forall i: nat :: i < n ==> (i in after <==> i in before)
    ensures |after| == |before| + if n in after then 1 else 0
  {
    assert after == before + if n in after then {n} else {};
  }

  /** Each number of the report is how many records that became of, and how many were
      conflicts. */
  lemma {:induction false} ReportCounts(d: Device, es: seq<Envelope>, outcome: Outcome)
    ensures var b := Batch(d, NOTHING, None);
            && Number(ApplyAll(b, es).report, outcome) == |Those(Effects(b, es), es, outcome)|
            && ApplyAll(b, es).report.conflicts == |Conflicting(Effects(b, es))|
    decreases |es|
  {
    hide ApplyOne, Those, Conflicting;
    var b := Batch(d, NOTHING, None);
    if es == [] {
      NothingCounts(outcome);
    } else {
      var front, e := es[..|es| - 1], es[|es| - 1];
      var effect := ApplyOne(ApplyAll(b, front).device, e);
      assert es == front + [e];
      OneMore(Effects(b, front), front, effect, e, outcome);
      ConflictOneMore(Effects(b, front), effect);
      NoConflictAboutManifests(ApplyAll(b, front).device, e);
      ReportCounts(d, front, outcome);
    }
  }

  lemma NothingCounts(outcome: Outcome)
    ensures Those([], [], outcome) == {} && Conflicting([]) == {}
  {
  }

  lemma NoConflictAboutManifests(d: Device, e: Envelope)
    ensures e.id.kind.Manifest? ==> !ApplyOne(d, e).conflict
  {
  }

  /** The clock a batch is heard at: the latest of those that were not rejected. What
      was rejected moves no clock. */
  ghost predicate IsLatest(effects: seq<Effect>, es: seq<Envelope>, newest: Option<Hlc>)
    requires |effects| == |es|
  {
    if newest.None? then forall effect :: effect in effects ==> effect.outcome.Rejected?
    else
      && (exists i: nat :: i < |es| && !effects[i].outcome.Rejected? && es[i].clock == newest.value)
      && (forall i: nat :: i < |es| && !effects[i].outcome.Rejected? ==> !Less(newest.value, es[i].clock))
  }

  lemma {:induction false} NewestIsLatest(b: Batch, es: seq<Envelope>)
    requires b.newest.None?
    ensures IsLatest(Effects(b, es), es, ApplyAll(b, es).newest)
    decreases |es|
  {
    hide ApplyOne, IsLatest, Newer;
    if es == [] {
      NothingIsLatest();
    } else {
      var front, e := es[..|es| - 1], es[|es| - 1];
      var effect := ApplyOne(ApplyAll(b, front).device, e);
      assert es == front + [e];
      NewestIsLatest(b, front);
      LatestOfOneMore(Effects(b, front), front, ApplyAll(b, front).newest, effect, e);
    }
  }

  lemma NothingIsLatest()
    ensures IsLatest([], [], None)
  {
  }

  lemma LatestOfOneMore(effects: seq<Effect>, es: seq<Envelope>, newest: Option<Hlc>, effect: Effect, e: Envelope)
    requires |effects| == |es| && IsLatest(effects, es, newest)
    ensures IsLatest(effects + [effect], es + [e],
                     if effect.outcome.Rejected? then newest else Newer(newest, e.clock))
  {
    hide Less;
    var after := if effect.outcome.Rejected? then newest else Newer(newest, e.clock);
    var all, more := effects + [effect], es + [e];
    if newest.Some? {
      var k: nat :| k < |es| && !effects[k].outcome.Rejected? && es[k].clock == newest.value;
      assert all[k] == effects[k] && more[k] == es[k];
      LessIsStrict(newest.value, e.clock);
    }
    assert all[|es|] == effect && more[|es|] == e;
    if after.Some? {
      LessIsStrict(after.value, after.value);
      forall i: nat | i < |more| && !all[i].outcome.Rejected?
        ensures !Less(after.value, more[i].clock)
      {
        if i < |es| {
          assert !effects[i].outcome.Rejected? && all[i] in effects;
          if newest.Some? { NotLessTwice(es[i].clock, newest.value, after.value); }
        }
      }
    }
  }

  lemma LessIsStrict(a: Hlc, b: Hlc)
    ensures !Less(a, a) && !(Less(a, b) && Less(b, a))
  {
  }

  lemma NotLessTwice(a: Hlc, b: Hlc, c: Hlc)
    requires !Less(b, a) && !Less(c, b)
    ensures !Less(c, a)
  {
  }

  /** The batch in the order it is applied in. */
  ghost predicate IsSorting(es: seq<Envelope>, order: seq<Envelope>) {
    multiset(order) == multiset(es) && Sorted(order) && forall e :: Alike(order, e) == Alike(es, e)
  }

  ghost predicate ComesTo(d: Device, es: seq<Envelope>, now: u64, order: seq<Envelope>, newest: Option<Hlc>) {
    var b := Batch(d, NOTHING, None);
    var (after, report) := ApplyEnvelopes(d, es, now);
    && IsSorting(es, order) && IsLatest(Effects(b, order), order, newest)
    && report == ApplyAll(b, order).report
    && after == ApplyAll(b, order).device.(
                  clock := if newest.None? then d.clock else Merge(d.clock, newest.value, now))
  }

  /** What a batch comes to: its records one after the other, sorted, and the clock moved
      on by the latest of those that were not rejected. */
  lemma BatchMeans(d: Device, es: seq<Envelope>, now: u64)
    ensures exists order, newest :: ComesTo(d, es, now, order, newest)
  {
    hide ApplyOne, ApplyAll, IsLatest, Alike, Sorted, Merge;
    var b, order := Batch(d, NOTHING, None), InOrder(es);
    forall e
      ensures Alike(order, e) == Alike(es, e)
    {
      InOrderSorts(es, e);
    }
    InOrderSorts(es, Envelope(0, ManifestId(0), ZERO, false, 0, Noise, None));
    NewestIsLatest(b, order);
    ApplyAllFrame(b, order);
    if es == [] { NothingHappened(b); }
    var newest := ApplyAll(b, order).newest;
    assert ComesTo(d, es, now, order, newest);
  }

  lemma NothingHappened(b: Batch)
    ensures ApplyAll(b, []) == b
  {
  }
}
