/** The local database as the sync engine uses it. Every method is one
    transaction, and its contract is the function of the same name in `Device`. */
module Store {
  import opened Basics
  import opened Clock
  import opened Versions
  import opened Records
  import opened Device
  import Spec = Device

  const MAX_BATCH_BYTES: nat := 8 * 1024 * 1024

  const APPLY_ORDER: seq<Kind> := [Secret, Key, Identity, Group, Host, Snippet, KnownHost]

  datatype Withheld = Withheld(records: nat, hostKeys: bool)

  /** Problems that put host keys in doubt: with host keys themselves, or with a
      manifest, which could have listed any. */
  predicate DoubtsHostKeys(id: Id) {
    id.kind.KnownHost? || id.kind.Manifest?
  }

  lemma InsertHostKeyKeepsSlots(d: Device, e: Envelope)
    requires OnePerSlot(d.rows) && Opens(e) && e.blob.payload.HostKey?
    ensures OnePerSlot(InsertHostKey(d, e).device.rows)
  {
    var slot := e.blob.payload.slot;
    var rival := RivalOf(d.rows, e.id, slot);
    forall id | id in d.rows && id != e.id && id.kind.KnownHost?
                && d.rows[id].payload.HostKey? && d.rows[id].payload.slot == slot
      ensures rival == Some(id)
    {
      assert Rival(d.rows, e.id, slot, id);
    }
  }

  /** At most one row per address and port, whatever arrives. */
  lemma ApplyOneKeepsSlots(d: Device, e: Envelope)
    requires OnePerSlot(d.rows)
    ensures OnePerSlot(ApplyOne(d, e).device.rows)
  {
    if Opens(e) && e.blob.payload.HostKey? {
      InsertHostKeyKeepsSlots(d, e);
    } else {
      OtherKindsKeepSlots(d, e);
    }
  }

  /** What the table of host keys holds are host keys. */
  predicate KeysAreKeys(rows: map<Id, Row>) {
    forall id :: id in rows && id.kind.KnownHost? ==> rows[id].payload.HostKey?
  }

  lemma ApplyOneKeepsKeys(d: Device, e: Envelope)
    requires KeysAreKeys(d.rows)
    ensures KeysAreKeys(ApplyOne(d, e).device.rows)
  {
  }

  lemma OtherKindsKeepSlots(d: Device, e: Envelope)
    requires OnePerSlot(d.rows) && !(Opens(e) && e.blob.payload.HostKey?)
    ensures OnePerSlot(ApplyOne(d, e).device.rows)
  {
    var rows := ApplyOne(d, e).device.rows;
    forall id | id in rows && id.kind.KnownHost? && rows[id].payload.HostKey?
      ensures id in d.rows && rows[id].payload == d.rows[id].payload
    {
    }
  }

  lemma RivalIsUnique(rows: map<Id, Row>, id: Id, slot: nat, rival: Id)
    requires OnePerSlot(rows) && Rival(rows, id, slot, rival)
    ensures RivalOf(rows, id, slot) == Some(rival)
  {
  }

  /** The row a slot is held by, deleted or not. */
  predicate InSlot(rows: map<Id, Row>, id: Id, slot: nat) {
    id in rows && id.kind.KnownHost? && rows[id].payload.HostKey? && rows[id].payload.slot == slot
  }

  lemma OneInSlot(rows: map<Id, Row>, id: Id, slot: nat)
    requires OnePerSlot(rows) && InSlot(rows, id, slot)
    ensures forall other :: InSlot(rows, other, slot) ==> other == id
  {
  }

  /** Each record once, in the order they must be applied. */
  predicate InTurn(es: seq<Envelope>) {
    forall i, j :: 0 <= i < j < |es| ==>
      es[i].id != es[j].id && ApplyRank(es[i].id.kind) <= ApplyRank(es[j].id.kind)
  }

  lemma InTurnAppend(es: seq<Envelope>, more: seq<Envelope>, kind: Kind)
    requires InTurn(es) && forall e :: e in es ==> ApplyRank(e.id.kind) < ApplyRank(kind)
    requires forall e :: e in more ==> e.id.kind == kind
    requires forall i, j :: 0 <= i < j < |more| ==> more[i].id != more[j].id
    ensures InTurn(es + more)
  {
    var all := es + more;
    forall i, j | 0 <= i < j < |all|
      ensures all[i].id != all[j].id && ApplyRank(all[i].id.kind) <= ApplyRank(all[j].id.kind)
    {
      assert i < |es| ==> all[i] in es;
      assert j < |es| ==> all[j] in es;
      assert i >= |es| ==> all[i] in more;
      assert j >= |es| ==> all[j] in more;
    }
  }

  /** How many of the acknowledgements are for rows as they are. */
  function Cleared(rows: map<Id, Row>, pushed: seq<Pushed>): nat
    decreases |pushed|
  {
    if pushed == [] then 0
    else Cleared(rows, pushed[..|pushed| - 1]) + if Matches(rows, pushed[|pushed| - 1]) then 1 else 0
  }

  lemma {:induction false} MarkAllKeepsClocks(rows: map<Id, Row>, pushed: seq<Pushed>)
    ensures forall id :: id in MarkAll(rows, pushed) <==> id in rows
    ensures forall id :: id in rows ==>
              var row := MarkAll(rows, pushed)[id];
              row.clock == rows[id].clock && row.deleted == rows[id].deleted && row.payload == rows[id].payload
    decreases |pushed|
  {
    if pushed != [] {
      MarkAllKeepsClocks(rows, pushed[..|pushed| - 1]);
    }
  }

  /** The acknowledgements of a row as it is. */
  predicate Acknowledged(row: Row, id: Id, pushed: seq<Pushed>) {
    exists p :: p in pushed && p.id == id && p.clock == row.clock
  }

  /** A row that was acknowledged as it is waits no more, and is based on one of the
      numbers it was given, the last one; any other row is as it was. */
  lemma {:induction false} MarkAllMeans(rows: map<Id, Row>, pushed: seq<Pushed>, id: Id)
    requires id in rows
    ensures id in MarkAll(rows, pushed)
    ensures var row, after := rows[id], MarkAll(rows, pushed)[id];
            if Acknowledged(row, id, pushed) then
              exists k :: && 0 <= k < |pushed| && pushed[k].id == id && pushed[k].clock == row.clock
                          && after == row.(dirty := false, serverSeq := pushed[k].seqNo)
                          && forall j :: k < j < |pushed| ==> !(pushed[j].id == id && pushed[j].clock == row.clock)
            else after == row
    decreases |pushed|
  {
    if pushed != [] {
      var front, last := pushed[..|pushed| - 1], pushed[|pushed| - 1];
      MarkAllMeans(rows, front, id);
      MarkAllKeepsClocks(rows, front);
      assert pushed == front + [last];
      if last.id == id && last.clock == rows[id].clock {
        assert Acknowledged(rows[id], id, pushed);
      } else if Acknowledged(rows[id], id, front) {
        var k :| && 0 <= k < |front| && front[k].id == id && front[k].clock == rows[id].clock
                 && MarkAll(rows, front)[id] == rows[id].(dirty := false, serverSeq := front[k].seqNo)
                 && forall j :: k < j < |front| ==> !(front[j].id == id && front[j].clock == rows[id].clock);
        assert pushed[k] == front[k] && pushed[k] in pushed;
      }
    }
  }

  class Store {
    const me: u32
    const vault: nat
    /** How many bytes a record takes once it is sealed. */
    const sealedBytes: Payload -> nat
    var rows: map<Id, Row>
    var superseded: map<Id, Hlc>
    var clock: Hlc
    var cursor: nat
    var violations: map<Id, Problem>
    var floor: Option<Floor>

    ghost predicate Valid()
      reads this
    {
      && OnePerSlot(rows) && KeysAreKeys(rows)
      && (floor.Some? ==> floor.value.id.kind.Manifest?)
    }

    ghost function Model(): Device
      reads this
    {
      Device(me, vault, rows, superseded, clock, cursor, violations, floor)
    }

    constructor (me: u32, vault: nat, sealedBytes: Payload -> nat)
      ensures Valid() && Model() == Device(me, vault, map[], map[], Hlc(0, 0, me), 0, map[], None)
      ensures this.sealedBytes == sealedBytes
    {
      this.me, this.vault, this.sealedBytes := me, vault, sealedBytes;
      rows, superseded, clock, cursor, violations, floor := map[], map[], Hlc(0, 0, me), 0, map[], None;
    }

    // ----- Records coming in -----

    method FindRival(id: Id, slot: nat) returns (rival: Option<Id>)
      requires Valid()
      ensures rival == RivalOf(rows, id, slot)
    {
      var left := rows.Keys;
      while left != {}
        invariant left <= rows.Keys
        invariant forall other :: other in rows && other !in left ==> !Rival(rows, id, slot, other)
        decreases |left|
      {
        var other :| other in left;
        if Rival(rows, id, slot, other) {
          RivalIsUnique(rows, id, slot, other);
          return Some(other);
        }
        left := left - {other};
      }
      return None;
    }

    method Supersede(id: Id, clock: Hlc)
      modifies this`superseded
      ensures superseded == Spec.Supersede(old(superseded), id, clock)
    {
      if id !in superseded || Less(superseded[id], clock) {
        superseded := superseded[id := clock];
      }
    }

    method Stub(refs: seq<Id>)
      modifies this`rows
      ensures rows == AddStubs(old(rows), refs)
    {
      for i := 0 to |refs|
        invariant AddStubs(rows, refs[i..]) == AddStubs(old(rows), refs)
      {
        if refs[i] !in rows {
          rows := rows[refs[i] := STUB];
        }
      }
    }

    method InsertRecord(e: Envelope) returns (outcome: Outcome, conflict: bool)
      requires Valid() && Opens(e) && !e.deleted
      modifies this`rows, this`superseded
      ensures Effect(Model(), outcome, conflict) == Spec.InsertRecord(old(Model()), e)
    {
      outcome, conflict := Applied, false;
      match e.blob.payload {
        case HostKey(slot, fingerprint) =>
          var rival := FindRival(e.id, slot);
          if rival.Some? {
            var theirs := rows[rival.value];
            conflict := theirs.payload.fingerprint != fingerprint && e.clock.device != me;
            if Less(e.clock, theirs.clock) {
              Supersede(e.id, e.clock);
              outcome := Kept;
              return;
            }
            Supersede(rival.value, theirs.clock);
            rows := rows - {rival.value};
          }
        case Unreadable =>
          outcome := Skipped;
          return;
        case Listing(device, _, _) =>
          if e.id != ManifestId(device) {
            outcome := Rejected;
            return;
          }
        case Fields(_, refs) =>
          Stub(refs);
        case Empty =>
          outcome := Skipped;
          return;
      }
      rows := rows[e.id := Incoming(e)];
    }

    method ApplyRecord(e: Envelope) returns (outcome: Outcome, conflict: bool)
      requires Valid()
      modifies this`rows, this`superseded
      ensures Effect(Model(), outcome, conflict) == ApplyOne(old(Model()), e)
      ensures Valid()
    {
      ApplyOneKeepsSlots(Model(), e);
      ApplyOneKeepsKeys(Model(), e);
      outcome, conflict := Rejected, false;
      if e.vault != vault {
        return;
      }
      if !HasTable(e.id.kind) {
        outcome := Skipped;
        return;
      }
      if !Opens(e) {
        return;
      }
      if e.id !in rows {
        if e.deleted {
          outcome := Skipped;
        } else {
          outcome, conflict := InsertRecord(e);
        }
        return;
      }
      var row := rows[e.id];
      match Resolve(RowVersion(row), EnvelopeVersion(e)) {
        case Identical =>
          rows := rows[e.id := row.(dirty := false, serverSeq := SeqOf(e))];
          outcome := Same;
        case Local =>
          rows := rows[e.id := row.(serverSeq := SeqOf(e))];
          outcome := Kept;
        case Remote =>
          if e.deleted {
            rows := rows[e.id := Tombstoned(row, e.id.kind, e.clock, false, SeqOf(e))];
            outcome := Applied;
          } else {
            outcome, conflict := InsertRecord(e);
          }
      }
    }

    method ApplyEnvelopes(es: seq<Envelope>, now: u64) returns (report: Report)
      requires Valid()
      modifies this`rows, this`superseded, this`clock
      ensures (Model(), report) == Spec.ApplyEnvelopes(old(Model()), es, now)
      ensures Valid()
    {
      report := NOTHING;
      if es == [] {
        return;
      }
      var order := InOrder(es);
      var newest: Option<Hlc> := None;
      ghost var start := Batch(Model(), NOTHING, None);
      for i := 0 to |order|
        invariant Valid() && clock == old(clock)
        invariant Batch(Model(), report, newest) == ApplyAll(start, order[..i])
      {
        var e := order[i];
        var outcome, conflict := ApplyRecord(e);
        report := Count(report, e.id.kind, outcome, conflict);
        if outcome != Rejected {
          newest := Newer(newest, e.clock);
        }
        assert order[..i + 1][..i] == order[..i];
      }
      assert order[..|order|] == order;
      if newest.Some? {
        clock := Merge(clock, newest.value, now);
      }
    }

    // ----- Records going out -----

    /** Rows of one kind waiting to be pushed, oldest first, at most `limit`. */
    method PendingRows(kind: Kind, limit: nat) returns (ids: seq<Id>)
      ensures |ids| <= limit
      ensures forall id :: id in ids ==> id in rows && rows[id].dirty && id.kind == kind
      ensures forall i, j :: 0 <= i < j < |ids| ==> ids[i] != ids[j] && !Earlier(rows[ids[j]].clock, rows[ids[i]].clock)
      ensures forall id :: id in rows && rows[id].dirty && id.kind == kind && id !in ids ==>
                |ids| == limit && forall other :: other in ids ==> !Earlier(rows[id].clock, rows[other].clock)
    {
      ids := [];
      var left := set id | id in rows && rows[id].dirty && id.kind == kind;
      while left != {} && |ids| < limit
        invariant |ids| <= limit
        invariant forall id :: id in ids ==> id in rows && rows[id].dirty && id.kind == kind && id !in left
        invariant forall id :: id in left ==> id in rows && rows[id].dirty && id.kind == kind
        invariant forall id :: id in rows && rows[id].dirty && id.kind == kind ==> id in left || id in ids
        invariant forall i, j :: 0 <= i < j < |ids| ==>
                    ids[i] != ids[j] && !Earlier(rows[ids[j]].clock, rows[ids[i]].clock)
        invariant forall id, other :: id in left && other in ids ==> !Earlier(rows[id].clock, rows[other].clock)
        decreases |left|
      {
        var first := Oldest(left);
        ids := ids + [first];
        left := left - {first};
      }
    }

    /** Wall and counter only, as the query sorts. */
    static predicate Earlier(a: Hlc, b: Hlc) {
      a.wall < b.wall || (a.wall == b.wall && a.counter < b.counter)
    }

    method Oldest(ids: set<Id>) returns (first: Id)
      requires ids != {} && forall id :: id in ids ==> id in rows
      ensures first in ids && forall id :: id in ids ==> !Earlier(rows[id].clock, rows[first].clock)
    {
      first :| first in ids;
      var left := ids - {first};
      while left != {}
        invariant first in ids && left <= ids
        invariant forall id :: id in ids && id !in left ==> !Earlier(rows[id].clock, rows[first].clock)
        decreases |left|
      {
        var id :| id in left;
        if Earlier(rows[id].clock, rows[first].clock) {
          first := id;
        }
        left := left - {id};
      }
    }

    function Outgoing(id: Id): (e: Envelope)
      requires id in rows
      reads this
      ensures e == EnvelopeOf(Model(), id)
    {
      EnvelopeOf(Device(me, vault, rows, superseded, clock, cursor, violations, floor), id)
    }

    predicate Fits(id: Id)
      requires id in rows
      reads this
      ensures Fits(id) == RowFits(rows[id])
    {
      SizeOf(Outgoing(id)) <= MAX_BLOB_BYTES
    }

    /** How many bytes a row takes in a request. */
    function RowSize(row: Row): nat {
      sealedBytes(if row.deleted then Empty else row.payload)
    }

    predicate RowFits(row: Row) {
      RowSize(row) <= MAX_BLOB_BYTES
    }

    /** What some of the rows take together. */
    ghost function Weigh(rows: map<Id, Row>, ids: set<Id>): nat
      requires ids <= rows.Keys
      decreases |ids|
    {
      if ids == {} then 0
      else
        var id :| id in ids;
        RowSize(rows[id]) + Weigh(rows, ids - {id})
    }

    lemma {:induction false} WeighWithout(rows: map<Id, Row>, ids: set<Id>, id: Id)
      requires ids <= rows.Keys && id in ids
      ensures Weigh(rows, ids) == RowSize(rows[id]) + Weigh(rows, ids - {id})
      decreases |ids|
    {
      var first :| first in ids && Weigh(rows, ids) == RowSize(rows[first]) + Weigh(rows, ids - {first});
      if first != id {
        WeighWithout(rows, ids - {first}, id);
        WeighWithout(rows, ids - {id}, first);
        assert ids - {first} - {id} == ids - {id} - {first};
      }
    }

    lemma {:induction false} WeighGrows(rows: map<Id, Row>, ids: set<Id>, more: set<Id>)
      requires ids <= more <= rows.Keys
      ensures Weigh(rows, ids) <= Weigh(rows, more)
      decreases |more|
    {
      if ids != more {
        var id :| id in more && id !in ids;
        WeighWithout(rows, more, id);
        WeighGrows(rows, ids, more - {id});
      }
    }

    /** Rows that weigh the same one by one weigh the same together. */
    lemma {:induction false} WeighIsSame(a: map<Id, Row>, b: map<Id, Row>, ids: set<Id>)
      requires ids <= a.Keys && ids <= b.Keys
      requires forall id :: id in ids ==> RowSize(a[id]) == RowSize(b[id])
      ensures Weigh(a, ids) == Weigh(b, ids)
      decreases |ids|
    {
      if ids != {} {
        var id :| id in ids;
        WeighWithout(a, ids, id);
        WeighWithout(b, ids, id);
        WeighIsSame(a, b, ids - {id});
      }
    }

    lemma {:induction false} WeighApart(rows: map<Id, Row>, ids: set<Id>, others: set<Id>)
      requires ids <= rows.Keys && others <= rows.Keys && ids !! others
      ensures Weigh(rows, ids + others) == Weigh(rows, ids) + Weigh(rows, others)
      decreases |ids|
    {
      if ids == {} {
        assert ids + others == others;
      } else {
        var id :| id in ids;
        WeighWithout(rows, ids, id);
        WeighWithout(rows, ids + others, id);
        assert ids + others - {id} == (ids - {id}) + others;
        WeighApart(rows, ids - {id}, others);
      }
    }

    lemma {:induction false} WeighOfSmall(rows: map<Id, Row>, ids: set<Id>, n: nat, most: nat)
      requires ids <= rows.Keys && forall id :: id in ids ==> RowSize(rows[id]) * n <= most
      ensures Weigh(rows, ids) * n <= |ids| * most
      decreases |ids|
    {
      hide RowSize;
      if ids != {} {
        var id :| id in ids;
        WeighWithout(rows, ids, id);
        WeighOfSmall(rows, ids - {id}, n, most);
        OneMoreSmall(RowSize(rows[id]), Weigh(rows, ids - {id}), n, |ids - {id}|, most);
      }
    }

    static lemma OneMoreSmall(size: nat, weight: nat, n: nat, count: nat, most: nat)
      requires size * n <= most && weight * n <= count * most
      ensures (size + weight) * n <= (count + 1) * most
    {
    }

    /** With one more these rows are too many bytes for a request. */
    ghost predicate Overflows(rows: map<Id, Row>, ids: set<Id>, id: Id)
      requires ids <= rows.Keys && id in rows
    {
      Weigh(rows, ids + {id}) > MAX_BATCH_BYTES
    }

    /** As many rows as a request holds, or so many that no room is left for some row
        that waits. */
    ghost predicate FullRequest(rows: map<Id, Row>, ids: set<Id>, limit: nat)
      requires ids <= rows.Keys
    {
      |ids| >= limit || exists id :: id in Unsent(rows) && Overflows(rows, ids, id)
    }

    /** A full request, or all that waits. */
    ghost predicate FillsRequest(rows: map<Id, Row>, ids: set<Id>, limit: nat)
      requires ids <= rows.Keys
    {
      FullRequest(rows, ids, limit) || Unsent(rows) <= ids
    }

    lemma FullWithMore(rows: map<Id, Row>, ids: set<Id>, more: set<Id>, limit: nat)
      requires ids <= more <= rows.Keys && FullRequest(rows, ids, limit)
      ensures FullRequest(rows, more, limit)
    {
      SmallerSet(ids, more);
      if |ids| < limit {
        var id :| id in Unsent(rows) && Overflows(rows, ids, id);
        WeighGrows(rows, ids + {id}, more + {id});
        assert Overflows(rows, more, id);
      }
    }

    /** A request of rows that weigh the same is as full when more waited. */
    lemma FullBefore(a: map<Id, Row>, b: map<Id, Row>, ids: set<Id>, limit: nat)
      requires ids <= Unsent(b) <= Unsent(a) && FullRequest(b, ids, limit)
      requires forall id :: id in Unsent(b) ==> RowSize(a[id]) == RowSize(b[id])
      ensures FullRequest(a, ids, limit)
    {
      hide RowSize;
      if |ids| < limit {
        var id :| id in Unsent(b) && Overflows(b, ids, id);
        WeighIsSame(a, b, ids + {id});
        assert Overflows(a, ids, id);
      }
    }

    /** Of rows this small a full request has as many as it may. */
    lemma SmallIsFullByNumber(rows: map<Id, Row>, ids: set<Id>, limit: nat)
      requires ids <= Unsent(rows) && FullRequest(rows, ids, limit)
      requires forall id :: id in Unsent(rows) ==> RowSize(rows[id]) * limit <= MAX_BATCH_BYTES
      ensures |ids| >= limit
    {
      hide RowSize;
      if |ids| < limit {
        var id :| id in Unsent(rows) && Overflows(rows, ids, id);
        WeighOfSmall(rows, ids + {id}, limit, MAX_BATCH_BYTES);
        TooFewForThat(Weigh(rows, ids + {id}), |ids + {id}|, limit, MAX_BATCH_BYTES);
      }
    }

    static lemma TooFewForThat(weight: nat, n: nat, limit: nat, most: nat)
      requires weight * limit <= n * most && 0 < limit
      ensures n <= limit ==> weight <= most
    {
      if n <= limit {
        assert weight * limit <= n * most <= limit * most;
      }
    }

    /** Whatever the sizes, a full request is full by number, or no more than the
        largest row is missing to its bytes. */
    lemma FullByWeight(rows: map<Id, Row>, ids: set<Id>, limit: nat)
      requires ids <= Unsent(rows) && FullRequest(rows, ids, limit)
      requires forall id :: id in Unsent(rows) ==> RowFits(rows[id])
      ensures |ids| >= limit || Weigh(rows, ids) > MAX_BATCH_BYTES - MAX_BLOB_BYTES
    {
      if |ids| < limit {
        var id :| id in Unsent(rows) && Overflows(rows, ids, id);
        if id in ids {
          assert ids + {id} == ids;
        } else {
          WeighWithout(rows, ids + {id}, id);
          assert ids + {id} - {id} == ids;
        }
      }
    }

    /** The bytes of a request are those of its rows. */
    lemma {:induction false} BytesAreWeight(envelopes: seq<Envelope>)
      requires forall i, j :: 0 <= i < j < |envelopes| ==> envelopes[i].id != envelopes[j].id
      requires forall e :: e in envelopes ==> Offers(e)
      ensures IdsOf(envelopes) <= rows.Keys && TotalSize(envelopes) == Weigh(rows, IdsOf(envelopes))
      ensures |IdsOf(envelopes)| == |envelopes|
      decreases |envelopes|
    {
      hide SizeOf, RowSize, Offers, TotalSize, Weigh, IdsOf, Offered;
      if envelopes == [] {
        NothingWeighs();
      } else {
        var front, last := envelopes[..|envelopes| - 1], envelopes[|envelopes| - 1];
        BytesAreWeight(front);
        assert front + [last] == envelopes;
        BytesOneMore(front, last);
        OfferedBytes(last);
        IdsWithoutLast(envelopes);
        WeighWithout(rows, IdsOf(envelopes), last.id);
      }
    }

    lemma NothingWeighs()
      ensures TotalSize([]) == 0 && Weigh(rows, {}) == 0 && IdsOf([]) == {}
    {
    }

    lemma OfferedBytes(e: Envelope)
      requires Offers(e)
      ensures e.id in rows && SizeOf(e) == RowSize(rows[e.id])
    {
    }

    /** Rows that wait and cannot be sent, of the kinds that come before rank `k`. */
    function OversizedBelow(rows: map<Id, Row>, k: nat): set<Id> {
      set id | id in Unsent(rows) && !RowFits(rows[id]) && ApplyRank(id.kind) < k
    }

    function Oversized(rows: map<Id, Row>): set<Id> {
      set id | id in Unsent(rows) && !RowFits(rows[id])
    }

    /** The unsendable ones of some waiting rows. */
    function Unfit(rows: map<Id, Row>, ids: seq<Id>): set<Id> {
      set id | id in ids && id in rows && !RowFits(rows[id])
    }

    lemma UnfitOneMore(rows: map<Id, Row>, ids: seq<Id>, k: nat)
      requires k < |ids| && forall i, j :: 0 <= i < j < |ids| ==> ids[i] != ids[j]
      requires ids[k] in rows
      ensures |Unfit(rows, ids[..k + 1])| == |Unfit(rows, ids[..k])| + if RowFits(rows[ids[k]]) then 0 else 1
      ensures |Unfit(rows, ids[..k])| <= |Unfit(rows, ids)|
    {
      NotYet(ids, k);
      assert ids[..k + 1] == ids[..k] + [ids[k]];
      assert Unfit(rows, ids[..k + 1]) == Unfit(rows, ids[..k]) + if RowFits(rows[ids[k]]) then {} else {ids[k]};
      SmallerSet(Unfit(rows, ids[..k]), Unfit(rows, ids));
    }

    /** What the rows of the next kind add. */
    lemma OversizedOneMore(rows: map<Id, Row>, ids: seq<Id>, k: nat)
      requires k < |APPLY_ORDER|
      requires forall id :: id in ids ==> id in Unsent(rows) && id.kind == APPLY_ORDER[k]
      ensures |OversizedBelow(rows, k)| + |Unfit(rows, ids)| <= |OversizedBelow(rows, k + 1)|
      ensures (forall id :: id in Unsent(rows) && id.kind == APPLY_ORDER[k] ==> id in ids) ==>
                |OversizedBelow(rows, k)| + |Unfit(rows, ids)| == |OversizedBelow(rows, k + 1)|
    {
      KindAtRank(k);
      var both := OversizedBelow(rows, k) + Unfit(rows, ids);
      assert OversizedBelow(rows, k) !! Unfit(rows, ids);
      assert both <= OversizedBelow(rows, k + 1);
      SmallerSet(both, OversizedBelow(rows, k + 1));
      if forall id :: id in Unsent(rows) && id.kind == APPLY_ORDER[k] ==> id in ids {
        assert both == OversizedBelow(rows, k + 1);
      }
    }

    lemma OversizedIsBelow(rows: map<Id, Row>, k: nat)
      ensures |OversizedBelow(rows, k)| <= |Oversized(rows)|
      ensures OversizedBelow(rows, |APPLY_ORDER|) == Oversized(rows)
    {
      SmallerSet(OversizedBelow(rows, k), Oversized(rows));
    }

    /** A row that waits, could be sent, and does not fit the request any more. */
    ghost predicate Crowded(envelopes: seq<Envelope>, id: Id)
      reads this
    {
      && id in Unsent(rows) && Fits(id) && Outgoing(id) !in envelopes
      && TotalSize(envelopes) + SizeOf(Outgoing(id)) > MAX_BATCH_BYTES
    }

    /** Whatever waits and can be sent is offered, up to a rank. */
    ghost predicate OffersAllBelow(envelopes: seq<Envelope>, k: nat)
      reads this
    {
      forall id :: id in Unsent(rows) && Fits(id) && ApplyRank(id.kind) < k ==> Outgoing(id) in envelopes
    }

    /** A row that waits, as it is. */
    ghost predicate Offers(e: Envelope)
      reads this
    {
      e.id in Unsent(rows) && Fits(e.id) && e == Outgoing(e.id)
    }

    lemma BytesAdd(es: seq<Envelope>, more: seq<Envelope>)
      ensures TotalSize(es + more) == TotalSize(es) + TotalSize(more)
      ensures more == [] ==> TotalSize(es + more) == TotalSize(es)
      decreases |more|
    {
      if more == [] {
        assert es + more == es;
      } else {
        BytesAdd(es, more[..|more| - 1]);
        assert (es + more)[..|es + more| - 1] == es + more[..|more| - 1];
      }
    }

    /** The rows of one kind, after `before` records of `bytes` bytes. `full` is
        the byte limit reached: `next` does not fit any more. */
    method AddRows(ids: seq<Id>, before: nat, bytes: nat)
      returns (more: seq<Envelope>, leftOut: nat, full: bool, ghost next: Id)
      requires forall id :: id in ids ==> id in rows && id in Unsent(rows)
      requires forall i, j :: 0 <= i < j < |ids| ==>
                 ids[i] != ids[j] && !Earlier(rows[ids[j]].clock, rows[ids[i]].clock)
      ensures |more| <= |ids|
      ensures forall i, j :: 0 <= i < j < |more| ==> !Earlier(more[j].clock, more[i].clock)
      ensures forall e, id :: e in more && id in ids && Fits(id) && Outgoing(id) !in more ==>
                !Earlier(rows[id].clock, e.clock)
      ensures forall e :: e in more ==> Offers(e) && e.id in ids
      ensures forall i, j :: 0 <= i < j < |more| ==> more[i].id != more[j].id
      ensures more != [] && before + |more| > 1 ==> bytes + TotalSize(more) <= MAX_BATCH_BYTES
      ensures full ==> before + |more| > 0
      ensures full ==> next in ids && Fits(next) && Outgoing(next) !in more
                       && bytes + TotalSize(more) + SizeOf(Outgoing(next)) > MAX_BATCH_BYTES
      ensures leftOut <= |Unfit(rows, ids)|
      ensures !full ==> leftOut == |Unfit(rows, ids)| && |more| + leftOut == |ids|
      ensures !full ==> forall id :: id in ids && Fits(id) ==> Outgoing(id) in more
    {
      hide RowFits, Unsent, TotalSize, SizeOf, Unfit, Earlier;
      more, leftOut, full := [], 0, false;
      next := Id(Kind.Host, 0);
      NothingIsUnfit();
      for k := 0 to |ids|
        invariant |more| + leftOut == k
        invariant forall e :: e in more ==> Offers(e)
        invariant forall e :: e in more ==> e.id in ids[..k]
        invariant forall i, j :: 0 <= i < j < |more| ==> more[i].id != more[j].id
        invariant forall e, i :: e in more && k <= i < |ids| ==> !Earlier(rows[ids[i]].clock, e.clock)
        invariant forall i, j :: 0 <= i < j < |more| ==> !Earlier(more[j].clock, more[i].clock)
        invariant more != [] && before + |more| > 1 ==> bytes + TotalSize(more) <= MAX_BATCH_BYTES
        invariant leftOut == |Unfit(rows, ids[..k])|
        invariant forall i :: 0 <= i < k && Fits(ids[i]) ==> Outgoing(ids[i]) in more
      {
        var envelope := Outgoing(ids[k]);
        var size := SizeOf(envelope);
        UnfitOneMore(rows, ids, k);
        NotYet(ids, k);
        assert RowFits(rows[ids[k]]) == Fits(ids[k]) == (size <= MAX_BLOB_BYTES);
        if size > MAX_BLOB_BYTES {
          leftOut := leftOut + 1;
        } else if before + |more| > 0 && bytes + TotalSize(more) + size > MAX_BATCH_BYTES {
          full, next := true, ids[k];
          return;
        } else {
          BytesOneMore(more, envelope);
          more := more + [envelope];
        }
      }
      assert ids[..|ids|] == ids;
    }

    lemma NothingIsUnfit()
      ensures Unfit(rows, []) == {}
    {
    }

    lemma BytesOneMore(es: seq<Envelope>, e: Envelope)
      ensures TotalSize(es + [e]) == TotalSize(es) + SizeOf(e)
      ensures es == [] ==> TotalSize(es) == 0
    {
      assert (es + [e])[..|es|] == es;
    }

    static lemma NotYet(ids: seq<Id>, k: nat)
      requires k < |ids| && forall i, j :: 0 <= i < j < |ids| ==> ids[i] != ids[j]
      ensures ids[k] !in ids[..k]
    {
    }

    /** Of each kind the oldest come first. */
    ghost predicate OldestFirst(envelopes: seq<Envelope>) {
      forall i, j :: 0 <= i < j < |envelopes| && envelopes[i].id.kind == envelopes[j].id.kind ==>
        var a, b := envelopes[i].clock, envelopes[j].clock;
        a.wall < b.wall || (a.wall == b.wall && a.counter <= b.counter)
    }

    /** And what could be sent of a kind and is not offered is no older than what is. */
    ghost predicate OthersAreLater(envelopes: seq<Envelope>)
      reads this
    {
      forall e, id ::
        (&& e in envelopes && id in Unsent(rows) && id.kind == e.id.kind && Fits(id)
         && Outgoing(id) !in envelopes) ==>
          var a, b := e.clock, rows[id].clock;
          a.wall < b.wall || (a.wall == b.wall && a.counter <= b.counter)
    }

    lemma KindIsInTurn(before: seq<Envelope>, more: seq<Envelope>, ids: seq<Id>, kind: Kind)
      requires OldestFirst(before) && OthersAreLater(before)
      requires forall e :: e in before ==> ApplyRank(e.id.kind) < ApplyRank(kind)
      requires forall e :: e in more ==> Offers(e) && e.id in ids && e.id.kind == kind
      requires forall i, j :: 0 <= i < j < |more| ==> !Earlier(more[j].clock, more[i].clock)
      requires forall id :: id in ids ==> id in rows
      requires forall e, id :: e in more && id in ids && Fits(id) && Outgoing(id) !in more ==>
                 !Earlier(rows[id].clock, e.clock)
      requires forall id :: id in rows && rows[id].dirty && id.kind == kind && id !in ids ==>
                 forall other :: other in ids ==> !Earlier(rows[id].clock, rows[other].clock)
      ensures OldestFirst(before + more) && OthersAreLater(before + more)
    {
      var all := before + more;
      forall i, j | 0 <= i < j < |all| && all[i].id.kind == all[j].id.kind
        ensures !Earlier(all[j].clock, all[i].clock)
      {
        assert i < |before| ==> all[i] in before;
        assert j < |before| ==> all[j] in before;
        assert i >= |before| ==> all[i] in more;
        assert j >= |before| ==> all[j] in more;
      }
      forall e, id | e in all && id in Unsent(rows) && id.kind == e.id.kind && Fits(id) && Outgoing(id) !in all
        ensures !Earlier(rows[id].clock, e.clock)
      {
        assert Outgoing(id) !in before && Outgoing(id) !in more;
        if e in more {
          assert e.clock == rows[e.id].clock;
        }
      }
    }

    /** What to offer next: rows that wait, each as it is, in the order they must
        be applied, no more than one request carries. Rows too large for the
        protocol are left out and counted. The request is full, in number or in
        bytes, or nothing that could be sent still waits; in number the rows left
        out count too. */
    method PendingEnvelopes(limit: nat) returns (envelopes: seq<Envelope>, leftOut: nat)
      requires limit > 0
      ensures |envelopes| <= limit && InTurn(envelopes)
      ensures forall e :: e in envelopes ==> Offers(e)
      ensures OldestFirst(envelopes) && OthersAreLater(envelopes)
      ensures |envelopes| > 1 ==> TotalSize(envelopes) <= 8 * 1024 * 1024
      ensures leftOut <= |Oversized(rows)|
      ensures || |envelopes| + leftOut >= limit
              || (exists id :: Crowded(envelopes, id))
              || ((forall id :: id in Unsent(rows) && Fits(id) ==> Outgoing(id) in envelopes)
                  && leftOut == |Oversized(rows)|)
      ensures envelopes == [] && (forall id :: id in Unsent(rows) ==> Fits(id)) ==> Unsent(rows) == {}
    {
      hide TotalSize, Outgoing, RowFits, SizeOf, Oversized, OversizedBelow, Unfit, Unsent, OffersAllBelow,
           OldestFirst, OthersAreLater;
      envelopes, leftOut := [], 0;
      NothingOffered();
      for k := 0 to |APPLY_ORDER|
        invariant |envelopes| <= limit && InTurn(envelopes)
        invariant OldestFirst(envelopes) && OthersAreLater(envelopes)
        invariant |envelopes| > 1 ==> TotalSize(envelopes) <= MAX_BATCH_BYTES
        invariant forall e :: e in envelopes ==> Offers(e) && ApplyRank(e.id.kind) < k
        invariant leftOut <= |OversizedBelow(rows, k)|
        invariant || |envelopes| + leftOut >= limit
                  || (leftOut == |OversizedBelow(rows, k)| && OffersAllBelow(envelopes, k))
      {
        OversizedIsBelow(rows, k);
        if |envelopes| >= limit {
          break;
        }
        var kind := APPLY_ORDER[k];
        KindAtRank(k);
        var ids := PendingRows(kind, limit - |envelopes|);
        PendingIsUnsent(ids, kind);
        ghost var before, next := envelopes, Id(kind, 0);
        var more, unfit, full;
        more, unfit, full, next := AddRows(ids, |envelopes|, TotalSize(envelopes));
        leftOut := leftOut + unfit;
        BytesAdd(envelopes, more);
        InTurnAppend(envelopes, more, kind);
        KindIsInTurn(envelopes, more, ids, kind);
        OversizedOneMore(rows, ids, k);
        OversizedIsBelow(rows, k + 1);
        envelopes := envelopes + more;
        if full {
          assert Crowded(envelopes, next);
          return;
        }
        if |ids| < limit - |before| && OffersAllBelow(before, k) {
          OffersOneMore(before, more, ids, k);
        }
      }
      OversizedIsBelow(rows, |APPLY_ORDER|);
      AllAreBelow(envelopes);
    }

    /** If everything that waits can be sent, a request is filled. */
    lemma AllFitIsFilled(envelopes: seq<Envelope>, leftOut: nat, limit: nat)
      requires forall i, j :: 0 <= i < j < |envelopes| ==> envelopes[i].id != envelopes[j].id
      requires forall e :: e in envelopes ==> Offers(e)
      requires forall id :: id in Unsent(rows) ==> Fits(id)
      requires leftOut <= |Oversized(rows)|
      requires || |envelopes| + leftOut >= limit
               || (exists id :: Crowded(envelopes, id))
               || (forall id :: id in Unsent(rows) && Fits(id) ==> Outgoing(id) in envelopes)
      ensures IdsOf(envelopes) <= Unsent(rows) && |IdsOf(envelopes)| == |envelopes|
      ensures FillsRequest(rows, IdsOf(envelopes), limit)
    {
      hide TotalSize, RowFits, SizeOf, Weigh, RowSize;
      assert Oversized(rows) == {};
      BytesAreWeight(envelopes);
      if exists id :: Crowded(envelopes, id) {
        var id :| Crowded(envelopes, id);
        CrowdedOverflows(envelopes, id);
      } else if |envelopes| < limit {
        forall id | id in Unsent(rows)
          ensures id in IdsOf(envelopes)
        {
          assert Outgoing(id) in envelopes;
        }
      }
    }

    lemma CrowdedOverflows(envelopes: seq<Envelope>, id: Id)
      requires forall i, j :: 0 <= i < j < |envelopes| ==> envelopes[i].id != envelopes[j].id
      requires forall e :: e in envelopes ==> Offers(e)
      requires Crowded(envelopes, id)
      ensures id in Unsent(rows) && IdsOf(envelopes) <= rows.Keys && Overflows(rows, IdsOf(envelopes), id)
    {
      hide TotalSize, RowFits, Weigh;
      var ids := IdsOf(envelopes);
      assert id !in ids;
      BytesAreWeight(envelopes);
      WeighWithout(rows, ids + {id}, id);
      assert ids + {id} - {id} == ids;
    }

    lemma AllAreBelow(envelopes: seq<Envelope>)
      ensures OffersAllBelow(envelopes, |APPLY_ORDER|) ==>
                forall id :: id in Unsent(rows) && Fits(id) ==> Outgoing(id) in envelopes
      ensures (forall id :: id in Unsent(rows) ==> Fits(id)) ==> Oversized(rows) == {}
      ensures forall id :: !Crowded([], id)
    {
    }

    /** A row that can be sent fits a request of its own. */
    lemma NothingIsCrowded()
      ensures forall id :: !Crowded([], id)
    {
    }

    lemma NothingOffered()
      ensures TotalSize([]) == 0 && OversizedBelow(rows, 0) == {} && OffersAllBelow([], 0)
      ensures OldestFirst([]) && OthersAreLater([])
    {
    }

    static lemma KindAtRank(k: nat)
      requires k < |APPLY_ORDER|
      ensures Synced(APPLY_ORDER[k]) && ApplyRank(APPLY_ORDER[k]) == k
      ensures forall kind :: Synced(kind) && ApplyRank(kind) == k ==> kind == APPLY_ORDER[k]
    {
    }

    function TotalSize(envelopes: seq<Envelope>): nat
      decreases |envelopes|
    {
      if envelopes == [] then 0
      else TotalSize(envelopes[..|envelopes| - 1]) + SizeOf(envelopes[|envelopes| - 1])
    }

    function SizeOf(e: Envelope): nat {
      if e.blob.Sealed? then sealedBytes(e.blob.payload) else 0
    }

    lemma PendingIsUnsent(ids: seq<Id>, kind: Kind)
      requires Synced(kind) && forall id :: id in ids ==> id in rows && rows[id].dirty && id.kind == kind
      ensures forall id :: id in ids ==> id in Unsent(rows)
      ensures forall id :: id in Unsent(rows) ==> id in rows && rows[id].dirty
    {
    }

    lemma OffersOneMore(envelopes: seq<Envelope>, more: seq<Envelope>, ids: seq<Id>, k: nat)
      requires k < |APPLY_ORDER| && OffersAllBelow(envelopes, k)
      requires forall id :: id in Unsent(rows) && id.kind == APPLY_ORDER[k] ==> id in ids
      requires forall id :: id in ids ==> id in Unsent(rows)
      requires forall id :: id in ids && Fits(id) ==> Outgoing(id) in more
      ensures OffersAllBelow(envelopes + more, k + 1)
    {
      KindAtRank(k);
      forall id | id in Unsent(rows) && Fits(id) && ApplyRank(id.kind) < k + 1
        ensures Outgoing(id) in envelopes + more
      {
        if ApplyRank(id.kind) < k {
          assert Outgoing(id) in envelopes;
        } else {
          assert Outgoing(id) in more;
        }
      }
    }

    /** This device's manifest, when a newer one waits to be pushed. */
    method PendingManifest() returns (envelope: Option<Envelope>)
      ensures envelope.Some? ==> Manifested(envelope.value) && SizeOf(envelope.value) <= MAX_BLOB_BYTES
      ensures envelope.None? ==> forall id :: id in rows && id.kind.Manifest? && rows[id].dirty ==>
                exists large :: large in rows && large.kind.Manifest? && rows[large].dirty && !Fits(large)
    {
      var ids := PendingRows(Manifest, 1);
      if ids == [] {
        return None;
      }
      var e := Outgoing(ids[0]);
      if SizeOf(e) > MAX_BLOB_BYTES {
        assert ids[0] in rows && rows[ids[0]].dirty && !Fits(ids[0]);
        return None;
      }
      return Some(e);
    }

    ghost predicate Manifested(e: Envelope)
      reads this
    {
      e.id in rows && e.id.kind.Manifest? && rows[e.id].dirty && e == Outgoing(e.id)
    }

    method MarkPushed(pushed: seq<Pushed>) returns (cleared: nat)
      requires Valid()
      modifies this`rows
      ensures rows == MarkAll(old(rows), pushed) && Valid()
      ensures cleared == Cleared(old(rows), pushed)
    {
      cleared := 0;
      for i := 0 to |pushed|
        invariant rows == MarkAll(old(rows), pushed[..i]) && cleared == Cleared(old(rows), pushed[..i])
      {
        assert pushed[..i + 1][..i] == pushed[..i];
        MarkAllKeepsClocks(old(rows), pushed[..i]);
        if Matches(rows, pushed[i]) {
          rows := rows[pushed[i].id := rows[pushed[i].id].(dirty := false, serverSeq := pushed[i].seqNo)];
          cleared := cleared + 1;
        }
      }
      assert pushed[..|pushed|] == pushed;
      MarkAllKeepsClocks(old(rows), pushed);
    }

    /** Whether a row of this size is within what the protocol takes. */
    lemma FitsMeans(id: Id)
      requires id in rows
      ensures Fits(id) <==> sealedBytes(if rows[id].deleted then Empty else rows[id].payload) <= 256 * 1024
    {
    }

    method SetCursor(to: nat)
      modifies this`cursor
      ensures cursor == to
    {
      cursor := to;
    }

    // ----- Local edits -----

    method Write(changes: map<Id, Change>, now: u64)
      requires Valid() && forall id :: id in changes ==> Plain(id)
      modifies this`rows, this`clock
      ensures Model() == Edit(old(Model()), changes, now) && Valid()
      ensures clock == Tick(old(clock), now) && rows.Keys == old(rows).Keys + changes.Keys
      ensures forall id :: id in rows ==>
                var was := if id in old(rows) then old(rows)[id] else Row(Hlc(0, 0, 0), false, false, 0, Empty);
                rows[id] == if id !in changes then was
                            else if changes[id].Put? then Row(clock, false, true, was.serverSeq, changes[id].payload)
                            else Row(clock, true, true, was.serverSeq, if id.kind.Secret? then Empty else was.payload)
    {
      clock := Tick(clock, now);
      rows := rows + map id | id in changes :: Edited(rows, id, changes[id], clock);
    }

    // ----- Host keys -----

    static lemma SlotGoesTo(before: map<Id, Row>, id: Id, row: Row)
      requires OnePerSlot(before) && row.payload.HostKey?
      requires forall other :: InSlot(before, other, row.payload.slot) ==> other == id
      ensures OnePerSlot(before[id := row])
    {
      var after := before[id := row];
      forall a, b | a in after && b in after && a.kind.KnownHost? && b.kind.KnownHost?
                    && after[a].payload.HostKey? && after[b].payload.HostKey?
                    && after[a].payload.slot == after[b].payload.slot
        ensures a == b
      {
        if a != id && b != id {
          assert before[a] == after[a] && before[b] == after[b];
        } else if a != id {
          assert InSlot(before, a, row.payload.slot);
        } else if b != id {
          assert InSlot(before, b, row.payload.slot);
        }
      }
    }

    method FindSlot(slot: nat) returns (id: Option<Id>)
      requires Valid()
      ensures id.Some? ==> InSlot(rows, id.value, slot)
      ensures id.None? ==> forall other :: !InSlot(rows, other, slot)
    {
      var left := rows.Keys;
      while left != {}
        invariant left <= rows.Keys
        invariant forall other :: other in rows && other !in left ==> !InSlot(rows, other, slot)
        decreases |left|
      {
        var other :| other in left;
        if other.kind.KnownHost? && rows[other].payload.HostKey? && rows[other].payload.slot == slot {
          return Some(other);
        }
        left := left - {other};
      }
      return None;
    }

    /** The key trusted for a slot. While host keys are in doubt, only one this
        device decided on itself. */
    method KnownHost(slot: nat) returns (fingerprint: Option<int>)
      requires Valid()
      ensures forall id :: InSlot(rows, id, slot) ==>
                fingerprint == if && !rows[id].deleted
                                  && (rows[id].clock.device == me
                                      || forall v :: v in violations ==> !v.kind.KnownHost? && !v.kind.Manifest?)
                               then Some(rows[id].payload.fingerprint) else None
      ensures (forall id :: !InSlot(rows, id, slot)) ==> fingerprint.None?
    {
      var id := FindSlot(slot);
      if id.None? {
        return None;
      }
      var row := rows[id.value];
      var doubt := exists v :: v in violations && DoubtsHostKeys(v);
      if row.deleted || (row.clock.device != me && doubt) {
        return None;
      }
      return Some(row.payload.fingerprint);
    }

    /** Trust a key: the slot has one row, live, with that key, stamped by this
        device, whatever was there before; every other row is as it was. */
    method TrustHostKey(slot: nat, fingerprint: int, freshUuid: nat, now: u64) returns (id: Id)
      requires Valid() && clock.device == me && Id(Kind.KnownHost, freshUuid) !in rows
      modifies this`rows, this`clock
      ensures Valid() && clock == Tick(old(clock), now)
      ensures InSlot(rows, id, slot) && (id !in old(rows) ==> id == Id(Kind.KnownHost, freshUuid))
      ensures Model() == Trusted(old(Model()), id, slot, fingerprint, now)
      ensures rows == old(rows)[id := Row(clock, false, true,
                                          if id in old(rows) then old(rows)[id].serverSeq else 0,
                                          HostKey(slot, fingerprint))]
      ensures id in old(rows) ==> InSlot(old(rows), id, slot)
    {
      clock := Tick(clock, now);
      var held := FindSlot(slot);
      if held.Some? { OneInSlot(rows, held.value, slot); }
      id := if held.Some? then held.value else Id(Kind.KnownHost, freshUuid);
      var row := Row(clock, false, true, if id in rows then rows[id].serverSeq else 0,
                     HostKey(slot, fingerprint));
      SlotGoesTo(rows, id, row);
      rows := rows[id := row];
    }

    /** Stop trusting: the slot's row, if live, becomes a delete. */
    method ForgetHostKey(slot: nat, now: u64) returns (changed: bool)
      requires Valid() && clock.device == me
      modifies this`rows, this`clock
      ensures Valid() && clock == Tick(old(clock), now)
      ensures changed <==> exists id :: InSlot(old(rows), id, slot) && !old(rows)[id].deleted
      ensures !changed ==> rows == old(rows)
      ensures changed ==> exists id ::
                InSlot(old(rows), id, slot)
                && Model() == Forgot(old(Model()), id, now)
                && rows == old(rows)[id := Row(clock, true, true, old(rows)[id].serverSeq, old(rows)[id].payload)]
    {
      clock := Tick(clock, now);
      var held := FindSlot(slot);
      if held.Some? { OneInSlot(rows, held.value, slot); }
      if held.None? || rows[held.value].deleted {
        return false;
      }
      var row := rows[held.value];
      rows := rows[held.value := Tombstoned(row, Kind.KnownHost, clock, true, row.serverSeq)];
      return true;
    }

    // ----- Manifests -----

    method Smallest(uuids: set<nat>) returns (least: nat)
      requires uuids != {}
      ensures IsLeast(uuids, least)
    {
      least :| least in uuids;
      var left := uuids - {least};
      while left != {}
        invariant least in uuids && left <= uuids
        invariant forall x :: x in uuids && x !in left ==> least <= x
        decreases |left|
      {
        var x :| x in left;
        if x < least {
          least := x;
        }
        left := left - {x};
      }
    }

    static lemma AscendingStep(s: set<nat>, least: nat)
      requires IsLeast(s, least)
      ensures Ascending(s) == [least] + Ascending(s - {least})
    {
      AscendingSorts(s);
      var first := Ascending(s)[0];
      assert first in s && Ascending(s) == [first] + Ascending(s - {first});
    }

    method Sorted(uuids: set<nat>) returns (r: seq<nat>)
      ensures r == Ascending(uuids)
    {
      r := [];
      var left := uuids;
      while left != {}
        invariant r + Ascending(left) == Ascending(uuids)
        decreases |left|
      {
        var least := Smallest(left);
        AscendingStep(left, least);
        r := r + [least];
        left := left - {least};
      }
    }

    method ListKind(kind: Kind) returns (entries: seq<Entry>)
      ensures entries == EntriesOfKind(rows, kind)
    {
      AscendingSorts(ListedOfKind(rows, kind));
      var uuids := Sorted(ListedOfKind(rows, kind));
      entries := [];
      for k := 0 to |uuids|
        invariant |entries| == k
        invariant forall i :: 0 <= i < k ==>
                    Id(kind, uuids[i]) in rows && entries[i] == EntryOf(rows, Id(kind, uuids[i]))
      {
        assert uuids[k] in ListedOfKind(rows, kind);
        entries := entries + [EntryOf(rows, Id(kind, uuids[k]))];
      }
    }

    static lemma EntriesStep(rows: map<Id, Row>, k: nat)
      requires k < |PRIORITY|
      ensures EntriesFrom(rows, k) == EntriesOfKind(rows, PRIORITY[k]) + EntriesFrom(rows, k + 1)
    {
    }

    method CurrentEntries() returns (entries: seq<Entry>)
      ensures entries == EntriesFrom(rows, 0)
    {
      entries := [];
      for k := 0 to |PRIORITY|
        invariant entries + EntriesFrom(rows, k) == EntriesFrom(rows, 0)
      {
        var more := ListKind(PRIORITY[k]);
        EntriesStep(rows, k);
        Regroup(entries, more, EntriesFrom(rows, k + 1));
        entries := entries + more;
      }
    }

    method CurrentListing() returns (listing: Payload)
      ensures listing == ListingOf(Model())
    {
      var entries := CurrentEntries();
      var partial := |entries| > MAX_MANIFEST_ENTRIES;
      listing := Listing(me, partial, if partial then entries[..MAX_MANIFEST_ENTRIES] else entries);
    }

    /** Write this device's manifest if it says something else now. Afterwards it is right,
        whatever was here before, and it is written again only if it was not. */
    method RefreshManifest(now: u64) returns (changed: bool)
      requires Valid()
      modifies this`rows, this`clock
      ensures Model() == Publish(old(Model()), now) && Valid()
      ensures changed <==> !UpToDate(old(Model()))
      ensures var id := ManifestId(me);
              && id in rows && !rows[id].deleted
              && IsManifestOf(old(rows), me, rows[id].payload) && IsManifestOf(rows, me, rows[id].payload)
              && (!changed ==> Model() == old(Model()))
              && (changed ==>
                    && (id !in old(rows) || old(rows)[id].deleted || old(rows)[id].payload != rows[id].payload)
                    && clock == Tick(old(clock), now) && rows[id].clock == clock && rows[id].dirty
                    && rows[id].serverSeq == (if id in old(rows) then old(rows)[id].serverSeq else 0)
                    && Model() == old(Model()).(clock := clock, rows := old(rows)[id := rows[id]]))
    {
      hide ListingOf, IsManifestOf;
      var id := ManifestId(me);
      var listing := CurrentListing();
      ListingIsManifest(Model());
      if id in rows && !rows[id].deleted && rows[id].payload == listing {
        return false;
      }
      clock := Tick(clock, now);
      ghost var was := rows;
      rows := rows[id := Row(clock, false, true, if id in rows then rows[id].serverSeq else 0, listing)];
      SameToList(was, rows, me, listing);
      return true;
    }

    /** A manifest lists no manifests. */
    static lemma SameToList(a: map<Id, Row>, b: map<Id, Row>, device: u32, listing: Payload)
      requires IsManifestOf(a, device, listing) && a.Keys <= b.Keys
      requires forall id :: id in b && !id.kind.Manifest? ==> id in a && a[id] == b[id]
      ensures IsManifestOf(b, device, listing)
    {
      assert ToList(a) == ToList(b);
      forall entries | ListsExactly(a, ToList(a), entries)
        ensures ListsExactly(b, ToList(b), entries)
      {
      }
    }

    /** Every violation a manifest held here accounts for. */
    ghost predicate Flagged(id: Id, problem: Problem)
      reads this`rows, this`superseded
    {
      exists m, entry :: Claims(m, entry) && entry.id == id && CheckEntry(rows, superseded, entry) == Some(problem)
    }

    ghost predicate Claims(m: Id, entry: Entry)
      reads this`rows
    {
      && m in rows && m.kind.Manifest? && !rows[m].deleted && rows[m].payload.Listing?
      && entry in rows[m].payload.entries && Synced(entry.id.kind)
    }

    /** The manifest the device was told to wait for is not here, or is older. */
    ghost predicate FloorProblem(id: Id, problem: Problem)
      reads this`rows, this`floor
    {
      && floor.Some? && id == floor.value.id
      && var held := id in rows && id.kind.Manifest? && !rows[id].deleted;
         if held then Less(rows[id].clock, floor.value.clock) && problem == Older
         else problem == Missing
    }

    /** What a manifest lists was here, or something newer: the row is as new, or
        deleted; or it never came and the manifest lists its delete; or it came and gave
        up its slot. */
    ghost predicate WasHere(entry: Entry)
      reads this`rows, this`superseded
    {
      || (entry.id in rows && (rows[entry.id].deleted || !Less(rows[entry.id].clock, entry.clock)))
      || (entry.id !in rows && entry.deleted)
      || (entry.id in superseded && !Less(superseded[entry.id], entry.clock))
    }

    /** The manifest this device was told to wait for is here, and as new. */
    ghost predicate FloorIsMet()
      reads this`rows, this`floor
    {
      floor.Some? ==>
        var id := floor.value.id;
        id in rows && !rows[id].deleted && !Less(rows[id].clock, floor.value.clock)
    }

    /** No live manifest held here lists anything that was not here. */
    ghost predicate NothingMissing()
      reads this`rows, this`superseded, this`floor
    {
      && FloorIsMet()
      && forall m, entry ::
           (&& m in rows && m.kind.Manifest? && !rows[m].deleted && rows[m].payload.Listing?
            && entry in rows[m].payload.entries && Synced(entry.id.kind)) ==> WasHere(entry)
    }

    /** Some live manifest held here lists a host key that was not here, or could. */
    ghost predicate HostKeyMissing()
      reads this`rows, this`superseded, this`floor
    {
      || !FloorIsMet()
      || exists m, entry ::
           && m in rows && m.kind.Manifest? && !rows[m].deleted && rows[m].payload.Listing?
           && entry in rows[m].payload.entries && entry.id.kind.KnownHost? && !WasHere(entry)
    }

    /** The answer of a check, by what is here. */
    ghost predicate Tells(withheld: Withheld)
      reads this`rows, this`superseded, this`floor, this`violations
    {
      && withheld.records == |violations|
      && (withheld.records == 0 <==> NothingMissing())
      && (withheld.hostKeys <==> HostKeyMissing())
    }

    lemma FlaggedIsMissing(withheld: Withheld)
      requires Valid() && withheld == WithheldOf(violations)
      requires forall id, problem ::
                 (id in violations && violations[id] == problem) <==>
                 Flagged(id, problem) || FloorProblem(id, problem)
      ensures Tells(withheld)
    {
      forall id | id in violations
        ensures violations[id].Missing? || violations[id].Older?
      {
        assert Flagged(id, violations[id]) || FloorProblem(id, violations[id]);
      }
      assert Certain(violations) == violations.Keys;
      assert (violations == map[]) <==> |violations.Keys| == 0;
      forall m, entry | m in rows && m.kind.Manifest? && !rows[m].deleted && rows[m].payload.Listing?
                        && entry in rows[m].payload.entries && Synced(entry.id.kind) && !WasHere(entry)
        ensures entry.id in violations
      {
        assert Claims(m, entry);
        assert Flagged(entry.id, CheckEntry(rows, superseded, entry).value);
      }
      if !FloorIsMet() {
        var id := floor.value.id;
        assert FloorProblem(id, Missing) || FloorProblem(id, Older);
        assert id in violations;
      }
      forall id | id in violations
        ensures !NothingMissing() && (DoubtsHostKeys(id) ==> HostKeyMissing())
      {
        FlaggedWasNot(id);
      }
      if HostKeyMissing() && FloorIsMet() {
        var m, entry :| m in rows && m.kind.Manifest? && !rows[m].deleted && rows[m].payload.Listing?
                        && entry in rows[m].payload.entries && entry.id.kind.KnownHost? && !WasHere(entry);
        assert Claims(m, entry);
        assert Flagged(entry.id, CheckEntry(rows, superseded, entry).value);
        assert entry.id in violations && DoubtsHostKeys(entry.id);
      }
    }

    lemma FlaggedWasNot(id: Id)
      requires Valid() && id in violations
      requires Flagged(id, violations[id]) || FloorProblem(id, violations[id])
      ensures !NothingMissing() && (DoubtsHostKeys(id) ==> HostKeyMissing())
    {
      if FloorProblem(id, violations[id]) {
        assert !FloorIsMet();
      } else {
        var m, entry :| Claims(m, entry) && entry.id == id
                        && CheckEntry(rows, superseded, entry) == Some(violations[id]);
        assert !WasHere(entry);
      }
    }

    method CheckManifests() returns (withheld: Withheld)
      requires Valid()
      modifies this`violations
      ensures forall id, problem ::
                (id in violations && violations[id] == problem) <==>
                Flagged(id, problem) || FloorProblem(id, problem)
      ensures withheld == WithheldOf(violations) && Tells(withheld)
    {
      hide Tells, WithheldOf, CheckEntry;
      var found: map<Id, Problem> := map[];
      var left := set m | m in rows && m.kind.Manifest? && !rows[m].deleted && rows[m].payload.Listing?;
      ghost var all := left;
      while left != {}
        invariant left <= all
        invariant forall id :: id in found ==> Flagged(id, found[id])
        invariant forall m, entry :: Claims(m, entry) && m !in left && CheckEntry(rows, superseded, entry).Some? ==>
                    entry.id in found && found[entry.id] == CheckEntry(rows, superseded, entry).value
        decreases |left|
      {
        var m :| m in left;
        found := CheckOne(m, found);
        left := left - {m};
      }
      forall id, problem | Flagged(id, problem)
        ensures id in found && found[id] == problem && Synced(id.kind)
      {
        var m, entry :| Claims(m, entry) && entry.id == id && CheckEntry(rows, superseded, entry) == Some(problem);
        assert m in all;
      }
      if floor.Some? {
        var id := floor.value.id;
        if id !in rows || rows[id].deleted {
          found := found[id := Missing];
        } else if Less(rows[id].clock, floor.value.clock) {
          found := found[id := Older];
        }
      }
      violations := found;
      withheld := WithheldOf(violations);
      FlaggedIsMissing(withheld);
    }

    method CheckOne(m: Id, before: map<Id, Problem>) returns (found: map<Id, Problem>)
      requires m in rows && m.kind.Manifest? && !rows[m].deleted && rows[m].payload.Listing?
      requires forall id :: id in before ==> Flagged(id, before[id])
      ensures forall id :: id in found ==> Flagged(id, found[id])
      ensures forall id :: id in before ==> id in found && found[id] == before[id]
      ensures forall entry :: Claims(m, entry) && CheckEntry(rows, superseded, entry).Some? ==>
                entry.id in found && found[entry.id] == CheckEntry(rows, superseded, entry).value
    {
      found := before;
      var entries := rows[m].payload.entries;
      for k := 0 to |entries|
        invariant forall id :: id in found ==> Flagged(id, found[id])
        invariant forall id :: id in before ==> id in found && found[id] == before[id]
        invariant forall entry :: entry in entries[..k] && Synced(entry.id.kind)
                                  && CheckEntry(rows, superseded, entry).Some? ==>
                    entry.id in found && found[entry.id] == CheckEntry(rows, superseded, entry).value
      {
        var entry := entries[k];
        assert entries[..k + 1] == entries[..k] + [entry];
        if Synced(entry.id.kind) {
          var problem := CheckEntry(rows, superseded, entry);
          if problem.Some? {
            assert Claims(m, entry);
            found := found[entry.id := problem.value];
          }
        }
      }
      assert entries[..|entries|] == entries;
    }

    method NoteIncompletePull() returns (withheld: Withheld)
      modifies this`violations
      ensures violations == old(violations)[Id(Manifest, 0) := Incomplete]
      ensures withheld == WithheldOf(violations)
      ensures withheld.records > 0 && withheld.hostKeys
      ensures withheld.records == |set id | id in violations && !violations[id].Unchecked?|
    {
      violations := violations[Id(Manifest, 0) := Incomplete];
      withheld := WithheldOf(violations);
      assert Id(Manifest, 0) in Certain(violations);
      assert Certain(violations) == set id | id in violations && !violations[id].Unchecked?;
    }
  }

  /** All but an expected manifest that was not checked yet, which counts against
      host keys only. */
  function Certain(violations: map<Id, Problem>): set<Id> {
    set id | id in violations && violations[id] != Unchecked
  }

  /** What the last check comes to. */
  function WithheldOf(violations: map<Id, Problem>): Withheld {
    Withheld(|Certain(violations)|, exists id :: id in violations && DoubtsHostKeys(id))
  }

  /** A problem more counts as a record unless it is a manifest that was not checked
      yet, and puts host keys in doubt if it is with one or with a manifest. */
  lemma OneProblemMore(violations: map<Id, Problem>, id: Id, problem: Problem)
    requires id !in violations
    ensures WithheldOf(map[]) == Withheld(0, false)
    ensures var before, after := WithheldOf(violations), WithheldOf(violations[id := problem]);
            && after.records == before.records + (if problem.Unchecked? then 0 else 1)
            && after.hostKeys == (before.hostKeys || id.kind.KnownHost? || id.kind.Manifest?)
  {
    var after := violations[id := problem];
    assert Certain(map[]) == {};
    assert Certain(after) == Certain(violations) + if problem.Unchecked? then {} else {id};
    assert after[id] == problem && forall v :: v in violations ==> v in after && after[v] == violations[v];
  }
}
