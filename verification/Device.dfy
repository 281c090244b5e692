/** One device's tables and what each store call makes of them, as functions.

    These are the specification the methods of `Store` are proved against, and
    the steps the protocol in `Protocol` and `Net` is built from. */
module Device {
  import opened Basics
  import opened Clock
  import opened Versions
  import opened Records

  datatype Problem = Missing | Older | Unchecked | Incomplete

  datatype Floor = Floor(id: Id, clock: Hlc)

  datatype Device = Device(
    me: u32,
    vault: nat,
    rows: map<Id, Row>,
    superseded: map<Id, Hlc>,
    clock: Hlc,
    cursor: nat,
    violations: map<Id, Problem>,
    floor: Option<Floor>)

  // ----- Records coming in -----

  datatype Outcome = Applied | Kept | Same | Skipped | Rejected

  datatype Effect = Effect(device: Device, outcome: Outcome, conflict: bool)

  function AddStubs(rows: map<Id, Row>, refs: seq<Id>): (r: map<Id, Row>)
    ensures forall id :: id in rows ==> id in r && r[id] == rows[id]
    ensures forall id :: id in r && id !in rows ==> r[id] == STUB && id in refs
    ensures forall id :: id in refs ==> id in r
    decreases |refs|
  {
    if refs == [] then rows
    else
      var first := if refs[0] in rows then rows else rows[refs[0] := STUB];
      AddStubs(first, refs[1..])
  }

  function Incoming(e: Envelope): Row
    requires Opens(e)
  {
    Row(e.clock, false, false, SeqOf(e), e.blob.payload)
  }

  /** Another record that holds the slot a host key is for. */
  predicate Rival(rows: map<Id, Row>, id: Id, slot: nat, rival: Id) {
    && rival in rows && rival != id && rival.kind.KnownHost?
    && rows[rival].payload.HostKey? && rows[rival].payload.slot == slot
  }

  /** No two host keys hold one slot. */
  predicate OnePerSlot(rows: map<Id, Row>) {
    forall a, b ::
      (&& a in rows && b in rows && a.kind.KnownHost? && b.kind.KnownHost?
       && rows[a].payload.HostKey? && rows[b].payload.HostKey?
       && rows[a].payload.slot == rows[b].payload.slot) ==> a == b
  }

  ghost function RivalOf(rows: map<Id, Row>, id: Id, slot: nat): (r: Option<Id>)
    ensures r.Some? ==> Rival(rows, id, slot, r.value)
    ensures r.None? ==> forall rival :: !Rival(rows, id, slot, rival)
  {
    if exists rival :: Rival(rows, id, slot, rival) then
      var rival :| Rival(rows, id, slot, rival);
      Some(rival)
    else None
  }

  /** Only the newest version given up is remembered per id. */
  function Supersede(superseded: map<Id, Hlc>, id: Id, clock: Hlc): map<Id, Hlc> {
    if id in superseded && !Less(superseded[id], clock) then superseded
    else superseded[id := clock]
  }

  ghost function InsertHostKey(d: Device, e: Envelope): Effect
    requires Opens(e) && e.blob.payload.HostKey?
  {
    var key := e.blob.payload;
    match RivalOf(d.rows, e.id, key.slot)
    case None => Effect(d.(rows := d.rows[e.id := Incoming(e)]), Applied, false)
    case Some(rival) =>
      var theirs := d.rows[rival];
      var conflict := theirs.payload.fingerprint != key.fingerprint && e.clock.device != d.me;
      if Less(e.clock, theirs.clock) then
        Effect(d.(superseded := Supersede(d.superseded, e.id, e.clock)), Kept, conflict)
      else
        Effect(d.(rows := (d.rows - {rival})[e.id := Incoming(e)],
                  superseded := Supersede(d.superseded, rival, theirs.clock)), Applied, conflict)
  }

  ghost function InsertRecord(d: Device, e: Envelope): Effect
    requires Opens(e) && !e.deleted
  {
    match e.blob.payload
    case HostKey(_, _) => InsertHostKey(d, e)
    case Unreadable => Effect(d, Skipped, false)
    case Listing(device, _, _) =>
      if e.id != ManifestId(device) then Effect(d, Rejected, false)
      else Effect(d.(rows := d.rows[e.id := Incoming(e)]), Applied, false)
    case Fields(_, refs) =>
      Effect(d.(rows := AddStubs(d.rows, refs)[e.id := Incoming(e)]), Applied, false)
    case Empty => Effect(d, Skipped, false)
  }

  /** A tombstone keeps the fields it found, except that a secret's go. */
  function Tombstoned(row: Row, kind: Kind, clock: Hlc, dirty: bool, serverSeq: nat): Row {
    Row(clock, true, dirty, serverSeq, if kind.Secret? then Empty else row.payload)
  }

  ghost function ApplyOne(d: Device, e: Envelope): Effect {
    if e.vault != d.vault then Effect(d, Rejected, false)
    else if !HasTable(e.id.kind) then Effect(d, Skipped, false)
    else if !Opens(e) then Effect(d, Rejected, false)
    else if e.id !in d.rows then
      if e.deleted then Effect(d, Skipped, false) else InsertRecord(d, e)
    else
      var row := d.rows[e.id];
      match Resolve(RowVersion(row), EnvelopeVersion(e))
      case Identical =>
        Effect(d.(rows := d.rows[e.id := row.(dirty := false, serverSeq := SeqOf(e))]), Same, false)
      case Local =>
        Effect(d.(rows := d.rows[e.id := row.(serverSeq := SeqOf(e))]), Kept, false)
      case Remote =>
        if e.deleted then
          Effect(d.(rows := d.rows[e.id := Tombstoned(row, e.id.kind, e.clock, false, SeqOf(e))]),
                 Applied, false)
        else InsertRecord(d, e)
  }

  datatype Report = Report(
    applied: nat, kept: nat, same: nat, skipped: nat, rejected: nat, conflicts: nat, manifests: nat)

  const NOTHING: Report := Report(0, 0, 0, 0, 0, 0, 0)

  function Count(report: Report, kind: Kind, outcome: Outcome, conflict: bool): Report {
    if kind.Manifest? && !outcome.Rejected? then report.(manifests := report.manifests + 1)
    else
      var r := if conflict then report.(conflicts := report.conflicts + 1) else report;
      match outcome
      case Applied => r.(applied := r.applied + 1)
      case Kept => r.(kept := r.kept + 1)
      case Same => r.(same := r.same + 1)
      case Skipped => r.(skipped := r.skipped + 1)
      case Rejected => r.(rejected := r.rejected + 1)
  }

  function Newer(newest: Option<Hlc>, clock: Hlc): Option<Hlc> {
    if newest.Some? && Less(clock, newest.value) then newest else Some(clock)
  }

  datatype Batch = Batch(device: Device, report: Report, newest: Option<Hlc>)

  ghost function ApplyStep(b: Batch, e: Envelope): Batch {
    var effect := ApplyOne(b.device, e);
    Batch(effect.device,
          Count(b.report, e.id.kind, effect.outcome, effect.conflict),
          if effect.outcome.Rejected? then b.newest else Newer(b.newest, e.clock))
  }

  ghost function ApplyAll(b: Batch, es: seq<Envelope>): Batch
    decreases |es|
  {
    if es == [] then b
    else ApplyStep(ApplyAll(b, es[..|es| - 1]), es[|es| - 1])
  }

  /** What applying records leaves alone. */
  lemma ApplyOneFrame(d: Device, e: Envelope)
    ensures ApplyOne(d, e).device ==
            d.(rows := ApplyOne(d, e).device.rows, superseded := ApplyOne(d, e).device.superseded)
  {
  }

  lemma {:induction false} ApplyAllFrame(b: Batch, es: seq<Envelope>)
    ensures var c := ApplyAll(b, es).device;
            c == b.device.(rows := c.rows, superseded := c.superseded)
    decreases |es|
  {
    if es != [] {
      ApplyAllFrame(b, es[..|es| - 1]);
      ApplyOneFrame(ApplyAll(b, es[..|es| - 1]).device, es[|es| - 1]);
    }
  }

  predicate Before(a: Envelope, b: Envelope) {
    ApplyRank(a.id.kind) < ApplyRank(b.id.kind)
    || (ApplyRank(a.id.kind) == ApplyRank(b.id.kind) && SeqOf(a) < SeqOf(b))
  }

  function Insert(e: Envelope, es: seq<Envelope>): (r: seq<Envelope>)
    ensures multiset(r) == multiset(es) + multiset{e}
    decreases |es|
  {
    if es == [] || Before(e, es[0]) then [e] + es
    else
      assert es == [es[0]] + es[1..];
      [es[0]] + Insert(e, es[1..])
  }

  /** The stable sort by what must be there first, then by sequence number. */
  function InOrder(es: seq<Envelope>): (r: seq<Envelope>)
    ensures multiset(r) == multiset(es)
    decreases |es|
  {
    if es == [] then []
    else
      assert es == es[..|es| - 1] + [es[|es| - 1]];
      Insert(es[|es| - 1], InOrder(es[..|es| - 1]))
  }

  ghost function ApplyEnvelopes(d: Device, es: seq<Envelope>, now: u64): (Device, Report) {
    if es == [] then (d, NOTHING)
    else
      var b := ApplyAll(Batch(d, NOTHING, None), InOrder(es));
      (if b.newest.Some? then b.device.(clock := Merge(b.device.clock, b.newest.value, now))
       else b.device,
       b.report)
  }

  // ----- Records going out -----

  function EnvelopeOf(d: Device, id: Id): Envelope
    requires id in d.rows
  {
    var row := d.rows[id];
    Envelope(d.vault, id, row.clock, row.deleted, row.serverSeq,
             Sealed(d.vault, id, row.clock, row.deleted, if row.deleted then Empty else row.payload),
             None)
  }

  /** Rows waiting to be pushed as records. */
  function Unsent(rows: map<Id, Row>): set<Id> {
    set id | id in rows && rows[id].dirty && Synced(id.kind)
  }

  datatype Pushed = Pushed(id: Id, clock: Hlc, seqNo: nat)

  predicate Matches(rows: map<Id, Row>, p: Pushed) {
    p.id in rows && rows[p.id].clock == p.clock
  }

  /** A row that changed while the push was in flight keeps its flag. */
  function MarkOne(rows: map<Id, Row>, p: Pushed): map<Id, Row> {
    if Matches(rows, p) then rows[p.id := rows[p.id].(dirty := false, serverSeq := p.seqNo)]
    else rows
  }

  function MarkAll(rows: map<Id, Row>, pushed: seq<Pushed>): map<Id, Row>
    decreases |pushed|
  {
    if pushed == [] then rows
    else MarkOne(MarkAll(rows, pushed[..|pushed| - 1]), pushed[|pushed| - 1])
  }

  // ----- Local edits -----

  datatype Change = Put(payload: Payload) | Tombstone

  function Edited(rows: map<Id, Row>, id: Id, change: Change, clock: Hlc): Row {
    var was := if id in rows then rows[id] else STUB;
    match change
    case Put(payload) => Row(clock, false, true, was.serverSeq, payload)
    case Tombstone => Tombstoned(was, id.kind, clock, true, was.serverSeq)
  }

  /** One transaction of local edits: every row it writes gets one new clock. */
  function Edit(d: Device, changes: map<Id, Change>, now: u64): Device {
    var clock := Tick(d.clock, now);
    d.(clock := clock,
       rows := d.rows + map id | id in changes :: Edited(d.rows, id, changes[id], clock))
  }

  /** A key trusted for a slot whose row is `id`, whatever that row was. */
  function Trusted(d: Device, id: Id, slot: nat, fingerprint: int, now: u64): Device {
    var clock := Tick(d.clock, now);
    var base := if id in d.rows then d.rows[id].serverSeq else 0;
    d.(clock := clock, rows := d.rows[id := Row(clock, false, true, base, HostKey(slot, fingerprint))])
  }

  /** A key that is trusted no longer: its row becomes a delete. */
  function Forgot(d: Device, id: Id, now: u64): Device
    requires id in d.rows
  {
    var clock := Tick(d.clock, now);
    d.(clock := clock, rows := d.rows[id := Tombstoned(d.rows[id], KnownHost, clock, true, d.rows[id].serverSeq)])
  }

  // ----- Manifests -----

  /** Rows the server has confirmed and nothing has changed since. */
  predicate Listed(row: Row) {
    !row.dirty && row.serverSeq > 0 && row.clock != ZERO
  }

  predicate IsLeast(s: set<nat>, least: nat) {
    least in s && forall x :: x in s ==> least <= x
  }

  lemma {:induction false} LeastExists(s: set<nat>)
    requires s != {}
    ensures exists least :: IsLeast(s, least)
    decreases |s|
  {
    var x :| x in s;
    var rest := s - {x};
    assert s == rest + {x};
    if rest == {} {
      assert IsLeast(s, x);
    } else {
      LeastExists(rest);
      var least :| IsLeast(rest, least);
      assert IsLeast(s, if x < least then x else least);
    }
  }

  ghost function Ascending(s: set<nat>): seq<nat>
    decreases |s|
  {
    if s == {} then []
    else
      LeastExists(s);
      var least :| IsLeast(s, least);
      [least] + Ascending(s - {least})
  }

  lemma {:induction false} AscendingSorts(s: set<nat>)
    ensures forall x :: x in Ascending(s) <==> x in s
    ensures forall i, j :: 0 <= i < j < |Ascending(s)| ==> Ascending(s)[i] < Ascending(s)[j]
    decreases |s|
  {
    if s != {} {
      var least := Ascending(s)[0];
      LeastExists(s);
      assert IsLeast(s, least);
      var rest := s - {least};
      AscendingSorts(rest);
      assert Ascending(s) == [least] + Ascending(rest);
      forall j | 0 <= j < |Ascending(rest)|
        ensures least < Ascending(rest)[j]
      {
        assert Ascending(rest)[j] in rest;
      }
    }
  }

  const PRIORITY: seq<Kind> := [KnownHost, Key, Secret, Identity, Host, Group, Snippet]

  function ListedOfKind(rows: map<Id, Row>, kind: Kind): set<nat> {
    set id | id in rows && id.kind == kind && Listed(rows[id]) :: id.uuid
  }

  function EntryOf(rows: map<Id, Row>, id: Id): Entry
    requires id in rows
  {
    Entry(id, rows[id].clock, rows[id].deleted)
  }

  ghost function EntriesOfKind(rows: map<Id, Row>, kind: Kind): (r: seq<Entry>)
    ensures forall entry :: entry in r ==>
              entry.id in rows && Listed(rows[entry.id]) && entry == EntryOf(rows, entry.id)
    ensures forall id :: id in rows && id.kind == kind && Listed(rows[id]) ==> EntryOf(rows, id) in r
  {
    AscendingSorts(ListedOfKind(rows, kind));
    var uuids := Ascending(ListedOfKind(rows, kind));
    assert forall i :: 0 <= i < |uuids| ==> uuids[i] in ListedOfKind(rows, kind);
    var r := seq(|uuids|, i requires 0 <= i < |uuids| => EntryOf(rows, Id(kind, uuids[i])));
    assert forall id :: id in rows && id.kind == kind && Listed(rows[id]) ==> EntryOf(rows, id) in r by {
      forall id | id in rows && id.kind == kind && Listed(rows[id])
        ensures EntryOf(rows, id) in r
      {
        assert id.uuid in ListedOfKind(rows, kind);
        var i :| 0 <= i < |uuids| && uuids[i] == id.uuid;
        assert r[i] == EntryOf(rows, id);
      }
    }
    r
  }

  ghost function EntriesFrom(rows: map<Id, Row>, k: nat): (r: seq<Entry>)
    requires k <= |PRIORITY|
    ensures forall entry :: entry in r ==>
              entry.id in rows && Listed(rows[entry.id]) && entry == EntryOf(rows, entry.id)
    decreases |PRIORITY| - k
  {
    if k == |PRIORITY| then [] else EntriesOfKind(rows, PRIORITY[k]) + EntriesFrom(rows, k + 1)
  }

  /** The order of a manifest: host keys first, then what logs in, then the rest, and by
      id within a kind. */
  function ListRank(kind: Kind): nat {
    match kind
    case KnownHost => 0
    case Key => 1
    case Secret => 2
    case Identity => 3
    case Host => 4
    case Group => 5
    case Snippet => 6
    case _ => 7
  }

  predicate ListedBefore(a: Id, b: Id) {
    ListRank(a.kind) < ListRank(b.kind) || (a.kind == b.kind && a.uuid < b.uuid)
  }

  /** The records a manifest has to list: those the server confirmed and nothing has
      changed since, of every kind there is a place for. */
  function ToList(rows: map<Id, Row>): set<Id> {
    set id | id in rows && ListRank(id.kind) < 7
             && !rows[id].dirty && rows[id].serverSeq > 0 && rows[id].clock != Hlc(0, 0, 0)
  }

  /** Entries for exactly these records, each once, in order. */
  ghost predicate ListsExactly(rows: map<Id, Row>, ids: set<Id>, entries: seq<Entry>) {
    && (forall entry :: entry in entries ==>
          entry.id in ids && entry.id in rows
          && entry == Entry(entry.id, rows[entry.id].clock, rows[entry.id].deleted))
    && (forall id :: id in ids ==> exists entry :: entry in entries && entry.id == id)
    && (forall i, j :: 0 <= i < j < |entries| ==> ListedBefore(entries[i].id, entries[j].id))
  }

  /** What a device's manifest says when it is right: it lists all of these records, or
      if there are too many the first ones, in which host keys come before any other. */
  ghost predicate IsManifestOf(rows: map<Id, Row>, device: u32, payload: Payload) {
    && payload.Listing? && payload.device == device
    && (payload.partial <==> |ToList(rows)| > MAX_MANIFEST_ENTRIES)
    && (!payload.partial ==> ListsExactly(rows, ToList(rows), payload.entries))
    && (payload.partial ==>
          exists all :: ListsExactly(rows, ToList(rows), all) && |all| > MAX_MANIFEST_ENTRIES
                        && payload.entries == all[..MAX_MANIFEST_ENTRIES])
  }

  lemma EntriesInOrder(rows: map<Id, Row>, kind: Kind)
    ensures forall i, j :: 0 <= i < j < |EntriesOfKind(rows, kind)| ==>
              ListedBefore(EntriesOfKind(rows, kind)[i].id, EntriesOfKind(rows, kind)[j].id)
    ensures forall entry :: entry in EntriesOfKind(rows, kind) ==> entry.id.kind == kind
  {
    AscendingSorts(ListedOfKind(rows, kind));
    var uuids := Ascending(ListedOfKind(rows, kind));
    assert forall i :: 0 <= i < |uuids| ==> uuids[i] in ListedOfKind(rows, kind);
    assert forall i :: 0 <= i < |uuids| ==> EntriesOfKind(rows, kind)[i].id == Id(kind, uuids[i]);
  }

  /** The records to list from a place in the order on. */
  function ToListFrom(rows: map<Id, Row>, k: nat): set<Id> {
    set id | id in ToList(rows) && ListRank(id.kind) >= k
  }

  lemma {:induction false} EntriesAreListed(rows: map<Id, Row>, k: nat)
    requires k <= |PRIORITY|
    ensures ListsExactly(rows, ToListFrom(rows, k), EntriesFrom(rows, k))
    decreases |PRIORITY| - k
  {
    hide ListsExactly, ToList, EntriesOfKind;
    if k == |PRIORITY| {
      NothingToList(rows);
    } else {
      EntriesAreListed(rows, k + 1);
      KindIsListed(rows, k);
      ListsBoth(rows, ToListFrom(rows, k) - ToListFrom(rows, k + 1), ToListFrom(rows, k + 1),
                EntriesOfKind(rows, PRIORITY[k]), EntriesFrom(rows, k + 1));
      assert ToListFrom(rows, k) - ToListFrom(rows, k + 1) + ToListFrom(rows, k + 1) == ToListFrom(rows, k);
    }
  }

  lemma NothingToList(rows: map<Id, Row>)
    ensures ToListFrom(rows, |PRIORITY|) == {} && ListsExactly(rows, {}, [])
  {
  }

  lemma KindIsListed(rows: map<Id, Row>, k: nat)
    requires k < |PRIORITY|
    ensures ListRank(PRIORITY[k]) == k
    ensures ListsExactly(rows, ToListFrom(rows, k) - ToListFrom(rows, k + 1), EntriesOfKind(rows, PRIORITY[k]))
    ensures forall id :: id in ToListFrom(rows, k) - ToListFrom(rows, k + 1) ==> ListRank(id.kind) == k
    ensures forall id :: id in ToListFrom(rows, k + 1) ==> ListRank(id.kind) > k
  {
    var ids, entries := ToListFrom(rows, k) - ToListFrom(rows, k + 1), EntriesOfKind(rows, PRIORITY[k]);
    EntriesInOrder(rows, PRIORITY[k]);
    forall id | id in ids
      ensures exists entry: Entry :: entry in entries && entry.id == id
    {
      assert id.kind == PRIORITY[k];
      assert EntryOf(rows, id) in entries;
    }
  }

  /** One list after another, of records that come later. */
  lemma ListsBoth(rows: map<Id, Row>, ids: set<Id>, others: set<Id>, first: seq<Entry>, rest: seq<Entry>)
    requires ListsExactly(rows, ids, first) && ListsExactly(rows, others, rest)
    requires forall a, b :: a in ids && b in others ==> ListedBefore(a, b)
    ensures ListsExactly(rows, ids + others, first + rest)
  {
    var all := first + rest;
    forall id | id in ids + others
      ensures exists entry :: entry in all && entry.id == id
    {
      var entry :| (entry in first || entry in rest) && entry.id == id;
      assert entry in all;
    }
    forall i, j | 0 <= i < j < |all|
      ensures ListedBefore(all[i].id, all[j].id)
    {
      if i < |first| <= j {
        assert all[i] in first && all[j] in rest;
      }
    }
  }

  lemma ListedOnce(rows: map<Id, Row>, ids: set<Id>, entries: seq<Entry>)
    requires ListsExactly(rows, ids, entries)
    ensures |entries| == |ids|
  {
    var listed := seq(|entries|, i requires 0 <= i < |entries| => entries[i].id);
    assert forall i, j :: 0 <= i < j < |listed| ==> ListedBefore(entries[i].id, entries[j].id);
    EachOnce(listed);
    assert (set id | id in listed) == ids by {
      forall id | id in ids
        ensures id in listed
      {
        var i :| 0 <= i < |entries| && entries[i].id == id;
        assert listed[i] == id;
      }
    }
  }

  /** What this device's manifest says now. */
  ghost function ListingOf(d: Device): Payload {
    var entries := EntriesFrom(d.rows, 0);
    var partial := |entries| > MAX_MANIFEST_ENTRIES;
    Listing(d.me, partial, if partial then entries[..MAX_MANIFEST_ENTRIES] else entries)
  }

  lemma ListingIsManifest(d: Device)
    ensures IsManifestOf(d.rows, d.me, ListingOf(d))
  {
    var entries := EntriesFrom(d.rows, 0);
    EntriesAreListed(d.rows, 0);
    assert ToListFrom(d.rows, 0) == ToList(d.rows);
    ListedOnce(d.rows, ToList(d.rows), entries);
  }

  /** Host keys come first: a manifest that leaves one out lists nothing else. */
  lemma HostKeysAreListedFirst(rows: map<Id, Row>, device: u32, payload: Payload, key: Id)
    requires IsManifestOf(rows, device, payload) && key in ToList(rows) && key.kind.KnownHost?
    ensures || (exists entry :: entry in payload.entries && entry.id == key)
            || (&& payload.partial && |payload.entries| == MAX_MANIFEST_ENTRIES
                && forall entry :: entry in payload.entries ==> entry.id.kind.KnownHost?)
  {
    if payload.partial {
      var all: seq<Entry> :| ListsExactly(rows, ToList(rows), all) && |all| > MAX_MANIFEST_ENTRIES
                 && payload.entries == all[..MAX_MANIFEST_ENTRIES];
      var j :| 0 <= j < |all| && all[j].id == key;
      if j < MAX_MANIFEST_ENTRIES {
        assert all[j] in payload.entries;
      }
    }
  }

  /** The manifest is already the one that was written last. */
  ghost predicate UpToDate(d: Device) {
    var id := ManifestId(d.me);
    id in d.rows && !d.rows[id].deleted && d.rows[id].payload == ListingOf(d)
  }

  function PublishAs(d: Device, listing: Payload, now: u64): Device {
    var id := ManifestId(d.me);
    var clock := Tick(d.clock, now);
    d.(clock := clock,
       rows := d.rows[id := Row(clock, false, true,
                                if id in d.rows then d.rows[id].serverSeq else 0,
                                listing)])
  }

  ghost function Publish(d: Device, now: u64): Device {
    if UpToDate(d) then d else PublishAs(d, ListingOf(d), now)
  }

  /** Whether one listed version is accounted for here, and if not, how. */
  function CheckEntry(rows: map<Id, Row>, superseded: map<Id, Hlc>, entry: Entry): Option<Problem> {
    if !HasTable(entry.id.kind) then None
    else if entry.id in rows && rows[entry.id].deleted then None
    else if entry.id in rows && !Less(rows[entry.id].clock, entry.clock) then None
    else if entry.id !in rows && entry.deleted then None
    else if entry.id in superseded && !Less(superseded[entry.id], entry.clock) then None
    else if entry.id in rows then Some(Older)
    else Some(Missing)
  }
}
