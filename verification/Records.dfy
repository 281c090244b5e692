/** What a device keeps and what travels: rows, envelopes and their seals. */
module Records {
  import opened Basics
  import opened Clock
  import opened Versions

  datatype Kind =
    | Host | Group | Identity | Key | Snippet | PortForward
    | KnownHost | TerminalProfile | Secret | Manifest

  /** Kinds this build keeps a table for. */
  predicate HasTable(kind: Kind) {
    !kind.PortForward? && !kind.TerminalProfile?
  }

  /** Kinds that travel as records; manifests are pushed on their own. */
  predicate Synced(kind: Kind) {
    HasTable(kind) && !kind.Manifest?
  }

  /** Whatever a record can point at is applied before the record itself. */
  function ApplyRank(kind: Kind): nat {
    match kind
    case Secret => 0
    case Key => 1
    case Identity => 2
    case Group => 3
    case Host => 4
    case Snippet => 5
    case KnownHost => 6
    case _ => 7
  }

  datatype Id = Id(kind: Kind, uuid: nat)

  /** A device's manifest has one id, derived from the device. */
  function ManifestId(device: u32): Id {
    Id(Manifest, device)
  }

  /** Every kind but host keys, which give up their slot to a rival. */
  predicate Plain(id: Id) {
    !id.kind.KnownHost?
  }

  /** One line of a manifest. */
  datatype Entry = Entry(id: Id, clock: Hlc, deleted: bool)

  /** What a record says: the fields with the ids they point at, a host key
      with the address and port it is for, or a manifest. */
  datatype Payload =
    | Empty
    | Fields(body: int, refs: seq<Id>)
    | HostKey(slot: nat, fingerprint: int)
    | Listing(device: u32, partial: bool, entries: seq<Entry>)
    | Unreadable

  /** The kinds another record can point at. */
  predicate Pointable(kind: Kind) {
    kind.Group? || kind.Identity? || kind.Key? || kind.Secret?
  }

  predicate WellKinded(kind: Kind, deleted: bool, payload: Payload) {
    if deleted then payload.Empty?
    else match kind
      case KnownHost => payload.HostKey?
      case Manifest => payload.Listing? || payload.Unreadable?
      case _ => payload.Fields? && forall ref :: ref in payload.refs ==> Pointable(ref.kind)
  }

  datatype Row = Row(clock: Hlc, deleted: bool, dirty: bool, serverSeq: nat, payload: Payload)

  const ZERO: Hlc := Hlc(0, 0, 0)

  /** The placeholder for a record that has not arrived: live, empty, oldest. */
  const STUB: Row := Row(ZERO, false, false, 0, Empty)

  function RowVersion(row: Row): Version {
    Version(row.clock, row.deleted)
  }

  /** A sealed payload is bound to its whole header. */
  datatype Blob =
    | Noise
    | Sealed(vault: nat, id: Id, clock: Hlc, deleted: bool, payload: Payload)

  datatype Envelope = Envelope(
    vault: nat, id: Id, clock: Hlc, deleted: bool, baseSeq: nat, blob: Blob, seqNo: Option<nat>)

  function EnvelopeVersion(e: Envelope): Version {
    Version(e.clock, e.deleted)
  }

  function SeqOf(e: Envelope): nat {
    if e.seqNo.Some? then e.seqNo.value else 0
  }

  /** The seal opens only for the header it was made for. */
  predicate Opens(e: Envelope) {
    && e.blob.Sealed?
    && e.blob.vault == e.vault && e.blob.id == e.id
    && e.blob.clock == e.clock && e.blob.deleted == e.deleted
    && WellKinded(e.id.kind, e.deleted, e.blob.payload)
  }

  /** Some envelope of these is for the record. */
  predicate Offered(es: seq<Envelope>, id: Id) {
    exists e :: e in es && e.id == id
  }

  function IdsOf(es: seq<Envelope>): (r: set<Id>)
    ensures |r| <= |es|
    ensures forall id :: id in r <==> Offered(es, id)
    decreases |es|
  {
    if es == [] then {}
    else
      assert es == es[..|es| - 1] + [es[|es| - 1]];
      var front := IdsOf(es[..|es| - 1]);
      IdsOneMore(es, front);
      front + {es[|es| - 1].id}
  }

  lemma IdsOneMore(es: seq<Envelope>, front: set<Id>)
    requires es != [] && forall id :: id in front <==> Offered(es[..|es| - 1], id)
    ensures forall id :: id in front + {es[|es| - 1].id} <==> Offered(es, id)
    ensures |front + {es[|es| - 1].id}| <= |front| + 1
  {
    forall id
      ensures id in front + {es[|es| - 1].id} <==> Offered(es, id)
    {
      if Offered(es[..|es| - 1], id) {
        var e :| e in es[..|es| - 1] && e.id == id;
        assert e in es;
      }
    }
  }

  lemma IdsWithoutLast(es: seq<Envelope>)
    requires es != [] && forall i, j :: 0 <= i < j < |es| ==> es[i].id != es[j].id
    ensures var front, id := es[..|es| - 1], es[|es| - 1].id;
            && IdsOf(es) == IdsOf(front) + {id} && IdsOf(es) - {id} == IdsOf(front)
            && |IdsOf(es)| == |IdsOf(front)| + 1
  {
    assert !Offered(es[..|es| - 1], es[|es| - 1].id);
  }
}
