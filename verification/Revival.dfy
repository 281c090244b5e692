/** When a key trusted on one device is trusted on another: never again, if that
    one knows that it was forgotten. */
module Revival {
  import opened Basics
  import opened Clock
  import opened Versions
  import opened Records
  import opened Device
  import opened Server
  import opened Handover
  import KnownHosts
  import Net

  /** The delivered key is the one its slot is held by. */
  predicate Arrived(rows: map<Id, Row>, e: Envelope) {
    e.id in rows && !rows[e.id].deleted && rows[e.id].clock == e.clock
  }

  /** The record's own row is not there, or is live and no newer, and no other row
      of the slot is newer, deleted ones counted. */
  predicate GivesWay(rows: map<Id, Row>, e: Envelope) {
    if e.id in rows && RowVersion(rows[e.id]) == EnvelopeVersion(e) then true
    else
      && (e.id in rows ==> !rows[e.id].deleted && Less(rows[e.id].clock, e.clock))
      && forall rival :: rival in rows && Rival(rows, e.id, KnownHosts.SlotOf(e), rival) ==>
           !Less(e.clock, rows[rival].clock)
  }

  /** Exactly when a host key that comes in is trusted, whatever is held here. */
  lemma KeyArrivesExactlyWhen(d: Device, e: Envelope)
    requires KnownHosts.Deliverable(d.vault, e) && OnePerSlot(d.rows)
    ensures var rows := ApplyOne(d, e).device.rows;
            && (Arrived(rows, e) <==> GivesWay(d.rows, e))
            && (Arrived(rows, e) ==> rows[e.id] == Incoming(e)
                                     || (e.id in d.rows && RowVersion(d.rows[e.id]) == EnvelopeVersion(e)))
  {
    if e.id in d.rows { ResolveIsOrder(RowVersion(d.rows[e.id]), EnvelopeVersion(e)); }
    if e.id !in d.rows || (!d.rows[e.id].deleted && Less(d.rows[e.id].clock, e.clock)) {
      var slot := KnownHosts.SlotOf(e);
      assert ApplyOne(d, e) == InsertHostKey(d, e);
      assert forall rival :: Rival(d.rows, e.id, slot, rival) ==> RivalOf(d.rows, e.id, slot) == Some(rival);
    }
  }

  /** The device after the server took the key it trusted. */
  function TrustPushed(a: Device, log: Log, id: Id, slot: nat, fingerprint: int, now: u64): Device {
    var trusted := Trusted(a, id, slot, fingerprint, now);
    trusted.(rows := Acknowledged(trusted, log, id))
  }

  /** The key as the server has it then. */
  function TrustServed(a: Device, log: Log, id: Id, slot: nat, fingerprint: int, now: u64): Envelope {
    AsServed(Trusted(a, id, slot, fingerprint, now), log, id)
  }

  /** A key trusted on one device reaches another one exactly if it gives way there. */
  lemma TrustReachesExactlyWhen(a: Device, b: Device, log: Log, id: Id, slot: nat, fingerprint: int,
                                now: u64, later: u64)
    requires a.vault == b.vault && id.kind.KnownHost? && OnePerSlot(b.rows)
    requires Last(log, id) == -1 || (id in a.rows && Last(log, id) == a.rows[id].serverSeq - 1)
    ensures var es := [EnvelopeOf(Trusted(a, id, slot, fingerprint, now), id)];
            var reply := Serve(log, es);
            var taken := TrustServed(a, log, id, slot, fingerprint, now);
            var mine := TrustPushed(a, log, id, slot, fingerprint, now);
            var theirs := ApplyEnvelopes(b, [taken], later).0;
            && reply.conflicts == [] && Held(reply.log, taken)
            && MarkAll(Trusted(a, id, slot, fingerprint, now).rows, Net.Acks(es, reply.accepted)) == mine.rows
            && Arrived(mine.rows, taken)
            && (Arrived(theirs.rows, taken) <==> GivesWay(b.rows, taken))
  {
    hide Serve, Net.Acks, MarkAll, Held, ApplyEnvelopes, ApplyOne, GivesWay, OnePerSlot;
    var trusted := Trusted(a, id, slot, fingerprint, now);
    var taken := TrustServed(a, log, id, slot, fingerprint, now);
    OnePush(trusted, log, id);
    OneDelivery(b, taken, later);
    assert KnownHosts.Deliverable(b.vault, taken);
    KeyArrivesExactlyWhen(b, taken);
  }

  /** So a forgotten key that is trusted again stays forgotten on every other device
      that has the delete, whatever the clocks, and pulling again changes neither. */
  lemma RevivedKeyStaysForgotten(a: Device, b: Device, log: Log, id: Id, slot: nat, fingerprint: int,
                                 now: u64, later: u64, again: u64)
    requires a.vault == b.vault && id.kind.KnownHost? && OnePerSlot(b.rows)
    requires Last(log, id) == -1 || (id in a.rows && Last(log, id) == a.rows[id].serverSeq - 1)
    requires id in b.rows && b.rows[id].deleted
    ensures var taken := TrustServed(a, log, id, slot, fingerprint, now);
            var mine := TrustPushed(a, log, id, slot, fingerprint, now);
            var theirs := ApplyEnvelopes(b, [taken], later).0;
            && Held(Serve(log, [EnvelopeOf(Trusted(a, id, slot, fingerprint, now), id)]).log, taken)
            && id in mine.rows && !mine.rows[id].deleted
            && id in theirs.rows && theirs.rows[id] == b.rows[id].(serverSeq := |log| + 1)
            && ApplyEnvelopes(mine, [taken], again).0.rows == mine.rows
            && ApplyEnvelopes(theirs, [taken], again).0.rows == theirs.rows
  {
    hide Serve, Net.Acks, MarkAll, Held, ApplyEnvelopes, GivesWay, OnePerSlot;
    var taken := TrustServed(a, log, id, slot, fingerprint, now);
    var mine := TrustPushed(a, log, id, slot, fingerprint, now);
    var theirs := ApplyEnvelopes(b, [taken], later).0;
    TrustReachesExactlyWhen(a, b, log, id, slot, fingerprint, now, later);
    OneDelivery(b, taken, later);
    OneDelivery(mine, taken, again);
    OneDelivery(theirs, taken, again);
    assert mine.rows[id := mine.rows[id]] == mine.rows;
    assert theirs.rows[id := theirs.rows[id]] == theirs.rows;
  }

  const KEY: Id := Id(KnownHost, 1)

  function NewDevice(me: u32): Device {
    Device(me, 0, map[], map[], Hlc(0, 0, me), 0, map[], None)
  }

  /** A key for the first slot, trusted on the first device, as the server has it. */
  function FirstTrust(): Envelope {
    TrustServed(NewDevice(1), [], KEY, 0, 10, 1)
  }

  /** The first device after it forgot the key again. */
  function Forgetting(): Device {
    Forgot(TrustPushed(NewDevice(1), [], KEY, 0, 10, 1), KEY, 2)
  }

  function FirstDelete(): Envelope {
    AsServed(Forgetting(), [FirstTrust()], KEY)
  }

  /** The first device after the server took that. */
  function Forgetter(): Device {
    Forgetting().(rows := Acknowledged(Forgetting(), [FirstTrust()], KEY))
  }

  /** The second device after it pulled the key, and then the delete. */
  ghost function Follower(): Device {
    ApplyEnvelopes(ApplyEnvelopes(NewDevice(2), [FirstTrust()], 1).0, [FirstDelete()], 2).0
  }

  const FORGOTTEN: Row := Row(Hlc(2, 0, 1), true, false, 2, HostKey(0, 10))

  /** The server takes the key and then its delete, and the first device hears so. */
  lemma KeyIsForgotten()
    ensures var log := [FirstTrust(), FirstDelete()];
            && Serve([], [EnvelopeOf(Trusted(NewDevice(1), KEY, 0, 10, 1), KEY)]).log == [FirstTrust()]
            && Serve([FirstTrust()], [EnvelopeOf(Forgetting(), KEY)]).log == log
            && Last(log, KEY) == 1 && Held(log, FirstDelete())
            && Forgetter().rows == map[KEY := FORGOTTEN]
            && Forgetter().vault == 0 && Forgetter().clock == FirstDelete().clock == Hlc(2, 0, 1)
  {
    hide Serve;
    assert Last([FirstTrust()], KEY) == 0;
    OnePush(Trusted(NewDevice(1), KEY, 0, 10, 1), [], KEY);
    OnePush(Forgetting(), [FirstTrust()], KEY);
    assert [] + [FirstTrust()] == [FirstTrust()] && [FirstTrust()] + [FirstDelete()] == [FirstTrust(), FirstDelete()];
  }

  /** The second device takes in the one and the other. */
  lemma FollowerForgets()
    ensures Follower().rows == map[KEY := FORGOTTEN] && Follower().vault == 0
  {
    hide ApplyEnvelopes;
    var heard := ApplyEnvelopes(NewDevice(2), [FirstTrust()], 1).0;
    OneDelivery(NewDevice(2), FirstTrust(), 1);
    assert heard.rows == map[KEY := Row(Hlc(1, 0, 1), false, false, 1, HostKey(0, 10))];
    OneDelivery(heard, FirstDelete(), 2);
  }

  /** So the two agree that the key is forgotten. From there the first one trusts
      the key again, a day's length later, pushes it, and the other one pulls: the one
      has it, the other has not, and pulling again changes neither. */
  lemma ForgottenExample(again: u64)
    ensures var log := [FirstTrust(), FirstDelete()];
            var taken := TrustServed(Forgetter(), log, KEY, 0, 10, MAX_DRIFT_MS);
            var mine := TrustPushed(Forgetter(), log, KEY, 0, 10, MAX_DRIFT_MS);
            var theirs := ApplyEnvelopes(Follower(), [taken], MAX_DRIFT_MS).0;
            && Serve(log, [EnvelopeOf(Trusted(Forgetter(), KEY, 0, 10, MAX_DRIFT_MS), KEY)]).log == log + [taken]
            && Less(FirstDelete().clock, taken.clock)
            && !mine.rows[KEY].deleted && KEY in theirs.rows && theirs.rows[KEY].deleted
            && ApplyEnvelopes(mine, [taken], again).0.rows == mine.rows
            && ApplyEnvelopes(theirs, [taken], again).0.rows == theirs.rows
  {
    hide ApplyEnvelopes, Serve, Follower, Forgetter;
    var log := [FirstTrust(), FirstDelete()];
    KeyIsForgotten();
    FollowerForgets();
    OnePush(Trusted(Forgetter(), KEY, 0, 10, MAX_DRIFT_MS), log, KEY);
    RevivedKeyStaysForgotten(Forgetter(), Follower(), log, KEY, 0, 10, MAX_DRIFT_MS, MAX_DRIFT_MS, again);
  }
}
