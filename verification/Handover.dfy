/** One record on its way from one device through the honest server to another. */
module Handover {
  import opened Basics
  import opened Clock
  import opened Versions
  import opened Records
  import opened Device
  import opened Server
  import opened Net

  /** The record as the server has it after taking a row. */
  function AsServed(d: Device, log: Log, id: Id): Envelope
    requires id in d.rows
  {
    EnvelopeOf(d, id).(seqNo := Some(|log| + 1))
  }

  /** The row of a device whose push was acknowledged. */
  function Acknowledged(d: Device, log: Log, id: Id): map<Id, Row>
    requires id in d.rows
  {
    d.rows[id := d.rows[id].(dirty := false, serverSeq := |log| + 1)]
  }

  lemma OneServed(log: Log, e: Envelope)
    requires Last(log, e.id) == -1 || Last(log, e.id) == e.baseSeq - 1
    ensures var taken := e.(seqNo := Some(|log| + 1));
            && Serve(log, [e]) == Reply(log + [taken], [Accepted(e.id, |log| + 1)], [])
            && Held(log + [taken], taken)
  {
    assert [e][..0] == [];
    assert ServeAll(Reply(log, [], []), [e]) == ServeOne(Reply(log, [], []), e);
    LastAfter(log, e.(seqNo := Some(|log| + 1)), e.id);
  }

  lemma OneAcked(rows: map<Id, Row>, e: Envelope, seqNo: nat)
    requires e.id in rows && rows[e.id].clock == e.clock
    ensures MarkAll(rows, Acks([e], [Accepted(e.id, seqNo)])) ==
            rows[e.id := rows[e.id].(dirty := false, serverSeq := seqNo)]
  {
    hide Acks;
    var p := Pushed(e.id, e.clock, seqNo);
    OneAck(e, seqNo);
    assert [p][..0] == [];
    assert MarkAll(rows, [p]) == MarkOne(rows, p);
  }

  lemma OneAck(e: Envelope, seqNo: nat)
    ensures Acks([e], [Accepted(e.id, seqNo)]) == [Pushed(e.id, e.clock, seqNo)]
  {
    var accepted := [Accepted(e.id, seqNo)];
    assert accepted[..|accepted| - 1] == [];
    assert Acks([e], []) == [];
    assert Find([e], e.id) == Some(e);
  }

  /** A row based on the version held is taken as it is, and its flag cleared. */
  lemma OnePush(d: Device, log: Log, id: Id)
    requires id in d.rows
    requires Last(log, id) == -1 || Last(log, id) == d.rows[id].serverSeq - 1
    ensures var es := [EnvelopeOf(d, id)];
            var reply := Serve(log, es);
            && reply.conflicts == [] && reply.log == log + [AsServed(d, log, id)]
            && Held(reply.log, AsServed(d, log, id))
            && MarkAll(d.rows, Acks(es, reply.accepted)) == Acknowledged(d, log, id)
  {
    hide Serve, Acks, MarkAll, Held, Last;
    OneServed(log, EnvelopeOf(d, id));
    OneAcked(d.rows, EnvelopeOf(d, id), |log| + 1);
  }

  /** A pull that brings one record. */
  lemma OneDelivery(d: Device, e: Envelope, now: u64)
    ensures var after := ApplyEnvelopes(d, [e], now).0;
            after == ApplyOne(d, e).device.(clock := after.clock) && after.vault == d.vault && after.me == d.me
    ensures !ApplyOne(d, e).outcome.Rejected? ==>
              ApplyEnvelopes(d, [e], now).0.clock == Merge(d.clock, e.clock, now)
  {
    assert [e][..0] == [];
    assert InOrder([e]) == [e];
    var start := Batch(d, NOTHING, None);
    assert ApplyAll(start, [e]) == ApplyStep(start, e);
    ApplyOneFrame(d, e);
  }
}
