/** Building runs of the network: one step more, one record pushed, one page pulled. */
module Runs {
  import opened Basics
  import opened Clock
  import opened Versions
  import opened Records
  import opened Device
  import opened Server
  import opened Protocol
  import opened Net
  import opened Handover
  import opened Guarantees

  function With(net: Net, me: u32, w: World): Net {
    net.(log := w.log, ledger := w.ledger, nodes := net.nodes[me := w.node])
  }

  lemma {:induction false} OneStepMore(net: Net, steps: seq<Step>, step: Step)
    requires CanRun(net, steps) && CanStep(Reached(net, steps), step)
    ensures CanRun(net, steps + [step])
    ensures Reached(net, steps + [step]) == Next(Reached(net, steps), step)
    decreases |steps|
  {
    hide Next, CanStep;
    if steps == [] {
      assert [] + [step] == [step] && [step][1..] == [];
      assert CanRun(Next(net, step), []);
    } else {
      assert (steps + [step])[0] == steps[0] && (steps + [step])[1..] == steps[1..] + [step];
      OneStepMore(Next(net, steps[0]), steps[1..], step);
    }
  }

  /** What a step leads to can be reached. */
  lemma Steps(net: Net, me: u32, act: Action, b: World)
    requires Reachable(net) && me in net.nodes
    requires Enabled(WorldOf(net, me), act) && Do(WorldOf(net, me), act) == b
    ensures Reachable(With(net, me, b))
  {
    hide Enabled, Do, Fresh;
    var start, steps :| Fresh(start) && CanRun(start, steps) && Reached(start, steps) == net;
    var step := Step(me, act);
    OneStepMore(start, steps, step);
    assert Reached(start, steps + [step]) == With(net, me, b);
  }

  /** One step after another of the same device. */
  lemma ThenSteps(net: Net, me: u32, a: World, act: Action, b: World)
    requires me in net.nodes && Reachable(With(net, me, a)) && Enabled(a, act) && Do(a, act) == b
    ensures Reachable(With(net, me, b))
  {
    hide Enabled, Do, Reachable;
    assert WorldOf(With(net, me, a), me) == a;
    assert With(With(net, me, a), me, b) == With(net, me, b);
    Steps(With(net, me, a), me, act, b);
  }

  /** One transaction of local edits. */
  lemma EditsOnce(net: Net, me: u32, changes: map<Id, Change>, now: u64, b: World)
    requires Reachable(net) && me in net.nodes
    requires var node := net.nodes[me];
             && Editable(net.ledger, node.device, changes, now)
             && b == World(net.log, EditLedger(net.log, net.ledger, node.device, changes, now),
                           node.(device := Edit(node.device, changes, now)))
    ensures Reachable(With(net, me, b))
  {
    hide Reachable, Editable, Edit, EditLedger;
    Steps(net, me, Edits(changes, now), b);
  }

  lemma EditedIds(log: Log, ledger: Ledger, d: Device, changes: map<Id, Change>, now: u64)
    ensures forall s :: s in EditLedger(log, ledger, d, changes, now) ==> s in ledger || s.id in changes
  {
  }

  /** A row that waits and would be taken. */
  predicate CanPush(log: Log, node: Node, id: Id) {
    && node.flight.Quiet? && id in node.device.rows && node.device.rows[id].dirty && HasTable(id.kind)
    && (Last(log, id) == -1 || Last(log, id) == node.device.rows[id].serverSeq - 1)
    && Roomy(node.device.clock, 0)
  }

  /** A record that comes next, and can be read. */
  ghost predicate CanPull(log: Log, node: Node, e: Envelope, now: u64, more: bool) {
    && node.flight.Quiet? && Roomy(node.device.clock, now) && node.device.cursor <= SeqOf(e)
    && Pull(log, node.device.cursor, 1) == Page([e], SeqOf(e), more)
    && !ApplyOne(node.device, e).outcome.Rejected?
  }

  function AfterOnePush(w: World, id: Id): World
    requires id in w.node.device.rows
  {
    var d := w.node.device;
    World(w.log + [AsServed(d, w.log, id)], w.ledger,
          Node(d.(rows := Acknowledged(d, w.log, id)), Quiet, w.node.seen, false))
  }

  /** A row that waits, based on the version held, pushed and acknowledged. */
  lemma PushesOne(net: Net, me: u32, id: Id)
    requires Reachable(net) && me in net.nodes
    requires CanPush(net.log, net.nodes[me], id)
    ensures Reachable(With(net, me, AfterOnePush(WorldOf(net, me), id)))
  {
    hide Reachable, Serve, Acks, MarkAll, Held, Last;
    var w := WorldOf(net, me);
    var d := w.node.device;
    var es := [EnvelopeOf(d, id)];
    var reply := Serve(w.log, es);
    OnePush(d, w.log, id);
    assert OutgoingAll(d, [id]) == es;
    var sent := w.(node := w.node.(flight := Flight.Sent(es)));
    var acks := Acks(es, reply.accepted);
    var answered := World(reply.log, w.ledger, w.node.(flight := Flight.Answered(acks, [], |reply.log|)));
    var marked := answered.(node := Node(d.(rows := MarkAll(d.rows, acks)), Flight.Merging([], |reply.log|),
                                         w.node.seen, false));
    Steps(net, me, Offer([id]), sent);
    ThenSteps(net, me, sent, ServePush, answered);
    ThenSteps(net, me, answered, Mark, marked);
    ThenSteps(net, me, marked, MergeConflicts(0), AfterOnePush(w, id));
  }

  ghost function AfterOnePull(w: World, e: Envelope, now: u64, more: bool): World {
    var d := w.node.device;
    var after := ApplyOne(d, e).device.(clock := Merge(d.clock, e.clock, now), cursor := SeqOf(e));
    w.(node := Node(after, Quiet, if more then w.node.seen else |w.log|, !more))
  }

  /** A page with one record, pulled and taken in. */
  lemma PullsOne(net: Net, me: u32, e: Envelope, now: u64, more: bool)
    requires Reachable(net) && me in net.nodes
    requires CanPull(net.log, net.nodes[me], e, now, more)
    ensures Reachable(With(net, me, AfterOnePull(WorldOf(net, me), e, now, more)))
  {
    hide Reachable, Pull, ApplyEnvelopes, ApplyOne, Merge;
    var w := WorldOf(net, me);
    var d := w.node.device;
    var page := Page([e], SeqOf(e), more);
    var after := ApplyEnvelopes(d, [e], now).0;
    OneDelivery(d, e, now);
    ApplyOneFrame(d, e);
    var asked := w.(node := w.node.(flight := Flight.Paged(page, |w.log|)));
    var taken := w.(node := w.node.(device := after, flight := Flight.Taken(page, |w.log|), whole := false));
    Steps(net, me, Ask(1), asked);
    ThenSteps(net, me, asked, Take(now), taken);
    ThenSteps(net, me, taken, Advance, AfterOnePull(w, e, now, more));
  }

  lemma {:induction false} WaitingSkips(log: Log, since: nat, i: nat)
    requires since <= i < |log| && Current(log, i)
    requires forall j :: since <= j < i ==> !Current(log, j)
    ensures Waiting(log, since) == [log[i]] + Waiting(log, i + 1)
    decreases i - since
  {
    if since < i {
      WaitingSkips(log, since + 1, i);
    }
  }

  lemma {:induction false} SomethingWaits(log: Log, i: nat)
    requires i < |log|
    ensures Waiting(log, i) != []
    decreases |log| - i
  {
    if i + 1 < |log| {
      SomethingWaits(log, i + 1);
    } else {
      assert Current(log, i);
    }
  }

  /** A page for one record is the next version held. */
  lemma PageOfOne(log: Log, since: nat, i: nat)
    requires since <= i < |log| && Current(log, i) && log[i].seqNo == Some(i + 1)
    requires forall j :: since <= j < i ==> !Current(log, j)
    ensures Pull(log, since, 1) == Page([log[i]], i + 1, i + 1 < |log|)
  {
    hide Current;
    WaitingSkips(log, since, i);
    if i + 1 < |log| { SomethingWaits(log, i + 1); }
    var all := Waiting(log, since);
    assert all[..1] == [log[i]];
  }
}
