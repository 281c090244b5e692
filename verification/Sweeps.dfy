/** Every device runs a pass, and then another one. */
module Sweeps {
  import opened Basics
  import opened Clock
  import opened Records
  import opened Device
  import opened Server
  import opened Net
  import opened Rounds
  import opened Guarantees

  /** One device after the other runs a complete pass; `Engine.Pass.SyncOnce` says
      what that is. */
  predicate Passes(nets: seq<Net>, order: seq<u32>) {
    && |nets| == |order| + 1
    && forall i :: 0 <= i < |order| ==> PassedOn(nets[i], nets[i + 1], order[i])
  }

  predicate PassedOn(a: Net, b: Net, m: u32) {
    && m in a.nodes && m in b.nodes
    && b == a.(log := b.log, ledger := b.ledger, nodes := a.nodes[m := b.nodes[m]])
    && a.nodes[m].flight.Quiet?
    && Completed(WorldOf(a, m), WorldOf(b, m))
  }

  lemma PassKeepsInv(a: Net, b: Net, m: u32)
    requires Inv(a) && PassedOn(a, b, m)
    ensures Inv(b)
  {
    JoinKeepsInv(a, m, WorldOf(b, m));
  }

  /** The device has nothing to send. */
  predicate HasSentAll(net: Net, m: u32) {
    m in net.nodes && Unsent(net.nodes[m].device.rows) == {}
  }

  lemma {:induction false} PassesKeepInv(nets: seq<Net>, order: seq<u32>)
    requires Passes(nets, order) && Inv(nets[0])
    ensures forall i :: 0 <= i < |nets| ==> Inv(nets[i]) && nets[i].nodes.Keys == nets[0].nodes.Keys
    decreases |order|
  {
    hide Inv, Completed;
    if order != [] {
      var n := |order|;
      PassesKeepInv(nets[..n], order[..n - 1]);
      assert nets[..n][n - 1] == nets[n - 1];
      assert PassedOn(nets[n - 1], nets[n], order[n - 1]);
      PassKeepsInv(nets[n - 1], nets[n], order[n - 1]);
      forall i | 0 <= i < |nets|
        ensures Inv(nets[i]) && nets[i].nodes.Keys == nets[0].nodes.Keys
      {
        if i < n { assert nets[..n][i] == nets[i]; }
      }
    }
  }

  /** Who has passed has nothing to send any more. */
  lemma {:induction false} PassedHaveSent(nets: seq<Net>, order: seq<u32>, m: u32)
    requires Passes(nets, order)
    requires m in order || HasSentAll(nets[0], m)
    ensures HasSentAll(nets[|order|], m)
    decreases |order|
  {
    hide Publishes, WorldInv, Past;
    if order != [] {
      var n := |order|;
      assert PassedOn(nets[n - 1], nets[n], order[n - 1]);
      if m != order[n - 1] {
        assert m in order ==> m in order[..n - 1];
        PassedHaveSent(nets[..n], order[..n - 1], m);
      }
    }
  }

  /** The device has seen every record the server holds. */
  ghost predicate SawRecords(net: Net, m: u32) {
    && m in net.nodes && net.nodes[m].flight.Quiet?
    && forall id: Id :: Synced(id.kind) ==> Last(net.log, id) < net.nodes[m].device.cursor
  }

  lemma LastOfRecord(a: Log, b: Log, id: Id)
    requires OnlyManifests(a, b) && Synced(id.kind)
    ensures Last(b, id) == Last(a, id)
  {
    LastIndexIgnoresLater(a, b, |a|, id);
    RecordStaysLast(a, b, |b|, id);
  }

  lemma {:induction false} RecordStaysLast(a: Log, b: Log, n: nat, id: Id)
    requires OnlyManifests(a, b) && Synced(id.kind) && |a| <= n <= |b|
    ensures LastIndex(b, n, id) == LastIndex(b, |a|, id)
    decreases n
  {
    if n > |a| { RecordStaysLast(a, b, n - 1, id); }
  }

  /** When nobody has anything to send, who passes has seen it all and keeps up. */
  lemma {:induction false} PassedHaveSeen(nets: seq<Net>, order: seq<u32>, m: u32)
    requires Passes(nets, order) && Inv(nets[0])
    requires forall k :: k in nets[0].nodes ==> HasSentAll(nets[0], k)
    requires m in order
    ensures SawRecords(nets[|order|], m)
    decreases |order|
  {
    hide Inv, Publishes, WorldInv;
    var n := |order|;
    var a, b, k := nets[n - 1], nets[n], order[n - 1];
    assert PassedOn(a, b, k);
    PassesKeepInv(nets[..n], order[..n - 1]);
    assert nets[..n][n - 1] == a;
    PassedHaveSent(nets[..n], order[..n - 1], k);
    assert OnlyManifests(a.log, b.log);
    forall id: Id | Synced(id.kind)
      ensures Last(b.log, id) == Last(a.log, id)
      ensures k == m ==> Last(b.log, id) < b.nodes[m].device.cursor
    {
      LastOfRecord(a.log, b.log, id);
      if Last(b.log, id) >= 0 { assert Current(b.log, Last(b.log, id)); }
    }
    if m != k {
      PassedHaveSeen(nets[..n], order[..n - 1], m);
    }
  }

  /** Whatever happened before, in whatever order: after every device has run a
      complete pass, and every device another one, with no edits in between, all
      devices agree on every record. */
  lemma TwoSweepsConverge(once: seq<Net>, first: seq<u32>, twice: seq<Net>, second: seq<u32>, id: Id)
    requires Passes(once, first) && Passes(twice, second)
    requires Reachable(once[0]) && twice[0] == once[|first|]
    requires forall m :: m in once[0].nodes ==> m in first && m in second
    requires Plain(id) && Synced(id.kind)
    ensures Converged(twice[|second|], id)
  {
    hide Inv, Completed, Converged, Reachable;
    ReachableIsInv(once[0]);
    PassesKeepInv(once, first);
    forall m | m in twice[0].nodes
      ensures HasSentAll(twice[0], m)
    {
      PassedHaveSent(once, first, m);
    }
    PassesKeepInv(twice, second);
    var net := twice[|second|];
    forall m | m in net.nodes
      ensures AtRest(net.log, net.nodes[m], id)
    {
      assert m in once[0].nodes;
      PassedHaveSeen(twice, second, m);
      PassedHaveSent(twice, second, m);
      assert id !in Unsent(net.nodes[m].device.rows);
    }
    RestingNetConverged(net, id);
  }
}
