/** A pass that needs more rounds than it has, and the run that leads to it.

    The first device makes some groups, and the third one pulls them. The first one
    deletes them, and before the third one hears of that it puts a host into each. The
    second device, which never had the groups, skips the deletes and takes in the
    hosts, which leaves placeholders for the groups. Then it writes to all of those;
    putting its groups in another order is enough, since that numbers the placeholders
    too. What it has to push is based on nothing, the server holds the deletes, and no
    pull brings those again. */
module Stuck {
  import opened Basics
  import opened Clock
  import opened Versions
  import opened Records
  import opened Device
  import opened Server
  import opened Protocol
  import opened Net
  import opened Rounds
  import opened Standing
  import opened Handover
  import opened Guarantees
  import opened Runs
  import Engine
  import Store

  // ----- What is written, and when -----

  const GROUP: Payload := Fields(0, [])
  const MADE_AT: Hlc := Hlc(1, 0, 1)
  const DELETED_AT: Hlc := Hlc(2, 0, 1)

  function HostsAt(n: u32): Hlc {
    Hlc(20 + n, 0, 3)
  }

  function EditedAt(n: u32): Hlc {
    Hlc(40 + 3 * n, 0, 2)
  }

  /** A device's clock after it pulled `k` pages, the next one a moment after the last. */
  function AfterPages(first: nat, k: nat, device: u32): Hlc
    requires first + k <= U64_MAX
  {
    if k == 0 then Hlc(0, 0, device) else Hlc(first + k, 0, device)
  }

  function GroupId(i: nat): Id {
    Id(Group, i)
  }

  function HostId(i: nat): Id {
    Id(Host, i)
  }

  function HostIn(i: nat): Payload {
    Fields(0, [GroupId(i)])
  }

  function IdsBelow(kind: Kind, n: nat): (r: set<Id>)
    ensures |r| == n
    ensures forall id :: id in r <==> id.kind == kind && id.uuid < n
  {
    if n == 0 then {} else IdsBelow(kind, n - 1) + {Id(kind, n - 1)}
  }

  // ----- What the server has -----

  function EntryAt(n: u32, j: nat): Envelope {
    if j < n then
      Envelope(0, GroupId(j), MADE_AT, false, 0, Sealed(0, GroupId(j), MADE_AT, false, GROUP), Some(j + 1))
    else if j < 2 * n then
      var i := j - n;
      Envelope(0, GroupId(i), DELETED_AT, true, i + 1, Sealed(0, GroupId(i), DELETED_AT, true, Empty), Some(j + 1))
    else
      var i := j - 2 * n;
      Envelope(0, HostId(i), HostsAt(n), false, 0, Sealed(0, HostId(i), HostsAt(n), false, HostIn(i)), Some(j + 1))
  }

  /** The groups, their deletes, and the hosts. */
  function History(n: u32, m: nat): Log {
    seq(m, j requires 0 <= j < m => EntryAt(n, j))
  }

  lemma HistoryGrows(n: u32, m: nat)
    ensures History(n, m) + [EntryAt(n, m)] == History(n, m + 1) && |History(n, m)| == m
  {
  }

  lemma LastInHistory(n: u32, m: nat, i: nat)
    requires i < n && m <= 3 * n
    ensures Last(History(n, m), GroupId(i)) == if n + i < m then n + i else if i < m then i else -1
    ensures Last(History(n, m), HostId(i)) == if 2 * n + i < m then 2 * n + i else -1
  {
    var log := History(n, m);
    if i < m { assert log[i].id == GroupId(i); }
    if n + i < m { assert log[n + i].id == GroupId(i); }
    if 2 * n + i < m { assert log[2 * n + i].id == HostId(i); }
  }

  lemma CurrentInHistory(n: u32, m: nat, j: nat)
    requires j < m <= 3 * n
    ensures Current(History(n, m), j) <==> j >= n || n + j >= m
  {
    LastInHistory(n, m, if j < n then j else if j < 2 * n then j - n else j - 2 * n);
  }

  // ----- What the devices have -----

  function Made(n: nat, pushed: nat): map<Id, Row> {
    map id: Id | id in IdsBelow(Group, n) ::
      Row(MADE_AT, false, id.uuid >= pushed, if id.uuid < pushed then id.uuid + 1 else 0, GROUP)
  }

  function Unmade(n: nat, pushed: nat): map<Id, Row> {
    map id: Id | id in IdsBelow(Group, n) ::
      Row(DELETED_AT, true, id.uuid >= pushed, (if id.uuid < pushed then n else 0) + id.uuid + 1, GROUP)
  }

  function HostRows(n: u32, m: nat, pushed: nat): map<Id, Row> {
    map id: Id | id in IdsBelow(Host, m) ::
      Row(HostsAt(n), false, id.uuid >= pushed, if id.uuid < pushed then 2 * n + id.uuid + 1 else 0, HostIn(id.uuid))
  }

  function Placeholders(m: nat): map<Id, Row> {
    map id: Id | id in IdsBelow(Group, m) :: STUB
  }

  function Renumbered(n: u32): map<Id, Row> {
    map id: Id | id in IdsBelow(Group, n) :: Row(EditedAt(n), false, true, 0, GROUP)
  }

  function DeviceWith(me: u32, rows: map<Id, Row>, clock: Hlc, cursor: nat): Device {
    Device(me, 0, rows, map[], clock, cursor, map[], None)
  }

  function Newcomer(me: u32): Node {
    Node(DeviceWith(me, map[], Hlc(0, 0, me), 0), Quiet, 0, false)
  }

  function FirstMaking(n: u32, k: nat): Node {
    Node(DeviceWith(1, Made(n, k), MADE_AT, 0), Quiet, 0, false)
  }

  function FirstUnmaking(n: u32, k: nat): Node {
    Node(DeviceWith(1, Unmade(n, k), DELETED_AT, 0), Quiet, 0, false)
  }

  function ThirdPulling(n: u32, k: nat): Node
    requires k <= n
  {
    var done := 0 < k == n;
    Node(DeviceWith(3, Made(k, k), AfterPages(10, k, 3), k), Quiet, if done then n else 0, done)
  }

  function ThirdWriting(n: u32, k: nat): Node {
    Node(DeviceWith(3, Made(n, n) + HostRows(n, n, k), HostsAt(n), n), Quiet, n, 0 == k < n)
  }

  /** After the deletes, and some of the hosts. */
  function SecondPulling(n: u32, j: nat): Node
    requires j <= 2 * n
  {
    var m := if j < n then 0 else j - n;
    var done := 0 < j == 2 * n;
    Node(DeviceWith(2, HostRows(n, m, m) + Placeholders(m), AfterPages(30 + n, j, 2), if j == 0 then 0 else n + j),
         Quiet, if done then 3 * n else 0, done)
  }

  function StuckRows(n: u32): map<Id, Row> {
    HostRows(n, n, n) + Renumbered(n)
  }

  function StuckDevice(n: u32): Device {
    DeviceWith(2, StuckRows(n), EditedAt(n), 3 * n)
  }

  function StuckNode(n: u32): Node {
    Node(StuckDevice(n), Quiet, 3 * n, 0 < n)
  }

  function Three(log: Log, ledger: Ledger, one: Node, two: Node, three: Node): Net {
    Net(0, log, ledger, map[1 := one, 2 := two, 3 := three])
  }

  // ----- The run -----

  lemma Begin()
    ensures Reachable(Three([], map[], Newcomer(1), Newcomer(2), Newcomer(3)))
  {
    var net := Three([], map[], Newcomer(1), Newcomer(2), Newcomer(3));
    assert Fresh(net) && CanRun(net, []) && Reached(net, []) == net;
  }

  function PutGroups(n: u32): map<Id, Change> {
    map id | id in IdsBelow(Group, n) :: Put(GROUP)
  }

  function DropGroups(n: u32): map<Id, Change> {
    map id | id in IdsBelow(Group, n) :: Tombstone
  }

  function PutHosts(n: u32): map<Id, Change> {
    map id: Id | id in IdsBelow(Host, n) :: Put(HostIn(id.uuid))
  }

  lemma MakesGroups(n: u32) returns (ledger: Ledger)
    ensures Reachable(Three([], ledger, FirstMaking(n, 0), Newcomer(2), Newcomer(3)))
    ensures forall s :: s in ledger ==> s.id.kind.Group?
  {
    hide Reachable, EditLedger, Made;
    Begin();
    var net := Three([], map[], Newcomer(1), Newcomer(2), Newcomer(3));
    var d := net.nodes[1].device;
    ledger := EditLedger([], map[], d, PutGroups(n), 1);
    EditedIds([], map[], d, PutGroups(n), 1);
    GroupsAreNew(n);
    EditsOnce(net, 1, PutGroups(n), 1, World([], ledger, FirstMaking(n, 0)));
    assert With(net, 1, World([], ledger, FirstMaking(n, 0))) ==
           Three([], ledger, FirstMaking(n, 0), Newcomer(2), Newcomer(3));
  }

  lemma GroupsAreNew(n: u32)
    ensures Editable(map[], Newcomer(1).device, PutGroups(n), 1)
    ensures Edit(Newcomer(1).device, PutGroups(n), 1) == FirstMaking(n, 0).device
  {
    assert Edit(Newcomer(1).device, PutGroups(n), 1).rows == Made(n, 0);
  }

  lemma {:induction false} PushesGroups(n: u32, k: nat) returns (ledger: Ledger)
    requires k <= n
    ensures Reachable(Three(History(n, k), ledger, FirstMaking(n, k), Newcomer(2), Newcomer(3)))
    ensures forall s :: s in ledger ==> s.id.kind.Group?
    decreases k
  {
    hide Reachable, History, CanPush, AfterOnePush, FirstMaking;
    if k == 0 {
      ledger := MakesGroups(n);
      NoHistory(n);
    } else {
      ledger := PushesGroups(n, k - 1);
      var net := Three(History(n, k - 1), ledger, FirstMaking(n, k - 1), Newcomer(2), Newcomer(3));
      GroupIsPushed(n, k - 1, ledger);
      PushesOne(net, 1, GroupId(k - 1));
      assert With(net, 1, World(History(n, k), ledger, FirstMaking(n, k))) ==
             Three(History(n, k), ledger, FirstMaking(n, k), Newcomer(2), Newcomer(3));
    }
  }

  lemma NoHistory(n: u32)
    ensures History(n, 0) == []
  {
  }

  lemma GroupIsPushed(n: u32, i: nat, ledger: Ledger)
    requires i < n
    ensures CanPush(History(n, i), FirstMaking(n, i), GroupId(i))
    ensures AfterOnePush(World(History(n, i), ledger, FirstMaking(n, i)), GroupId(i)) ==
            World(History(n, i + 1), ledger, FirstMaking(n, i + 1))
  {
    var d, log := FirstMaking(n, i).device, History(n, i);
    LastInHistory(n, i, i);
    HistoryGrows(n, i);
    assert AsServed(d, log, GroupId(i)) == EntryAt(n, i);
    assert Acknowledged(d, log, GroupId(i)) == Made(n, i + 1);
  }

  lemma {:induction false} PullsGroups(n: u32, k: nat) returns (ledger: Ledger)
    requires k <= n
    ensures Reachable(Three(History(n, n), ledger, FirstMaking(n, n), Newcomer(2), ThirdPulling(n, k)))
    ensures forall s :: s in ledger ==> s.id.kind.Group?
    decreases k
  {
    hide Reachable, History, CanPull, AfterOnePull, FirstMaking, ThirdPulling, EntryAt;
    if k == 0 {
      ledger := PushesGroups(n, n);
      NothingPulled(n);
    } else {
      ledger := PullsGroups(n, k - 1);
      var net := Three(History(n, n), ledger, FirstMaking(n, n), Newcomer(2), ThirdPulling(n, k - 1));
      GroupIsPulled(n, k - 1, ledger);
      PullsOne(net, 3, EntryAt(n, k - 1), 10 + k, k < n);
      assert With(net, 3, World(History(n, n), ledger, ThirdPulling(n, k))) ==
             Three(History(n, n), ledger, FirstMaking(n, n), Newcomer(2), ThirdPulling(n, k));
    }
  }

  lemma NothingPulled(n: u32)
    ensures ThirdPulling(n, 0) == Newcomer(3) && SecondPulling(n, 0) == Newcomer(2)
  {
  }

  lemma GroupIsPulled(n: u32, i: nat, ledger: Ledger)
    requires i < n
    ensures CanPull(History(n, n), ThirdPulling(n, i), EntryAt(n, i), 11 + i, i + 1 < n)
    ensures AfterOnePull(World(History(n, n), ledger, ThirdPulling(n, i)), EntryAt(n, i), 11 + i, i + 1 < n) ==
            World(History(n, n), ledger, ThirdPulling(n, i + 1))
  {
    hide ApplyOne, Pull, Current, Made, Merge;
    CurrentInHistory(n, n, i);
    PageOfOne(History(n, n), i, i);
    TakesGroup(n, i);
  }

  lemma TakesGroup(n: u32, i: nat)
    requires i < n
    ensures var d, e := ThirdPulling(n, i).device, EntryAt(n, i);
            && ApplyOne(d, e) == Effect(d.(rows := Made(i + 1, i + 1)), Applied, false)
            && Merge(d.clock, e.clock, 11 + i) == AfterPages(10, i + 1, 3)
  {
    var d, e := ThirdPulling(n, i).device, EntryAt(n, i);
    assert AddStubs(d.rows, []) == d.rows;
    assert d.rows[e.id := Incoming(e)] == Made(i + 1, i + 1);
  }

  lemma DeletesGroups(n: u32) returns (ledger: Ledger)
    ensures Reachable(Three(History(n, n), ledger, FirstUnmaking(n, 0), Newcomer(2), ThirdPulling(n, n)))
    ensures forall s :: s in ledger ==> s.id.kind.Group?
  {
    hide Reachable, History, EditLedger, Edit, Editable, ThirdPulling, Made, Unmade;
    var before := PullsGroups(n, n);
    var net := Three(History(n, n), before, FirstMaking(n, n), Newcomer(2), ThirdPulling(n, n));
    var d := net.nodes[1].device;
    ledger := EditLedger(net.log, before, d, DropGroups(n), 2);
    EditedIds(net.log, before, d, DropGroups(n), 2);
    GroupsAreHere(n, before);
    EditsOnce(net, 1, DropGroups(n), 2, World(net.log, ledger, FirstUnmaking(n, 0)));
    assert With(net, 1, World(net.log, ledger, FirstUnmaking(n, 0))) ==
           Three(History(n, n), ledger, FirstUnmaking(n, 0), Newcomer(2), ThirdPulling(n, n));
  }

  lemma GroupsAreHere(n: u32, ledger: Ledger)
    ensures Editable(ledger, FirstMaking(n, n).device, DropGroups(n), 2)
    ensures Edit(FirstMaking(n, n).device, DropGroups(n), 2) == FirstUnmaking(n, 0).device
  {
    assert Edit(FirstMaking(n, n).device, DropGroups(n), 2).rows == Unmade(n, 0);
  }

  lemma {:induction false} PushesDeletes(n: u32, k: nat) returns (ledger: Ledger)
    requires k <= n
    ensures Reachable(Three(History(n, n + k), ledger, FirstUnmaking(n, k), Newcomer(2), ThirdPulling(n, n)))
    ensures forall s :: s in ledger ==> s.id.kind.Group?
    decreases k
  {
    hide Reachable, History, CanPush, AfterOnePush, FirstUnmaking, ThirdPulling;
    if k == 0 {
      ledger := DeletesGroups(n);
    } else {
      ledger := PushesDeletes(n, k - 1);
      var net := Three(History(n, n + k - 1), ledger, FirstUnmaking(n, k - 1), Newcomer(2), ThirdPulling(n, n));
      DeleteIsPushed(n, k - 1, ledger);
      PushesOne(net, 1, GroupId(k - 1));
      assert With(net, 1, World(History(n, n + k), ledger, FirstUnmaking(n, k))) ==
             Three(History(n, n + k), ledger, FirstUnmaking(n, k), Newcomer(2), ThirdPulling(n, n));
    }
  }

  lemma DeleteIsPushed(n: u32, i: nat, ledger: Ledger)
    requires i < n
    ensures CanPush(History(n, n + i), FirstUnmaking(n, i), GroupId(i))
    ensures AfterOnePush(World(History(n, n + i), ledger, FirstUnmaking(n, i)), GroupId(i)) ==
            World(History(n, n + i + 1), ledger, FirstUnmaking(n, i + 1))
  {
    hide History, EntryAt, Unmade, AsServed, Acknowledged, Last;
    LastInHistory(n, n + i, i);
    HistoryGrows(n, n + i);
    DeleteIsServed(n, i, History(n, n + i));
  }

  lemma DeleteIsServed(n: u32, i: nat, log: Log)
    requires i < n && |log| == n + i
    ensures var d := FirstUnmaking(n, i).device;
            && GroupId(i) in d.rows && d.rows[GroupId(i)].dirty && d.rows[GroupId(i)].serverSeq == i + 1
            && AsServed(d, log, GroupId(i)) == EntryAt(n, n + i)
            && Acknowledged(d, log, GroupId(i)) == Unmade(n, i + 1)
  {
  }

  lemma WritesHosts(n: u32) returns (ledger: Ledger)
    ensures Reachable(Three(History(n, 2 * n), ledger, FirstUnmaking(n, n), Newcomer(2), ThirdWriting(n, 0)))
  {
    hide Reachable, History, EditLedger, Edit, Editable, FirstUnmaking, Made, HostRows;
    var before := PushesDeletes(n, n);
    var net := Three(History(n, 2 * n), before, FirstUnmaking(n, n), Newcomer(2), ThirdPulling(n, n));
    var d := net.nodes[3].device;
    ledger := EditLedger(net.log, before, d, PutHosts(n), 20 + n);
    HostsAreNew(n, before);
    EditsOnce(net, 3, PutHosts(n), 20 + n, World(net.log, ledger, ThirdWriting(n, 0)));
    assert With(net, 3, World(net.log, ledger, ThirdWriting(n, 0))) ==
           Three(History(n, 2 * n), ledger, FirstUnmaking(n, n), Newcomer(2), ThirdWriting(n, 0));
  }

  lemma HostsAreNew(n: u32, ledger: Ledger)
    requires forall s :: s in ledger ==> s.id.kind.Group?
    ensures Editable(ledger, ThirdPulling(n, n).device, PutHosts(n), 20 + n)
    ensures Edit(ThirdPulling(n, n).device, PutHosts(n), 20 + n) == ThirdWriting(n, 0).device
  {
    hide HostRows, Made;
    HostsMayBeWritten(n, ledger);
    HostsAsWritten(n);
  }

  lemma HostsMayBeWritten(n: u32, ledger: Ledger)
    requires forall s :: s in ledger ==> s.id.kind.Group?
    ensures Editable(ledger, ThirdPulling(n, n).device, PutHosts(n), 20 + n)
  {
    forall id | id in PutHosts(n)
      ensures id.kind.Host? && WellKinded(id.kind, false, PutHosts(n)[id].payload)
      ensures id !in ThirdPulling(n, n).device.rows
    {
    }
  }

  lemma HostsAsWritten(n: u32)
    ensures var d, clock := ThirdPulling(n, n).device, HostsAt(n);
            && Tick(d.clock, 20 + n) == clock
            && d.rows + (map id | id in PutHosts(n) :: Edited(d.rows, id, PutHosts(n)[id], clock)) ==
               Made(n, n) + HostRows(n, n, 0)
  {
    var d, clock := ThirdPulling(n, n).device, HostsAt(n);
    forall id | id in IdsBelow(Host, n)
      ensures Edited(d.rows, id, PutHosts(n)[id], clock) == HostRows(n, n, 0)[id]
    {
      assert id !in d.rows;
    }
    assert (map id | id in PutHosts(n) :: Edited(d.rows, id, PutHosts(n)[id], clock)) == HostRows(n, n, 0);
  }

  lemma {:induction false} PushesHosts(n: u32, k: nat) returns (ledger: Ledger)
    requires k <= n
    ensures Reachable(Three(History(n, 2 * n + k), ledger, FirstUnmaking(n, n), Newcomer(2), ThirdWriting(n, k)))
    decreases k
  {
    hide Reachable, History, CanPush, AfterOnePush, FirstUnmaking, ThirdWriting;
    if k == 0 {
      ledger := WritesHosts(n);
    } else {
      ledger := PushesHosts(n, k - 1);
      var net := Three(History(n, 2 * n + k - 1), ledger, FirstUnmaking(n, n), Newcomer(2), ThirdWriting(n, k - 1));
      HostIsPushed(n, k - 1, ledger);
      PushesOne(net, 3, HostId(k - 1));
      assert With(net, 3, World(History(n, 2 * n + k), ledger, ThirdWriting(n, k))) ==
             Three(History(n, 2 * n + k), ledger, FirstUnmaking(n, n), Newcomer(2), ThirdWriting(n, k));
    }
  }

  lemma HostIsPushed(n: u32, i: nat, ledger: Ledger)
    requires i < n
    ensures CanPush(History(n, 2 * n + i), ThirdWriting(n, i), HostId(i))
    ensures AfterOnePush(World(History(n, 2 * n + i), ledger, ThirdWriting(n, i)), HostId(i)) ==
            World(History(n, 2 * n + i + 1), ledger, ThirdWriting(n, i + 1))
  {
    hide History, EntryAt, HostRows, Made, AsServed, Last;
    LastInHistory(n, 2 * n + i, i);
    HistoryGrows(n, 2 * n + i);
    HostIsAcknowledged(n, i);
    HostIsServed(n, i, History(n, 2 * n + i));
  }

  lemma HostIsServed(n: u32, i: nat, log: Log)
    requires i < n && |log| == 2 * n + i
    ensures var d := ThirdWriting(n, i).device;
            && HostId(i) in d.rows && d.rows[HostId(i)].dirty
            && AsServed(d, log, HostId(i)) == EntryAt(n, 2 * n + i)
  {
    HostIsAcknowledged(n, i);
  }

  lemma HostIsAcknowledged(n: u32, i: nat)
    requires i < n
    ensures var rows := ThirdWriting(n, i).device.rows;
            && HostId(i) in rows && rows[HostId(i)] == HostRows(n, n, i)[HostId(i)]
            && rows[HostId(i) := rows[HostId(i)].(dirty := false, serverSeq := 2 * n + i + 1)] ==
               ThirdWriting(n, i + 1).device.rows
  {
  }

  lemma {:induction false} PullsDeletesAndHosts(n: u32, j: nat) returns (ledger: Ledger)
    requires j <= 2 * n
    ensures Reachable(Three(History(n, 3 * n), ledger, FirstUnmaking(n, n), SecondPulling(n, j), ThirdWriting(n, n)))
    decreases j
  {
    hide Reachable, History, CanPull, AfterOnePull, FirstUnmaking, ThirdWriting, SecondPulling, EntryAt;
    if j == 0 {
      ledger := PushesHosts(n, n);
      NothingPulled(n);
    } else {
      ledger := PullsDeletesAndHosts(n, j - 1);
      var net := Three(History(n, 3 * n), ledger, FirstUnmaking(n, n), SecondPulling(n, j - 1), ThirdWriting(n, n));
      NextIsPulled(n, j, ledger);
      PullsOne(net, 2, EntryAt(n, n + j - 1), 30 + n + j, j < 2 * n);
      assert With(net, 2, World(History(n, 3 * n), ledger, SecondPulling(n, j))) ==
             Three(History(n, 3 * n), ledger, FirstUnmaking(n, n), SecondPulling(n, j), ThirdWriting(n, n));
    }
  }

  lemma NextIsPulled(n: u32, j: nat, ledger: Ledger)
    requires 0 < j <= 2 * n
    ensures var e := EntryAt(n, n + j - 1);
            && CanPull(History(n, 3 * n), SecondPulling(n, j - 1), e, 30 + n + j, j < 2 * n)
            && AfterOnePull(World(History(n, 3 * n), ledger, SecondPulling(n, j - 1)), e, 30 + n + j, j < 2 * n) ==
               World(History(n, 3 * n), ledger, SecondPulling(n, j))
  {
    hide ApplyOne, Pull, HostRows, Placeholders, Merge;
    NextForSecond(n, j);
    if j <= n { TakesDelete(n, j); } else { TakesHost(n, j - n); }
  }

  lemma NextForSecond(n: u32, j: nat)
    requires 0 < j <= 2 * n
    ensures Pull(History(n, 3 * n), SecondPulling(n, j - 1).device.cursor, 1) ==
            Page([EntryAt(n, n + j - 1)], n + j, j < 2 * n)
  {
    hide Current, Pull;
    var since, i := SecondPulling(n, j - 1).device.cursor, n + j - 1;
    CurrentInHistory(n, 3 * n, i);
    forall k | since <= k < i
      ensures !Current(History(n, 3 * n), k)
    {
      CurrentInHistory(n, 3 * n, k);
    }
    PageOfOne(History(n, 3 * n), since, i);
  }

  /** A delete of a group it never had is skipped. */
  lemma TakesDelete(n: u32, j: nat)
    requires 0 < j <= n
    ensures var d, e := SecondPulling(n, j - 1).device, EntryAt(n, n + j - 1);
            && ApplyOne(d, e) == Effect(d.(rows := SecondPulling(n, j).device.rows), Skipped, false)
            && Merge(d.clock, e.clock, 30 + n + j) == AfterPages(30 + n, j, 2)
  {
    var rows := HostRows(n, 0, 0) + Placeholders(0);
    assert rows == map[];
  }

  /** A host leaves a placeholder for its group. */
  lemma TakesHost(n: u32, m: nat)
    requires 0 < m <= n
    ensures var d, e := SecondPulling(n, n + m - 1).device, EntryAt(n, 2 * n + m - 1);
            && ApplyOne(d, e) == Effect(d.(rows := SecondPulling(n, n + m).device.rows), Applied, false)
            && Merge(d.clock, e.clock, 30 + n + n + m) == AfterPages(30 + n, n + m, 2)
  {
    hide HostRows, Placeholders, ApplyOne;
    var d, e := SecondPulling(n, n + m - 1).device, EntryAt(n, 2 * n + m - 1);
    HostAndPlaceholder(n, m - 1);
    TakesFields(d, e, GroupId(m - 1));
  }

  lemma TakesFields(d: Device, e: Envelope, ref: Id)
    requires e.vault == d.vault && HasTable(e.id.kind) && Opens(e) && !e.deleted && e.id !in d.rows
    requires e.blob.payload.Fields? && e.blob.payload.refs == [ref] && ref !in d.rows
    ensures ApplyOne(d, e) == Effect(d.(rows := d.rows[ref := STUB][e.id := Incoming(e)]), Applied, false)
  {
    assert [ref][1..] == [];
    assert AddStubs(d.rows[ref := STUB], []) == d.rows[ref := STUB];
  }

  lemma HostAndPlaceholder(n: u32, i: nat)
    requires i < n
    ensures var rows := HostRows(n, i, i) + Placeholders(i);
            && GroupId(i) !in rows && HostId(i) !in rows
            && rows[GroupId(i) := STUB][HostId(i) := Row(HostsAt(n), false, false, 2 * n + i + 1, HostIn(i))] ==
               HostRows(n, i + 1, i + 1) + Placeholders(i + 1)
  {
    hide HostRows, Placeholders;
    var row := Row(HostsAt(n), false, false, 2 * n + i + 1, HostIn(i));
    NextHost(n, i);
    NextPlaceholder(i);
    OneOfEach(HostRows(n, i, i), Placeholders(i), HostId(i), row, GroupId(i), STUB);
  }

  lemma NextHost(n: u32, i: nat)
    ensures forall id :: id in HostRows(n, i, i) ==> id.kind.Host? && id != HostId(i)
    ensures HostRows(n, i + 1, i + 1) ==
            HostRows(n, i, i)[HostId(i) := Row(HostsAt(n), false, false, 2 * n + i + 1, HostIn(i))]
  {
  }

  lemma NextPlaceholder(i: nat)
    ensures forall id :: id in Placeholders(i) ==> id.kind.Group? && id != GroupId(i)
    ensures Placeholders(i + 1) == Placeholders(i)[GroupId(i) := STUB]
  {
  }

  lemma OneOfEach(hosts: map<Id, Row>, groups: map<Id, Row>, host: Id, row: Row, group: Id, other: Row)
    requires host.kind.Host? && group.kind.Group?
    requires forall id :: id in hosts ==> id.kind.Host?
    requires forall id :: id in groups ==> id.kind.Group?
    ensures (hosts + groups)[group := other][host := row] == hosts[host := row] + groups[group := other]
  {
  }

  /** All of it is a run of the network: the state can come about. */
  lemma StuckIsReachable(n: u32) returns (ledger: Ledger)
    ensures Reachable(Three(History(n, 3 * n), ledger, FirstUnmaking(n, n), StuckNode(n), ThirdWriting(n, n)))
  {
    hide Reachable, History, EditLedger, Edit, Editable, FirstUnmaking, ThirdWriting, StuckRows, HostRows,
         Placeholders;
    var before := PullsDeletesAndHosts(n, 2 * n);
    var net := Three(History(n, 3 * n), before, FirstUnmaking(n, n), SecondPulling(n, 2 * n), ThirdWriting(n, n));
    var d := net.nodes[2].device;
    var now := 40 + 3 * n;
    ledger := EditLedger(net.log, before, d, PutGroups(n), now);
    PlaceholdersAreHere(n, before);
    EditsOnce(net, 2, PutGroups(n), now, World(net.log, ledger, StuckNode(n)));
    assert With(net, 2, World(net.log, ledger, StuckNode(n))) ==
           Three(History(n, 3 * n), ledger, FirstUnmaking(n, n), StuckNode(n), ThirdWriting(n, n));
  }

  lemma PlaceholdersAreHere(n: u32, ledger: Ledger)
    ensures Editable(ledger, SecondPulling(n, 2 * n).device, PutGroups(n), 40 + 3 * n)
    ensures Edit(SecondPulling(n, 2 * n).device, PutGroups(n), 40 + 3 * n) == StuckDevice(n)
  {
    hide HostRows, Placeholders, Renumbered, Editable;
    var d := SecondPulling(n, 2 * n).device;
    assert d.rows == HostRows(n, n, n) + Placeholders(n);
    OnlyHosts(n);
    PlaceholdersMayBeWritten(n, ledger, d, HostRows(n, n, n));
    PlaceholdersAsWritten(n, d, HostRows(n, n, n));
  }

  lemma OnlyHosts(n: u32)
    ensures forall id :: id in HostRows(n, n, n) ==> id.kind.Host? && !HostRows(n, n, n)[id].dirty
  {
  }

  lemma PlaceholdersMayBeWritten(n: u32, ledger: Ledger, d: Device, hosts: map<Id, Row>)
    requires d.rows == hosts + Placeholders(n) && d.clock.wall < 40 + 3 * n
    requires forall id :: id in hosts ==> id.kind.Host?
    ensures Editable(ledger, d, PutGroups(n), 40 + 3 * n)
  {
    forall id | id in PutGroups(n)
      ensures id.kind.Group? && PutGroups(n)[id] == Put(GROUP) && id in d.rows && d.rows[id] == STUB
    {
      assert id in Placeholders(n);
    }
  }

  lemma PlaceholdersAsWritten(n: u32, d: Device, hosts: map<Id, Row>)
    requires d.rows == hosts + Placeholders(n) && d.clock.wall < 40 + 3 * n && d.clock.device == 2
    requires forall id :: id in hosts ==> id.kind.Host?
    ensures Edit(d, PutGroups(n), 40 + 3 * n) == d.(clock := EditedAt(n), rows := hosts + Renumbered(n))
  {
    var clock := EditedAt(n);
    var written := map id | id in PutGroups(n) :: Edited(d.rows, id, PutGroups(n)[id], clock);
    forall id | id in PutGroups(n)
      ensures written[id] == Renumbered(n)[id]
    {
      assert id in Placeholders(n) && d.rows[id] == STUB;
    }
    assert written == Renumbered(n);
    WrittenOver(hosts, Placeholders(n), Renumbered(n));
  }

  lemma WrittenOver(hosts: map<Id, Row>, was: map<Id, Row>, now: map<Id, Row>)
    requires was.Keys == now.Keys
    ensures hosts + was + now == hosts + now
  {
  }

  // ----- The pass -----

  lemma HistoryOpens(n: u32)
    ensures AllOpen(History(n, 3 * n))
  {
  }

  lemma StuckIsSurprised(n: u32)
    ensures Surprised(History(n, 3 * n), 3 * n, StuckRows(n)) && |Unsent(StuckRows(n))| == n
  {
    hide History, LastIndex;
    StuckUnsent(n);
    forall id | id in Unsent(StuckRows(n))
      ensures Plain(id) && !StuckRows(n)[id].deleted && PassedOver(History(n, 3 * n), StuckRows(n)[id], id)
    {
      GroupIsPassedOver(n, id);
    }
    PastHistory(n);
  }

  lemma PastHistory(n: u32)
    ensures Past(History(n, 3 * n), 3 * n)
  {
  }

  lemma StuckUnsent(n: u32)
    ensures Unsent(StuckRows(n)) == IdsBelow(Group, n)
  {
    hide HostRows, Renumbered, Unsent;
    OnlyHosts(n);
    UnsentGroups(n, HostRows(n, n, n));
  }

  lemma UnsentGroups(n: u32, hosts: map<Id, Row>)
    requires forall id :: id in hosts ==> id.kind.Host? && !hosts[id].dirty
    ensures Unsent(hosts + Renumbered(n)) == IdsBelow(Group, n)
  {
    forall id
      ensures id in Unsent(hosts + Renumbered(n)) <==> id in IdsBelow(Group, n)
    {
      assert id in Renumbered(n) <==> id in IdsBelow(Group, n);
    }
  }

  lemma GroupIsPassedOver(n: u32, id: Id)
    requires id in IdsBelow(Group, n)
    ensures Plain(id) && id in StuckRows(n) && !StuckRows(n)[id].deleted
    ensures PassedOver(History(n, 3 * n), StuckRows(n)[id], id)
  {
    hide HostRows;
    assert id == GroupId(id.uuid);
    LastInHistory(n, 3 * n, id.uuid);
    assert History(n, 3 * n)[n + id.uuid] == EntryAt(n, n + id.uuid);
  }

  lemma NoHostKeys(n: u32)
    ensures OnePerSlot(StuckRows(n)) && Store.KeysAreKeys(StuckRows(n))
  {
    assert forall id :: id in StuckRows(n) ==> id.kind.Host? || id.kind.Group?;
  }

  lemma RoomEnough(n: u32)
    ensures RoomFor(EditedAt(n), 40 + 3 * n, 5 * Engine.MAX_PAGES + 5 + n)
  {
  }

  /** A pass of the second device, with the honest server and rows small enough. */
  method StuckPass(n: u32) returns (pass: Engine.Pass)
    ensures pass.Valid() && pass.transport.honest
    ensures pass.transport.log == History(n, 3 * n) && pass.store.Model() == StuckDevice(n)
    ensures pass.SmallRows(StuckRows(n)) && pass.latest == 40 + 3 * n
    ensures forall k :: pass.transport.fits(k) == MAX_BATCH
    ensures fresh(pass) && fresh(pass.store) && fresh(pass.transport)
    ensures Reachable(Three(History(n, 3 * n), pass.ledger, FirstUnmaking(n, n), StuckNode(n), ThirdWriting(n, n)))
  {
    hide WorldInv, AllOpen, Reachable, History, FirstUnmaking, ThirdWriting, StuckRows, OnePerSlot,
         Store.KeysAreKeys;
    ghost var ledger := StuckIsReachable(n);
    var store := new Store.Store(2, 0, _ => 100);
    store.rows, store.clock, store.cursor := StuckRows(n), EditedAt(n), 3 * n;
    var transport := new Engine.Transport(true, _ => MAX_BATCH, _ => None, _ => None, _ => false, History(n, 3 * n));
    HistoryOpens(n);
    NoHostKeys(n);
    StuckIsSound(n, ledger);
    pass := new Engine.Pass(store, transport, 40 + 3 * n, ledger, 3 * n, 0 < n);
  }

  lemma StuckIsSound(n: u32, ledger: Ledger)
    requires Reachable(Three(History(n, 3 * n), ledger, FirstUnmaking(n, n), StuckNode(n), ThirdWriting(n, n)))
    ensures WorldInv(World(History(n, 3 * n), ledger, StuckNode(n)))
  {
    hide Reachable, History, StuckNode, LogInv, LedgerInv, NodeInv;
    var net := Three(History(n, 3 * n), ledger, FirstUnmaking(n, n), StuckNode(n), ThirdWriting(n, n));
    ReachableIsInv(net);
    assert 2 in net.nodes && net.nodes[2] == StuckNode(n);
    StuckVault(n);
  }

  lemma StuckVault(n: u32)
    ensures StuckNode(n).device.vault == 0
  {
  }

  /** The pass from there. Up to one request of edits it takes two rounds, with more it
      takes three, and with more than two requests it fails, with nothing wrong at
      either end. */
  method PassFromStuck(n: u32) returns (failure: Option<Engine.Failure>, rounds: nat)
    ensures n == 0 ==> failure.None? && rounds == 1
    ensures 0 < n <= MAX_BATCH ==> failure.None? && rounds == 2
    ensures MAX_BATCH < n <= 2 * MAX_BATCH ==> failure.None? && rounds == 3
    ensures n > 2 * MAX_BATCH ==> failure == Some(Engine.ConflictLoop)
  {
    hide WorldInv, AllOpen, Surprised, Unsent, RoomFor, Reachable, StuckRows, History, Engine.Pass.SmallRows,
         Engine.Pass.Valid;
    var pass := StuckPass(n);
    StuckIsSurprised(n);
    RoomEnough(n);
    assert pass.Worst(pass.State());
    failure := pass.SyncOnce(1);
    rounds := pass.rounds;
  }
}
