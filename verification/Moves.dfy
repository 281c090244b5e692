/** Drag and drop: a host or a group is put before another one or last, and the
    list it lands in is renumbered. */
module Moves {
  import opened Basics

  /** A live host or group: the list it is in (a workspace and group, or just a
      workspace), its place there, its name, and how often it was written. */
  datatype Placed = Placed(list: nat, position: int, name: nat, rev: nat)

  type Rows = map<nat, Placed>

  /** Lists are read by position, then by name. */
  predicate ComesBefore(a: Placed, b: Placed) {
    a.position < b.position || (a.position == b.position && a.name <= b.name)
  }

  predicate Distinct(ids: seq<nat>) {
    forall i, j :: 0 <= i < j < |ids| ==> ids[i] != ids[j]
  }

  /** What reading a list gives: everybody in it, by position and then by name. */
  ghost predicate Reads(rows: Rows, list: nat, except: Option<nat>, order: seq<nat>) {
    && Distinct(order)
    && (forall id :: id in order <==> id in rows && rows[id].list == list && except != Some(id))
    && (forall i, j :: 0 <= i < j < |order| ==>
          var a, b := rows[order[i]], rows[order[j]];
          a.position < b.position || (a.position == b.position && a.name <= b.name))
  }

  function Place(order: seq<nat>, before: Option<nat>): (at: nat)
    ensures at <= |order|
    ensures at < |order| ==> before == Some(order[at])
    ensures before.Some? && before.value in order ==> at < |order|
  {
    if order == [] || before == Some(order[0]) then 0 else 1 + Place(order[1..], before)
  }

  function Inserted(order: seq<nat>, at: nat, id: nat): (r: seq<nat>)
    requires at <= |order|
    ensures |r| == |order| + 1
  {
    order[..at] + [id] + order[at..]
  }

  lemma InsertedHas(order: seq<nat>, at: nat, id: nat)
    requires at <= |order| && Distinct(order) && id !in order
    ensures Distinct(Inserted(order, at, id))
    ensures forall other :: other in Inserted(order, at, id) <==> other in order || other == id
  {
    var r := Inserted(order, at, id);
    assert r[at] == id;
    forall k | 0 <= k < |r|
      ensures r[k] == if k < at then order[k] else if k == at then id else order[k - 1]
    {
    }
    forall other | other in order
      ensures other in r
    {
      var k :| 0 <= k < |order| && order[k] == other;
      assert r[if k < at then k else k + 1] == other;
    }
  }

  /** The list is `order`, numbered from 0. */
  predicate InPlaces(rows: Rows, list: nat, order: seq<nat>) {
    forall k :: 0 <= k < |order| ==>
      order[k] in rows && rows[order[k]].list == list && rows[order[k]].position == k
  }

  /** A row that was not moved was not written. */
  predicate OnlyMovedAreWritten(before: Rows, after: Rows) {
    && after.Keys == before.Keys
    && forall id :: id in before ==>
         if after[id].list == before[id].list && after[id].position == before[id].position then
           after[id] == before[id]
         else
           after[id] ==
           before[id].(list := after[id].list, position := after[id].position, rev := before[id].rev + 1)
  }

  /** Once numbered, there is one way to read a list. */
  lemma {:induction false} PlacesReadBack(rows: Rows, list: nat, order: seq<nat>, read: seq<nat>)
    requires InPlaces(rows, list, order) && Distinct(order)
    requires Reads(rows, list, None, read)
    requires forall id :: id in rows && rows[id].list == list ==> id in order
    ensures read == order
  {
    forall k | 0 <= k < |read|
      ensures k < |order| && read[k] == order[k]
    {
      ReadsInOrder(rows, list, order, read, k);
    }
    assert |read| > 0 ==> |read| - 1 < |order| && read[|read| - 1] == order[|read| - 1];
    if order != [] {
      var last := |order| - 1;
      assert order[last] in read;
      var k :| 0 <= k < |read| && read[k] == order[last];
      assert k == last;
    }
  }

  lemma {:induction false} ReadsInOrder(rows: Rows, list: nat, order: seq<nat>, read: seq<nat>, k: nat)
    requires InPlaces(rows, list, order) && Distinct(order)
    requires Reads(rows, list, None, read) && k < |read|
    requires forall id :: id in rows && rows[id].list == list ==> id in order
    ensures k < |order| && read[k] == order[k]
    decreases k
  {
    assert read[k] in read;
    var at :| 0 <= at < |order| && order[at] == read[k];
    if at < k {
      ReadsInOrder(rows, list, order, read, at);
    } else if at > k {
      assert order[k] in rows && rows[order[k]].list == list;
      assert order[k] in read;
      var i :| 0 <= i < |read| && read[i] == order[k];
      if i < k {
        ReadsInOrder(rows, list, order, read, i);
      }
    }
  }

  class Lists {
    var rows: Rows

    constructor (rows: Rows)
      ensures this.rows == rows
    {
      this.rows := rows;
    }

    method Query(list: nat, except: Option<nat>) returns (order: seq<nat>)
      ensures Reads(rows, list, except, order)
    {
      order := [];
      var left := set id | id in rows && rows[id].list == list && except != Some(id);
      while left != {}
        invariant forall id :: id in left ==> id in rows && rows[id].list == list && except != Some(id)
        invariant forall id :: id in order ==> id in rows && rows[id].list == list && except != Some(id)
        invariant forall id :: id in rows && rows[id].list == list && except != Some(id) ==> id in left || id in order
        invariant forall id :: id in order ==> id !in left
        invariant Distinct(order)
        invariant forall i, j :: 0 <= i < j < |order| ==> ComesBefore(rows[order[i]], rows[order[j]])
        invariant forall a, b :: a in order && b in left ==> ComesBefore(rows[a], rows[b])
        decreases |left|
      {
        var first := First(left);
        order := order + [first];
        left := left - {first};
      }
    }

    method First(ids: set<nat>) returns (first: nat)
      requires ids != {} && forall id :: id in ids ==> id in rows
      ensures first in ids && forall id :: id in ids ==> ComesBefore(rows[first], rows[id])
    {
      first :| first in ids;
      var left := ids - {first};
      while left != {}
        invariant first in ids && left <= ids
        invariant forall id :: id in ids && id !in left ==> ComesBefore(rows[first], rows[id])
        decreases |left|
      {
        var id :| id in left;
        if !ComesBefore(rows[first], rows[id]) {
          first := id;
        }
        left := left - {id};
      }
    }

    /** Write the places that are not as they were recorded. */
    method Renumber(order: seq<nat>, recorded: seq<int>, list: nat)
      requires |recorded| == |order| && Distinct(order)
      requires forall k :: 0 <= k < |order| ==>
                 && order[k] in rows
                 && (recorded[k] == k <==> rows[order[k]].list == list && rows[order[k]].position == k)
      modifies this
      ensures InPlaces(rows, list, order)
      ensures OnlyMovedAreWritten(old(rows), rows)
      ensures forall id :: id in rows && id !in order ==> rows[id] == old(rows)[id]
    {
      for k := 0 to |order|
        invariant rows.Keys == old(rows).Keys
        invariant forall j :: 0 <= j < k ==> rows[order[j]].list == list && rows[order[j]].position == j
        invariant forall j :: k <= j < |order| ==> rows[order[j]] == old(rows)[order[j]]
        invariant OnlyMovedAreWritten(old(rows), rows)
        invariant forall id :: id in rows && id !in order ==> rows[id] == old(rows)[id]
      {
        if recorded[k] != k {
          var row := rows[order[k]];
          rows := rows[order[k] := row.(list := list, position := k, rev := row.rev + 1)];
        }
      }
    }

    /** Move a host into a list, before another host there or last. The list is then
        what it was without the host, in the same order, with the host at `at`: before
        its anchor, or last if that is not there. Its places are 0, 1, 2 and so on; what
        had its place already is not written, and neither is any other list. */
    method MoveHost(id: nat, to: nat, before: Option<nat>) returns (ghost was: seq<nat>, ghost at: nat)
      requires id in rows
      modifies this
      ensures Reads(old(rows), to, Some(id), was)
      ensures at <= |was| && if at < |was| then before == Some(was[at]) else forall other :: other in was ==>
                                                                             before != Some(other)
      ensures var order := was[..at] + [id] + was[at..];
              && Distinct(order) && InPlaces(rows, to, order)
              && (forall read :: Reads(rows, to, None, read) ==> read == order)
              && (forall other :: other in rows && rows[other].list == to ==> other in order)
              && (forall other :: other in rows && other !in order ==>
                    other in old(rows) && rows[other] == old(rows)[other])
      ensures OnlyMovedAreWritten(old(rows), rows)
    {
      var others := Query(to, Some(id));
      was := others;
      var place := FindPlace(others, before);
      at := place;
      var changed := rows[id].list != to || rows[id].position != place;
      var order := Inserted(others, place, id);
      InsertedHas(others, place, id);
      var recorded := seq(|order|, k requires 0 <= k < |order| && order[k] in rows reads this =>
                                     if k == place && changed then -1 else rows[order[k]].position);
      Renumber(order, recorded, to);
      forall read | Reads(rows, to, None, read)
        ensures read == order
      {
        PlacesReadBack(rows, to, order, read);
      }
    }

    method FindPlace(order: seq<nat>, before: Option<nat>) returns (at: nat)
      ensures at == Place(order, before)
    {
      at := 0;
      while at < |order| && before != Some(order[at])
        invariant at <= |order| && Place(order, before) == at + Place(order[at..], before)
        decreases |order| - at
      {
        assert order[at..][1..] == order[at + 1..];
        at := at + 1;
      }
    }

    /** Move a group within its workspace, before another one or last. */
    method MoveGroup(id: nat, before: Option<nat>) returns (ghost was: seq<nat>)
      requires id in rows
      modifies this
      ensures Reads(old(rows), old(rows)[id].list, None, was) && id in was
      ensures exists from, at :: 0 <= from < |was| && was[from] == id && Landed(old(rows), rows, was, from, at, before)
      ensures OnlyMovedAreWritten(old(rows), rows)
    {
      var list := rows[id].list;
      var all := Query(list, None);
      was := all;
      var from := FindPlace(all, Some(id));
      assert all[from] == id;
      var others := all[..from] + all[from + 1..];
      RemovedHas(all, from);
      var at := FindPlace(others, before);
      var order := Inserted(others, at, id);
      InsertedHas(others, at, id);
      var recorded := seq(|order|, k requires 0 <= k < |order| && order[k] in rows reads this =>
                                     rows[order[k]].position);
      Renumber(order, recorded, list);
      forall read | Reads(rows, list, None, read)
        ensures read == order
      {
        PlacesReadBack(rows, list, order, read);
      }
      assert Landed(old(rows), rows, was, from, at, before);
    }
  }

  /** The list without the moved one, which then stands at `at`: before its anchor, or
      last if that is not there. */
  ghost predicate Landed(before: Rows, after: Rows, was: seq<nat>, from: nat, at: nat, anchor: Option<nat>)
    requires from < |was|
  {
    var id := was[from];
    var others := was[..from] + was[from + 1..];
    && id in before && at <= |others|
    && (if at < |others| then anchor == Some(others[at]) else forall other :: other in others ==> anchor != Some(other))
    && var order := others[..at] + [id] + others[at..];
       var list := before[id].list;
       && InPlaces(after, list, order)
       && (forall other :: other in after && other !in order ==> other in before && after[other] == before[other])
       && forall read :: Reads(after, list, None, read) ==> read == order
  }

  lemma RemovedHas(all: seq<nat>, from: nat)
    requires from < |all| && Distinct(all)
    ensures var others := all[..from] + all[from + 1..];
            && Distinct(others) && all[from] !in others
            && forall id :: id in others <==> id in all && id != all[from]
  {
    var others := all[..from] + all[from + 1..];
    forall k | 0 <= k < |others|
      ensures others[k] == all[if k < from then k else k + 1]
    {
    }
    forall id | id in all && id != all[from]
      ensures id in others
    {
      var k :| 0 <= k < |all| && all[k] == id;
      assert others[if k < from then k else k - 1] == id;
    }
  }
}
