/** The open files of a redirected drive and the ids they are handed out under. */
module OpenFiles {
  import opened Basics

  const U32_MAX: nat := 0xFFFF_FFFF
  const MAX_OPEN: nat := 256

  datatype Status = InsufficientResources | InvalidParameter

  /** Ids go round, and zero is none. */
  function Following(id: u32): u32 {
    if id == U32_MAX then 1 else id + 1
  }

  /** The id `k` places after `start`, within one turn. */
  function Around(start: u32, k: nat): (id: u32)
    requires start > 0 && k < U32_MAX
    ensures id > 0
  {
    if start + k <= U32_MAX then start + k else start + k - U32_MAX
  }

  /** The first `k` ids from `start` on. */
  ghost function Turn(start: u32, k: nat): set<u32>
    requires start > 0 && k < U32_MAX
  {
    set i | 0 <= i < k :: Around(start, i)
  }

  /** Within one turn no id comes twice. */
  lemma {:induction false} TurnCounts(start: u32, k: nat)
    requires start > 0 && k < U32_MAX
    ensures |Turn(start, k)| == k
  {
    if k > 0 {
      TurnCounts(start, k - 1);
      assert Turn(start, k) == Turn(start, k - 1) + {Around(start, k - 1)};
      assert Around(start, k - 1) !in Turn(start, k - 1);
    }
  }

  class OpenTable {
    /** By id, which file. */
    var open: map<u32, nat>
    var nextId: u32

    predicate Valid()
      reads this
    {
      |open| <= MAX_OPEN && nextId > 0 && 0 !in open
    }

    constructor ()
      ensures Valid() && open == map[] && nextId == 1
    {
      open, nextId := map[], 1;
    }

    /** The first id from `nextId` on that is not in use. The search ends, since
        each id it passes over belongs to another open file. */
    method NextFreeId() returns (id: u32)
      requires Valid()
      modifies this`nextId
      ensures Valid() && id !in open && id > 0
      ensures exists k :: 0 <= k <= |open| && id == Around(old(nextId), k)
                          && Turn(old(nextId), k) <= open.Keys
      ensures nextId == if id == 0xFFFF_FFFF then 1 else id + 1
    {
      var k := 0;
      while true
        invariant Valid() && k <= |open| && open == old(open) && old(nextId) > 0 && nextId == Around(old(nextId), k)
        invariant Turn(old(nextId), k) <= open.Keys
        decreases |open| - k
      {
        id := nextId;
        nextId := Following(nextId);
        if id !in open {
          return;
        }
        TurnCounts(old(nextId), k + 1);
        SmallerSet(Turn(old(nextId), k + 1), open.Keys);
        k := k + 1;
      }
    }

    /** A file is opened under an id no open file has; no other one changes. */
    method Create(file: nat) returns (r: Result<u32, Status>)
      requires Valid()
      modifies this
      ensures Valid()
      ensures r.Err? <==> |old(open)| == 256
      ensures r.Err? ==> open == old(open) && nextId == old(nextId)
      ensures r.Ok? ==> nextId == if r.value == 0xFFFF_FFFF then 1 else r.value + 1
      ensures r.Ok? ==> r.value > 0 && r.value !in old(open) && open == old(open)[r.value := file]
    {
      if |open| >= MAX_OPEN {
        return Err(InsufficientResources);
      }
      var id := NextFreeId();
      open := open[id := file];
      return Ok(id);
    }

    method Close(id: u32) returns (r: Result<nat, Status>)
      requires Valid()
      modifies this`open
      ensures Valid()
      ensures r == if id in old(open) then Ok(old(open)[id]) else Err(InvalidParameter)
      ensures open == old(open) - {id}
    {
      if id !in open {
        assert open - {id} == open;
        return Err(InvalidParameter);
      }
      r := Ok(open[id]);
      SmallerSet((open - {id}).Keys, open.Keys);
      open := open - {id};
    }
  }
}
