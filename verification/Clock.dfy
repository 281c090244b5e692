/** The hybrid logical clock that stamps every record.

    `Tick` and `Merge` follow the source branch by branch, 64- and 32-bit
    limits included. `Ticks` reads a clock as one integer, and the lemmas say
    what the two operations do to that integer. */
module Clock {
  import opened Basics

  const U32: nat := 0x1_0000_0000
  const U64_MAX: nat := 0xFFFF_FFFF_FFFF_FFFF
  const MAX_DRIFT_MS: nat := 24 * 60 * 60 * 1000

  datatype Hlc = Hlc(wall: u64, counter: u32, device: u32)

  /** The moment right after `(wall, counter)`: a counter at its end moves on to
      the next millisecond, and a wall at its end stays there. */
  function Successor(wall: u64, counter: u32): (u64, u32) {
    if counter + 1 < U32 then (wall, counter + 1)
    else (Min(wall + 1, U64_MAX), 0)
  }

  function Tick(c: Hlc, now: u64): Hlc {
    if now > c.wall then Hlc(now, 0, c.device)
    else
      var (wall, counter) := Successor(c.wall, c.counter);
      Hlc(wall, counter, c.device)
  }

  function Merge(c: Hlc, remote: Hlc, now: u64): Hlc {
    var remoteWall: u64 := Min(remote.wall, Min(now + MAX_DRIFT_MS, U64_MAX));
    var maxWall: u64 := Max(Max(now, c.wall), remoteWall);
    var (wall, counter) :=
      if maxWall == c.wall && maxWall == remoteWall then Successor(maxWall, Max(c.counter, remote.counter))
      else if maxWall == c.wall then Successor(maxWall, c.counter)
      else if maxWall == remoteWall then Successor(maxWall, remote.counter)
      else (maxWall, 0);
    Hlc(wall, counter, c.device)
  }

  /** The source's order: wall, then counter, then device. */
  predicate Less(a: Hlc, b: Hlc) {
    a.wall < b.wall
    || (a.wall == b.wall && a.counter < b.counter)
    || (a.wall == b.wall && a.counter == b.counter && a.device < b.device)
  }

  /** A clock without its device, as one integer. */
  function Ticks(c: Hlc): nat {
    c.wall * U32 + c.counter
  }

  /** A remote clock as `Merge` counts it: its wall at most a day ahead. */
  function Clamped(remote: Hlc, now: u64): nat {
    Min(remote.wall, now + MAX_DRIFT_MS) * U32 + remote.counter
  }

  /** The last value a clock can hold; only there does `Successor` stand still. */
  predicate AtTop(c: Hlc) {
    c.wall == U64_MAX && c.counter == U32 - 1
  }

  lemma LessIsTicks(a: Hlc, b: Hlc)
    ensures Less(a, b) <==> Ticks(a) < Ticks(b) || (Ticks(a) == Ticks(b) && a.device < b.device)
    ensures Ticks(a) == Ticks(b) && a.device == b.device ==> a == b
  {
    assert a.wall < b.wall ==> Ticks(a) < Ticks(b);
    assert b.wall < a.wall ==> Ticks(b) < Ticks(a);
  }

  /** A tick is one past the old value or the current time, whichever is later,
      so it is always later than the clock it came from. At the very end of the
      range, and only there, it is not. */
  lemma TickIsMax(c: Hlc, now: u64)
    ensures Tick(c, now).device == c.device
    ensures !AtTop(c) ==> Ticks(Tick(c, now)) == Max(Ticks(c) + 1, now * U32)
    ensures Ticks(Tick(c, now)) > Ticks(c) <==> !AtTop(c)
    ensures Less(c, Tick(c, now)) <==> !AtTop(c)
  {
    if now > c.wall {
      assert now * U32 >= (c.wall + 1) * U32;
    } else {
      assert now * U32 <= c.wall * U32;
    }
  }

  lemma MergeIsMax(c: Hlc, remote: Hlc, now: u64)
    requires Max(Ticks(c), Clamped(remote, now)) < U64_MAX * U32 + (U32 - 1)
    ensures Merge(c, remote, now).device == c.device
    ensures Ticks(Merge(c, remote, now)) == Max(Max(Ticks(c) + 1, Clamped(remote, now) + 1), now * U32)
  {
    var remoteWall := Min(remote.wall, now + MAX_DRIFT_MS);
    assert remoteWall == Min(remote.wall, Min(now + MAX_DRIFT_MS, U64_MAX));
    var maxWall := Max(Max(now, c.wall), remoteWall);
    if maxWall != c.wall { assert (c.wall + 1) * U32 <= maxWall * U32; }
    if maxWall != remoteWall { assert (remoteWall + 1) * U32 <= maxWall * U32; }
    if maxWall != now { assert (now + 1) * U32 <= maxWall * U32; }
  }

  /** When hearing a record takes the clock past it: exactly if the record was at
      most a day ahead, or this clock had reached it already. When the next edit is
      past it is another matter; see `NextEditIsNewerExactlyWhen`. */
  lemma MergePassesExactlyWithinDrift(c: Hlc, remote: Hlc, now: u64)
    requires Max(Ticks(c), Ticks(remote)) < U64_MAX * U32 + (U32 - 1)
    ensures Ticks(Merge(c, remote, now)) > Ticks(remote)
       <==> remote.wall <= now + 24 * 60 * 60 * 1000 || Ticks(c) >= Ticks(remote)
  {
    if remote.wall > now + MAX_DRIFT_MS {
      assert (now + MAX_DRIFT_MS + 1) * U32 <= remote.wall * U32;
      assert Clamped(remote, now) + 1 <= Ticks(remote);
    } else {
      assert Clamped(remote, now) == Ticks(remote);
    }
    MergeIsMax(c, remote, now);
  }

  /** When the next local edit, whenever it is made, is newer than a record that
      was heard. Within the drift it always is. Past it, the clock has to be close
      behind the record already, or the time to have caught up with it. */
  lemma NextEditIsNewerExactlyWhen(c: Hlc, remote: Hlc, now: u64, later: u64)
    requires Max(Ticks(c), Ticks(remote)) + 1 < U64_MAX * U32 + (U32 - 1)
    ensures Less(remote, Tick(Merge(c, remote, now), later))
       <==> || remote.wall <= now + MAX_DRIFT_MS
            || Ticks(c) + 2 > Ticks(remote)
            || later * U32 > Ticks(remote)
            || (Max(Ticks(c) + 2, later * U32) == Ticks(remote) && remote.device < c.device)
  {
    var heard := Merge(c, remote, now);
    HeardMoves(c, remote, now);
    TickIsMax(heard, later);
    LessIsTicks(remote, Tick(heard, later));
  }

  /** How far hearing a record moves the clock, seen from the record. */
  lemma HeardMoves(c: Hlc, remote: Hlc, now: u64)
    requires Max(Ticks(c), Ticks(remote)) + 1 < U64_MAX * U32 + (U32 - 1)
    ensures var heard := Merge(c, remote, now);
            && heard.device == c.device && !AtTop(heard)
            && (remote.wall <= now + MAX_DRIFT_MS ==> Ticks(heard) > Ticks(remote))
            && Ticks(heard) > Ticks(c)
            && (remote.wall > now + MAX_DRIFT_MS && Ticks(heard) != Ticks(c) + 1 ==>
                  Ticks(heard) + 1 < Ticks(remote))
  {
    MergePassesExactlyWithinDrift(c, remote, now);
    if remote.wall > now + MAX_DRIFT_MS {
      assert (now + MAX_DRIFT_MS + 1) * U32 <= remote.wall * U32;
      assert Clamped(remote, now) + U32 <= Ticks(remote);
      assert now * U32 + U32 <= (now + MAX_DRIFT_MS) * U32;
    } else {
      assert Clamped(remote, now) == Ticks(remote);
    }
    MergeIsMax(c, remote, now);
  }

  /** What goes wrong past the drift: a record from two days ahead is taken in,
      and the next local edit of it is stamped before it. */
  lemma DriftExample()
    ensures var remote := Hlc(2 * MAX_DRIFT_MS, 0, 7);
            var heard := Merge(Hlc(0, 0, 1), remote, 0);
            Less(Tick(heard, 0), remote)
  {
  }

  datatype Event = Ticked(now: u64) | Heard(remote: Hlc, now: u64)

  function After(c: Hlc, event: Event): Hlc {
    match event
    case Ticked(now) => Tick(c, now)
    case Heard(remote, now) => Merge(c, remote, now)
  }

  function Run(c: Hlc, events: seq<Event>): Hlc
    decreases |events|
  {
    if events == [] then c else Run(After(c, events[0]), events[1..])
  }

  function Latest(events: seq<Event>): nat {
    if events == [] then 0 else Max(events[0].now, Latest(events[1..]))
  }

  /** Over any run the clock only moves forward, and no device can drag it more
      than a day past the latest wall time seen, however many records it sends
      and whatever their clocks say. */
  lemma {:induction false} RunIsBounded(c: Hlc, events: seq<Event>, bound: nat)
    requires Ticks(c) <= bound
    requires (Latest(events) + MAX_DRIFT_MS + 1) * U32 <= bound
    requires bound + |events| < U64_MAX * U32 + (U32 - 1)
    ensures Ticks(c) + |events| <= Ticks(Run(c, events)) <= bound + |events|
    ensures Run(c, events).device == c.device
    decreases |events|
  {
    if events != [] {
      var event := events[0];
      assert (event.now + MAX_DRIFT_MS + 1) * U32 <= (Latest(events) + MAX_DRIFT_MS + 1) * U32;
      assert (Latest(events[1..]) + MAX_DRIFT_MS + 1) * U32 <= (Latest(events) + MAX_DRIFT_MS + 1) * U32;
      match event {
        case Ticked(now) => TickIsMax(c, now);
        case Heard(remote, now) =>
          assert Clamped(remote, now) + 1 <= bound by {
            assert Min(remote.wall, now + MAX_DRIFT_MS) * U32 <= (now + MAX_DRIFT_MS) * U32;
          }
          MergeIsMax(c, remote, now);
      }
      RunIsBounded(After(c, event), events[1..], bound + 1);
    }
  }
}
