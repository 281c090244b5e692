/** Which of two versions of a record wins. */
module Versions {
  import opened Basics
  import opened Clock

  datatype Resolution = Local | Remote | Identical

  datatype Version = Version(clock: Hlc, deleted: bool)

  function Resolve(local: Version, remote: Version): Resolution {
    if local == remote then Identical
    else if local.deleted && !remote.deleted then Local
    else if !local.deleted && remote.deleted then Remote
    else if Less(remote.clock, local.clock) then Local
    else Remote
  }

  /** The order `Resolve` decides by: a tombstone is later than any live
      version, otherwise the clock says. */
  predicate Below(a: Version, b: Version) {
    (!a.deleted && b.deleted) || (a.deleted == b.deleted && Less(a.clock, b.clock))
  }

  predicate AtMost(a: Version, b: Version) {
    a == b || Below(a, b)
  }

  /** The decision table of `Resolve` is a comparison in one total order. */
  lemma ResolveIsOrder(local: Version, remote: Version)
    ensures Resolve(local, remote) == Identical <==> local == remote
    ensures Resolve(local, remote) == Local <==> Below(remote, local)
    ensures Resolve(local, remote) == Remote <==> Below(local, remote)
  {
  }

  function Winner(local: Version, remote: Version): Version {
    if Resolve(local, remote) == Remote then remote else local
  }

  /** Merging versions is a least upper bound, so devices may hear of them in
      any order, grouped in any way, any number of times. */
  lemma WinnerIsSemilattice(a: Version, b: Version, c: Version)
    ensures Winner(a, a) == a
    ensures Winner(a, b) == Winner(b, a)
    ensures Winner(Winner(a, b), c) == Winner(a, Winner(b, c))
    ensures AtMost(a, Winner(a, b)) && AtMost(b, Winner(a, b))
    ensures AtMost(a, c) && AtMost(b, c) ==> AtMost(Winner(a, b), c)
  {
    ResolveIsOrder(a, b);
    ResolveIsOrder(b, a);
  }
}
