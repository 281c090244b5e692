/** The honest server, by the contract its clients rely on: one version per
    record, a push taken exactly if it was based on the version held, pages in
    sequence order. Its history is an append-only log; the record with sequence
    number `i + 1` is `log[i]`, and the version it holds of a record is the last
    one in the log. */
module Server {
  import opened Basics
  import opened Clock
  import opened Records

  type Log = seq<Envelope>

  /** Where the version of `id` stands that the server held after `n` writes. */
  function LastIndex(log: Log, n: nat, id: Id): (r: int)
    requires n <= |log|
    ensures -1 <= r < n
    ensures r >= 0 ==> log[r].id == id
    ensures forall j :: r < j < n ==> log[j].id != id
  {
    if n == 0 then -1
    else if log[n - 1].id == id then n - 1
    else LastIndex(log, n - 1, id)
  }

  function Last(log: Log, id: Id): int {
    LastIndex(log, |log|, id)
  }

  predicate Current(log: Log, i: nat)
    requires i < |log|
  {
    Last(log, log[i].id) == i
  }

  datatype Accepted = Accepted(id: Id, seqNo: nat)

  datatype Reply = Reply(log: Log, accepted: seq<Accepted>, conflicts: seq<Envelope>)

  function ServeOne(r: Reply, e: Envelope): Reply {
    var held := Last(r.log, e.id);
    if held >= 0 && held + 1 != e.baseSeq then r.(conflicts := r.conflicts + [r.log[held]])
    else
      var seqNo := |r.log| + 1;
      Reply(r.log + [e.(seqNo := Some(seqNo))], r.accepted + [Accepted(e.id, seqNo)], r.conflicts)
  }

  function ServeAll(r: Reply, es: seq<Envelope>): Reply
    decreases |es|
  {
    if es == [] then r
    else ServeOne(ServeAll(r, es[..|es| - 1]), es[|es| - 1])
  }

  function Serve(log: Log, es: seq<Envelope>): Reply {
    ServeAll(Reply(log, [], []), es)
  }

  /** Everything newer than a cursor, in sequence order. */
  function Waiting(log: Log, i: nat): (r: seq<Envelope>)
    decreases |log| - i
  {
    if i >= |log| then []
    else if Current(log, i) then [log[i]] + Waiting(log, i + 1)
    else Waiting(log, i + 1)
  }

  datatype Page = Page(envelopes: seq<Envelope>, cursor: nat, hasMore: bool)

  const MAX_BATCH: nat := 500

  /** `fits` is what the byte budget lets through; a page holds one record
      whatever its size. */
  function Pull(log: Log, since: nat, fits: nat): Page {
    var all := Waiting(log, since);
    var count := Min(Max(Min(fits, MAX_BATCH), 1), |all|);
    Page(all[..count],
         if count == 0 then since else SeqOf(all[count - 1]),
         |all| > count)
  }

  /** Sequence numbers in the log are their places. */
  predicate Numbered(log: Log) {
    forall i :: 0 <= i < |log| ==> log[i].seqNo == Some(i + 1)
  }

  lemma {:induction false} LastIndexIgnoresLater(log: Log, later: Log, n: nat, id: Id)
    requires log <= later && n <= |log|
    ensures LastIndex(later, n, id) == LastIndex(log, n, id)
  {
    if n > 0 {
      assert later[n - 1] == log[n - 1];
      LastIndexIgnoresLater(log, later, n - 1, id);
    }
  }

  lemma LastAfter(log: Log, e: Envelope, id: Id)
    ensures Last(log + [e], id) == if e.id == id then |log| else Last(log, id)
  {
    assert (log + [e])[|log|] == e;
    LastIndexIgnoresLater(log, log + [e], |log|, id);
  }

  /** The version the server holds of a record. */
  predicate Held(log: Log, e: Envelope) {
    && 0 < SeqOf(e) <= |log|
    && log[SeqOf(e) - 1] == e
    && Current(log, SeqOf(e) - 1)
  }

  /** The records waiting after a cursor are exactly the versions held with a
      larger sequence number. */
  lemma {:induction false} WaitingIsComplete(log: Log, i: nat)
    requires Numbered(log)
    ensures forall e :: e in Waiting(log, i) <==> Held(log, e) && SeqOf(e) > i
    decreases |log| - i
  {
    if i < |log| {
      WaitingIsComplete(log, i + 1);
      forall e
        ensures e in Waiting(log, i) <==> Held(log, e) && SeqOf(e) > i
      {
        if SeqOf(e) == i + 1 {
          assert e in Waiting(log, i) ==> Current(log, i) && e == log[i];
        } else {
          assert e in Waiting(log, i) <==> e in Waiting(log, i + 1);
        }
      }
    }
  }

  lemma {:induction false} WaitingAscends(log: Log, i: nat, k: nat, l: nat)
    requires Numbered(log)
    requires k < l < |Waiting(log, i)|
    ensures SeqOf(Waiting(log, i)[k]) < SeqOf(Waiting(log, i)[l])
    decreases |log| - i
  {
    var all := Waiting(log, i);
    if Current(log, i) {
      var rest := Waiting(log, i + 1);
      if k == 0 {
        WaitingIsComplete(log, i + 1);
        assert rest[l - 1] in rest;
      } else {
        WaitingAscends(log, i + 1, k - 1, l - 1);
      }
    } else {
      WaitingAscends(log, i + 1, k, l);
    }
  }

  /** A page leaves nothing out: whatever the server holds up to the page's
      cursor is on it, and with nothing more to come that is everything. */
  lemma PageIsComplete(log: Log, since: nat, fits: nat)
    requires Numbered(log) && since <= |log|
    ensures var page := Pull(log, since, fits);
            && since <= page.cursor <= |log|
            && (page.envelopes == [] <==> page.cursor == since)
            && (forall e :: e in page.envelopes <==> Held(log, e) && since < SeqOf(e) <= page.cursor)
            && (!page.hasMore ==> forall e :: Held(log, e) ==> SeqOf(e) <= page.cursor)
            && (page.envelopes == [] ==> !page.hasMore)
  {
    WaitingIsComplete(log, since);
    var all := Waiting(log, since);
    var page := Pull(log, since, fits);
    var count := |page.envelopes|;
    if count > 0 { assert all[count - 1] in all; }
    forall e | Held(log, e) && since < SeqOf(e)
      ensures e in page.envelopes <==> SeqOf(e) <= page.cursor
      ensures !page.hasMore ==> SeqOf(e) <= page.cursor
    {
      var k :| 0 <= k < |all| && all[k] == e;
      if k < count {
        assert page.envelopes[k] == e;
        if k < count - 1 { WaitingAscends(log, since, k, count - 1); }
      } else {
        if count > 0 { WaitingAscends(log, since, count - 1, k); }
        if e in page.envelopes {
          var l :| 0 <= l < count && all[l] == e;
          WaitingAscends(log, since, l, k);
        }
      }
    }
    forall e | e in page.envelopes
      ensures Held(log, e) && since < SeqOf(e) <= page.cursor
    {
      assert e in all;
    }
  }

  predicate DistinctIds(es: seq<Envelope>) {
    forall i, j :: 0 <= i < j < |es| ==> es[i].id != es[j].id
  }

  /** An acknowledgement that is true: the record offered under that id is the
      version held, at that number. */
  predicate Genuine(log: Log, es: seq<Envelope>, a: Accepted) {
    && 0 < a.seqNo <= |log|
    && Last(log, a.id) == a.seqNo - 1
    && (exists e :: e in es && e.id == a.id)
    && (forall e :: e in es && e.id == a.id ==> log[a.seqNo - 1] == e.(seqNo := Some(a.seqNo)))
  }

  /** Whether a push of `e` would be taken. */
  predicate UpToBase(log: Log, e: Envelope) {
    Last(log, e.id) == -1 || Last(log, e.id) == e.baseSeq - 1
  }

  ghost predicate Honest(log: Log, es: seq<Envelope>, r: Reply) {
    && log <= r.log && Numbered(r.log)
    && (forall a :: a in r.accepted ==> Genuine(r.log, es, a))
    && (forall c :: c in r.conflicts ==> Held(r.log, c) && SeqOf(c) <= |log| && Offered(es, c.id))
    && (forall id :: !Offered(es, id) ==> Last(r.log, id) == Last(log, id))
    && |r.accepted| + |r.conflicts| == |es|
    && (r.conflicts == [] <==> forall e :: e in es ==> UpToBase(log, e))
  }

  lemma ServeOneHonest(log: Log, es: seq<Envelope>, e: Envelope, r: Reply)
    requires Numbered(log) && Honest(log, es, r) && !Offered(es, e.id)
    ensures Honest(log, es + [e], ServeOne(r, e))
  {
    var s := ServeOne(r, e);
    var all := es + [e];
    assert forall f :: f in all <==> f in es || f == e;
    assert Last(r.log, e.id) == Last(log, e.id);
    forall id
      ensures !Offered(all, id) ==> Last(s.log, id) == Last(log, id)
    {
      assert Offered(es, id) ==> Offered(all, id) by {
        if Offered(es, id) { var f :| f in es && f.id == id; assert f in all; }
      }
      assert e in all;
      if s.log != r.log { LastAfter(r.log, s.log[|r.log|], id); }
    }
    forall a | a in s.accepted
      ensures Genuine(s.log, all, a)
    {
      if s.log != r.log { LastAfter(r.log, s.log[|r.log|], a.id); }
      if a in r.accepted {
        var f :| f in es && f.id == a.id;
        assert f in all && a.id != e.id;
        assert Genuine(r.log, es, a);
      } else {
        assert e in all;
      }
    }
    ServeOneRefuses(log, es, e, r);
  }

  /** What is refused comes with the version held. */
  lemma ServeOneRefuses(log: Log, es: seq<Envelope>, e: Envelope, r: Reply)
    requires Numbered(log) && Honest(log, es, r) && !Offered(es, e.id)
    ensures var s := ServeOne(r, e);
            forall c :: c in s.conflicts ==> Held(s.log, c) && SeqOf(c) <= |log| && Offered(es + [e], c.id)
  {
    hide Genuine, UpToBase;
    var s := ServeOne(r, e);
    var all := es + [e];
    assert forall f :: f in all <==> f in es || f == e;
    assert Last(r.log, e.id) == Last(log, e.id);
    forall c | c in s.conflicts
      ensures Held(s.log, c) && SeqOf(c) <= |log| && Offered(all, c.id)
    {
      if s.log != r.log { LastAfter(r.log, s.log[|r.log|], c.id); }
      if c in r.conflicts {
        var f :| f in es && f.id == c.id;
        assert f in all;
      } else {
        assert e in all;
        LastIndexIgnoresLater(log, r.log, |log|, e.id);
        assert log[Last(log, e.id)] == r.log[Last(log, e.id)];
      }
    }
  }

  /** What a push comes back with. Each record offered is either taken, and is
      then the version held, or answered with the version held, which was not
      the one it was based on; no other record changes. Nothing conflicts exactly
      if everything was based on what the server held. */
  lemma {:induction false} ServeSpec(log: Log, es: seq<Envelope>)
    requires Numbered(log) && DistinctIds(es)
    ensures Honest(log, es, Serve(log, es))
    decreases |es|
  {
    if es != [] {
      var front, e := es[..|es| - 1], es[|es| - 1];
      ServeSpec(log, front);
      assert es == front + [e];
      ServeOneHonest(log, front, e, Serve(log, front));
    }
  }

  /** Each record offered is taken or answered with the one held. */
  predicate Replied(accepted: seq<Accepted>, conflicts: seq<Envelope>, id: Id) {
    (exists a :: a in accepted && a.id == id) || Offered(conflicts, id)
  }

  lemma RepliedStays(r: Reply, s: Reply, id: Id)
    requires r.accepted <= s.accepted && r.conflicts <= s.conflicts
    requires Replied(r.accepted, r.conflicts, id)
    ensures Replied(s.accepted, s.conflicts, id)
  {
    if Offered(r.conflicts, id) {
      var c :| c in r.conflicts && c.id == id;
      assert c in s.conflicts;
    } else {
      var a :| a in r.accepted && a.id == id;
      assert a in s.accepted;
    }
  }

  lemma {:induction false} EverybodyIsAnswered(log: Log, es: seq<Envelope>, e: Envelope)
    requires e in es
    ensures Replied(Serve(log, es).accepted, Serve(log, es).conflicts, e.id)
    decreases |es|
  {
    var front, last := es[..|es| - 1], es[|es| - 1];
    var r, s := Serve(log, front), Serve(log, es);
    if e == last {
      if s.log != r.log {
        assert s.accepted[|r.accepted|].id == e.id;
      } else {
        assert s.conflicts[|r.conflicts|].id == e.id;
      }
    } else {
      EverybodyIsAnswered(log, front, e);
      RepliedStays(r, s, e.id);
    }
  }
}
