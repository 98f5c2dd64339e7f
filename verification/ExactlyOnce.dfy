/** The guarantees of two joined clients, over every run: QoS 2 messages are handed over exactly once
    and in order, stores can always bring a session back, and no exchange ever gets stuck. */
module ExactlyOnce {
  import opened Wrappers
  import opened Types
  import opened MessageLists
  import opened Keys
  import opened Session
  import opened SessionSync
  import opened Restore
  import opened CrashRestore
  import opened Exchange
  import opened Protocol
  import opened ProtocolRuns

  /** Whatever happened -- cuts, crashes of either side, retries, ids used again -- the QoS 2 messages
      handed over under an id are those published under it, in that order and each once, except that
      the one in flight may still be missing; once it is no longer in flight, none is. */
  lemma {:induction false} HandedOverExactlyOnce(v5: bool, moves: seq<Move>, id: nat)
    ensures var s := Run(Start(v5), moves);
            var published, delivered := Under(s.fromLeft.published, id), Under(s.fromLeft.delivered, id);
            match Find(s.left.outbound, id)
            case None => delivered == published
            case Some(m) => if m.qos == 2 then delivered == published || published == delivered + [m.content]
                            else delivered == published
  {
    StartInv(v5);
    RunKeepsInv(Start(v5), moves);
    var s := Run(Start(v5), moves);
    InStepMeans(s.left.v5, ViewOf(s, id));
  }

  /** The same the other way round. */
  lemma {:induction false} HandedOverBack(v5: bool, moves: seq<Move>, id: nat)
    ensures var s := Run(Start(v5), moves);
            var published, delivered := Under(s.fromRight.published, id), Under(s.fromRight.delivered, id);
            match Find(s.right.outbound, id)
            case None => delivered == published
            case Some(m) => if m.qos == 2 then delivered == published || published == delivered + [m.content]
                            else delivered == published
  {
    StartInv(v5);
    RunKeepsInv(Start(v5), moves);
    var s := Run(Start(v5), moves);
    FlipInv(s);
    InStepMeans(s.left.v5, ViewOf(Flip(s), id));
  }

  lemma {:induction false} UnderCounts(ds: seq<Delivery>, d: Delivery)
    requires d.qos == 2
    ensures multiset(ds)[d] == multiset(Under(ds, d.msgid))[d.content]
    decreases |ds|
  {
    if ds != [] {
      var last, earlier := ds[|ds| - 1], ds[..|ds| - 1];
      assert ds == earlier + [last];
      UnderCounts(earlier, d);
    }
  }

  /** Over all ids at once: no QoS 2 message is handed over more often than it was published, and
      with nothing of its id in flight it is handed over exactly as often. */
  lemma {:induction false} NeverTwice(v5: bool, moves: seq<Move>, d: Delivery)
    requires d.qos == 2
    ensures var s := Run(Start(v5), moves);
            var published, delivered := multiset(s.fromLeft.published)[d], multiset(s.fromLeft.delivered)[d];
            delivered <= published <= delivered + 1 &&
            (Find(s.left.outbound, d.msgid) == None ==> delivered == published)
  {
    HandedOverExactlyOnce(v5, moves, d.msgid);
    var s := Run(Start(v5), moves);
    UnderCounts(s.fromLeft.published, d);
    UnderCounts(s.fromLeft.delivered, d);
  }

  /** At every moment of every run a crash is harmless: the restore succeeds whatever the order of
      the keys, and finds every message of the session. */
  lemma {:induction false} CrashIsHarmless(v5: bool, moves: seq<Move>, keys: seq<RecordKey>, id: nat)
    requires Enumerates(keys, Run(Start(v5), moves).left.store)
    ensures var c := Run(Start(v5), moves).left;
            && Synced(c)
            && Restored(c.v5, c.store, keys).Some?
            && var c' := Restored(c.v5, c.store, keys).value;
               && Synced(c')
               && Find(c'.outbound, id) == Recovered(c, id)
               && (Find(c.outbound, id).Some? && Find(c.outbound, id).value.qos == 2 ==> Find(c'.outbound, id) == Find(c.outbound, id))
               && (Find(c'.inbound, id).Some? <==> Find(c.inbound, id).Some?)
               && (!c.v5 ==> Find(c'.inbound, id) == Find(c.inbound, id))
  {
    StartInv(v5);
    RunKeepsInv(Start(v5), moves);
    var c := Run(Start(v5), moves).left;
    RestoreBringsBack(c, keys, id);
    RestoredIsSynced(c, keys);
    if Find(c.outbound, id).Some? {
      RereadIsSame(c, id);
    }
  }

  /** A PUBREC always finds its message in flight, so the one step that can put the store out of step
      never happens between two clients of this code. */
  lemma {:induction false} NoStrayPubrec(v5: bool, moves: seq<Move>)
    ensures var s := Run(Start(v5), moves);
            s.toLeft != [] && s.toLeft[0].Pubrec? ==> Find(s.left.outbound, s.toLeft[0].msgid).Some?
  {
    StartInv(v5);
    RunKeepsInv(Start(v5), moves);
    var s := Run(Start(v5), moves);
    if s.toLeft != [] && s.toLeft[0].Pubrec? {
      PubrecsAreExpected(s);
    }
  }

  // ----- Reconnecting -----

  function ResendAll(k: nat, n: nat): (moves: seq<Move>)
    requires k <= n
    ensures |moves| == n - k
  {
    seq(n - k, i requires 0 <= i < n - k => Move(true, Resend(k + i)))
  }

  lemma {:induction false} RunSplit(s: System, first: Move, rest: seq<Move>)
    ensures Run(s, [first] + rest) == Run(Next(s, first), rest)
    decreases |rest|
  {
    var moves := [first] + rest;
    if rest == [] {
      assert moves[..0] == [];
    } else {
      assert moves[..|moves| - 1] == [first] + rest[..|rest| - 1];
      RunSplit(s, first, rest[..|rest| - 1]);
    }
  }

  lemma AfterTwice(s: System, e: Effect, f: Effect)
    requires e.delivered == [] && f.delivered == []
    ensures After(After(s, e), f) == After(s, Effect(f.client, e.sent + f.sent, []))
  {
    assert (s.toRight + e.sent) + f.sent == s.toRight + (e.sent + f.sent);
    assert s.fromRight.delivered + [] == s.fromRight.delivered;
  }

  lemma ResendAllSplit(k: nat, n: nat)
    requires k < n
    ensures ResendAll(k, n) == [Move(true, Resend(k))] + ResendAll(k + 1, n)
  {
  }

  lemma {:induction false} FirstResend(s: System, k: nat, n: nat)
    requires n == |s.left.outbound| && k < n && Storable(s.left.v5, s.left.outbound[k])
    ensures Run(s, ResendAll(k, n)) == Run(After(s, Retry(s.left, k)), ResendAll(k + 1, n))
  {
    ResendAllSplit(k, n);
    RunSplit(s, Move(true, Resend(k)), ResendAll(k + 1, n));
  }

  lemma {:induction false} AfterFirst(s: System, k: nat)
    requires k < |s.left.outbound| && AllStorable(s.left.v5, s.left.outbound)
    ensures var e := Retry(s.left, k); After(s, RetryFrom(s.left, k)) == After(After(s, e), RetryFrom(e.client, k + 1))
  {
    var e := Retry(s.left, k);
    RetryFromFirst(s.left, k);
    RetryFromSendsEach(e.client, k + 1);
    AfterTwice(s, e, RetryFrom(e.client, k + 1));
  }

  /** The state after one message has been sent again, and what it is good for. */
  lemma OneResent(s: System, k: nat) returns (s1: System)
    requires AllStorable(s.left.v5, s.left.outbound) && k < |s.left.outbound|
    ensures AllStorable(s1.left.v5, s1.left.outbound) && |s1.left.outbound| == |s.left.outbound|
    ensures Run(s1, ResendAll(k + 1, |s.left.outbound|)) == After(s1, RetryFrom(s1.left, k + 1)) ==>
              Run(s, ResendAll(k, |s.left.outbound|)) == After(s, RetryFrom(s.left, k))
  {
    s1 := After(s, Retry(s.left, k));
    StillStorable(s.left, s1.left);
    FirstResend(s, k, |s.left.outbound|);
    AfterFirst(s, k);
  }

  /** The retry after a reconnect, taken as one call, is a run of single retries. */
  lemma {:induction false} ReconnectIsARun(s: System, k: nat)
    requires AllStorable(s.left.v5, s.left.outbound) && k <= |s.left.outbound|
    ensures Run(s, ResendAll(k, |s.left.outbound|)) == After(s, RetryFrom(s.left, k))
    decreases |s.left.outbound| - k
  {
    if k == |s.left.outbound| {
      NothingToResend(s, k);
    } else {
      var s1 := OneResent(s, k);
      ReconnectIsARun(s1, k + 1);
    }
  }

  lemma {:induction false} NothingToResend(s: System, k: nat)
    requires AllStorable(s.left.v5, s.left.outbound) && k == |s.left.outbound|
    ensures Run(s, ResendAll(k, k)) == After(s, RetryFrom(s.left, k))
  {
    assert After(s, Effect(s.left, [], [])) == s;
  }

  // ----- Completing -----

  /** When the message is handed over: in version 5 before its sender has the PUBREC, in earlier
      versions after it. */
  lemma {:induction false} MomentOfHandover(v5: bool, moves: seq<Move>, id: nat)
    requires InFlight2(ViewOf(Run(Start(v5), moves), id))
    ensures var s := Run(Start(v5), moves);
            var v := ViewOf(s, id);
            && (s.left.v5 && v.sent.value.next == AwaitPubcomp ==> v.delivered == v.published)
            && (!s.left.v5 && v.sent.value.next == AwaitPubrec ==> v.published == v.delivered + [v.sent.value.content])
  {
    StartInv(v5);
    RunKeepsInv(Start(v5), moves);
    var s := Run(Start(v5), moves);
    assert InStep(s.left.v5, ViewOf(s, id));
  }

  /** A cut, one retry, and twice a request and its answer. */
  function Completion(k: nat): seq<Move> {
    [Move(true, Cut), Move(true, Resend(k))] + ROUND_TRIP + ROUND_TRIP
  }

  const ROUND_TRIP := [Move(false, Receive), Move(true, Receive)]

  /** The right side takes the only packet under way, a request, and answers it. */
  lemma RightAnswers(s: System, p: WirePacket)
    requires Inv(s) && s.toRight == [p] && s.toLeft == [] && IsRequest(p)
    ensures var s' := Next(s, Move(false, Receive));
            Inv(s') && s'.left == s.left && s'.toRight == [] && s'.toLeft == [AnswerTo(p)]
  {
    StepKeepsInv(s, Move(false, Receive));
    FlipInv(s);
    RequestEffect(s.right, p);
  }

  lemma LeftTakes(s: System, p: WirePacket)
    requires Inv(s) && s.toLeft == [p] && s.toRight == [] && !IsRequest(p)
    ensures var s' := Next(s, Move(true, Receive));
            && Inv(s') && s'.toLeft == [] && s'.toRight == (if p.Pubrec? then [Pubrel(p.msgid)] else [])
            && s'.left == Handle(s.left, p).client
  {
    StepKeepsInv(s, Move(true, Receive));
    AnswerEffect(s.left, p);
  }

  /** Request, answer: what becomes of the sender's message. */
  lemma Exchanged(s: System, p: WirePacket, id: nat)
    requires Inv(s) && s.toRight == [p] && s.toLeft == [] && IsRequest(p) && p.msgid == id
    requires Find(s.left.outbound, id).Some?
    requires var m := Find(s.left.outbound, id).value; p == RetryPacket(m) || (p == Pubrel(id) && m.next == AwaitPubcomp && m.qos == 2)
    ensures var s' := Next(Next(s, Move(false, Receive)), Move(true, Receive));
            var m, m' := Find(s.left.outbound, id).value, Find(s'.left.outbound, id);
            && Inv(s') && s'.toLeft == []
            && if m.qos == 2 && m.next == AwaitPubrec
               then m' == Some(m.(next := AwaitPubcomp)) && s'.toRight == [Pubrel(id)]
               else m' == None && s'.toRight == []
  {
    var s1 := Next(s, Move(false, Receive));
    RightAnswers(s, p);
    LeftTakes(s1, AnswerTo(p));
    AnswerFinds(s1.left, AnswerTo(p), id);
    var k := IndexOf(s.left.outbound, id);
    assert Storable(s.left.v5, s.left.outbound[k]) && s.left.outbound[k].next != AwaitPubrel;
  }

  lemma {:induction false} RunAppend(s: System, a: seq<Move>, b: seq<Move>)
    ensures Run(s, a + b) == Run(Run(s, a), b)
    decreases |b|
  {
    if b == [] {
      assert a + b == a;
    } else {
      assert (a + b)[..|a + b| - 1] == a + b[..|b| - 1];
      RunAppend(s, a, b[..|b| - 1]);
    }
  }

  lemma {:induction false} RunPair(s: System, a: Move, b: Move)
    ensures Run(s, [a, b]) == Next(Next(s, a), b)
  {
    assert [a, b][..1] == [a] && [a][..0] == [];
    assert Run(s, [a]) == Next(Run(s, []), a);
  }

  lemma {:induction false} CutAndResend(s: System, k: nat)
    requires Inv(s) && k < |s.left.outbound|
    ensures var s' := Run(s, [Move(true, Cut), Move(true, Resend(k))]);
            && Inv(s') && s'.toLeft == [] && s'.toRight == [RetryPacket(s.left.outbound[k])]
            && s'.left.outbound == s.left.outbound
  {
    RunPair(s, Move(true, Cut), Move(true, Resend(k)));
    StepKeepsInv(s, Move(true, Cut));
    StepKeepsInv(Next(s, Move(true, Cut)), Move(true, Resend(k)));
  }

  lemma {:induction false} RoundTripIs(s: System)
    ensures Run(s, ROUND_TRIP) == Next(Next(s, Move(false, Receive)), Move(true, Receive))
  {
    RunPair(s, ROUND_TRIP[0], ROUND_TRIP[1]);
  }

  /** With nothing under way a round trip changes nothing. */
  lemma {:induction false} NothingExchanged(s: System)
    requires Inv(s) && s.toRight == [] && s.toLeft == []
    ensures Run(s, ROUND_TRIP) == s
  {
    RoundTripIs(s);
    FlipInv(s);
  }

  /** The first round trip gets the PUBREC of a QoS 2 message, the second its PUBCOMP. */
  lemma {:induction false} TwoRoundTrips(s: System, p: WirePacket, id: nat)
    requires Inv(s) && s.toRight == [p] && s.toLeft == [] && Find(s.left.outbound, id).Some?
    requires p == RetryPacket(Find(s.left.outbound, id).value)
    ensures var s' := Run(Run(s, ROUND_TRIP), ROUND_TRIP); Inv(s') && Find(s'.left.outbound, id) == None
  {
    RoundTripIs(s);
    Exchanged(s, p, id);
    var s2 := Run(s, ROUND_TRIP);
    if s2.toRight == [] {
      NothingExchanged(s2);
    } else {
      RoundTripIs(s2);
      Exchanged(s2, Pubrel(id), id);
    }
  }

  lemma {:induction false} Completes(s: System, id: nat)
    requires Inv(s) && Find(s.left.outbound, id).Some?
    ensures var s' := Run(s, Completion(IndexOf(s.left.outbound, id)));
            Inv(s') && Find(s'.left.outbound, id) == None
  {
    var k := IndexOf(s.left.outbound, id);
    var start := [Move(true, Cut), Move(true, Resend(k))];
    CutAndResend(s, k);
    TwoRoundTrips(Run(s, start), RetryPacket(s.left.outbound[k]), id);
    RunAppend(s, start, ROUND_TRIP);
    RunAppend(s, start + ROUND_TRIP, ROUND_TRIP);
  }

  /** No exchange can get stuck: from every reachable state, whatever message is chosen, a cut, its
      retry and at most two round trips complete it, and what was published is then handed over. */
  lemma {:induction false} CanComplete(v5: bool, moves: seq<Move>, id: nat)
    requires Find(Run(Start(v5), moves).left.outbound, id).Some?
    ensures var s := Run(Start(v5), moves);
            var s' := Run(s, Completion(IndexOf(s.left.outbound, id)));
            && Find(s'.left.outbound, id) == None
            && Under(s'.fromLeft.delivered, id) == Under(s'.fromLeft.published, id)
  {
    StartInv(v5);
    RunKeepsInv(Start(v5), moves);
    var s := Run(Start(v5), moves);
    Completes(s, id);
    var s' := Run(s, Completion(IndexOf(s.left.outbound, id)));
    InStepMeans(s'.left.v5, ViewOf(s', id));
  }
}
