/** How a QoS 2 message is handed over twice across an upgrade of its sender to version 5. */
module UpgradeRuns {
  import opened Wrappers
  import opened Types
  import opened MessageIds
  import opened MessageLists
  import opened Keys
  import opened Packets
  import opened Session
  import opened SessionSync
  import opened Restore
  import opened CrashRestore
  import opened Protocol
  import opened ExactlyOnce
  import opened Upgrade

  // ----- A message handed over twice -----

  lemma {:induction false} AllTheSame(a: seq<int>, id: int)
    requires forall i :: 0 <= i < |a| ==> a[i] == id
    ensures multiset(a)[id] == |a|
  {
    if a != [] {
      assert a == [a[0]] + a[1..];
      AllTheSame(a[1..], id);
    }
  }

  /** With one message in flight the next restart gives a list of two with the same id. */
  lemma OneMessageTwice(c: Client, m: Message, keys: seq<RecordKey>, d: Client, e: Client, keys': seq<RecordKey>)
    requires Synced(c) && !c.v5 && Enumerates(keys, c.store) && Restored(true, c.store, keys) == Some(d)
    requires c.outbound == [m] && d.outbound == [Unstaged(m)] && Storable(true, Unstaged(m))
    requires e == Retry(d, 0).client && Enumerates(keys', e.store)
    ensures Restored(true, e.store, keys').Some?
    ensures Restored(true, e.store, keys').value.outbound == [Unstaged(m), Unstaged(m)]
  {
    UpgradeRestores(c, keys);
    assert AllStorable(true, d.outbound);
    RetryFromFirst(d, 0);
    ReconnectDoubles(c, keys, d, e, keys');
    var again := Restored(true, e.store, keys').value.outbound;
    forall i | 0 <= i < |again| ensures again[i] == Unstaged(m) {
      assert IsFrom(d.outbound, again[i]);
    }
    AllTheSame(IdList(again), m.msgid);
    assert Find(c.outbound, m.msgid) == Some(m);
    assert multiset(IdList(again))[m.msgid] == 2;
  }

  lemma OneMessageRestored(c: Client, m: Message, keys: seq<RecordKey>)
    requires Synced(c) && !c.v5 && Enumerates(keys, c.store) && c.outbound == [m]
    ensures Restored(true, c.store, keys).Some? && Restored(true, c.store, keys).value.outbound == [Unstaged(m)]
  {
    FindIs(c.outbound, 0);
    assert c.outbound[0] == m && IsId(m.msgid);
    UpgradeForgetsStage(c, keys, m.msgid);
    var s := Restored(true, c.store, keys).value.outbound;
    assert Find(c.outbound, m.msgid) == Some(m);
    forall i | 0 <= i < |s| ensures s[i] == Unstaged(m) {
      FindIs(s, i);
      UpgradeForgetsStage(c, keys, s[i].msgid);
    }
    assert |s| == 1 by {
      assert |s| > 0;
      assert |s| > 1 ==> s[0].msgid != s[1].msgid;
    }
  }

  /** What matters of a state on the way. */
  ghost predicate At(s: System, outbound: seq<Message>, inbound: seq<Message>, toRight: seq<WirePacket>, toLeft: seq<WirePacket>, log: Log) {
    && s.left.v5 && s.right.v5 && s.left.outbound == outbound && s.right.inbound == inbound
    && s.toRight == toRight && s.toLeft == toLeft && s.fromLeft == log
  }

  /** The sender's message, and the one the receiver keeps. */
  function Sent(id: nat, content: Content, next: Awaiting): Message {
    Message(id, 2, content, next)
  }

  function Kept(id: nat, content: Content): Message {
    Message(id, 2, content, AwaitPubrel)
  }

  lemma SendsAgain(s: System, k: nat, outbound: seq<Message>, inbound: seq<Message>, toRight: seq<WirePacket>, log: Log)
    requires At(s, outbound, inbound, toRight, [], log) && k < |outbound| && Storable(true, outbound[k])
    ensures At(Next(s, Move(true, Resend(k))), outbound, inbound, toRight + [RetryPacket(outbound[k])], [], log)
  {
  }

  lemma TakesPublish(s: System, id: nat, content: Content, outbound: seq<Message>, inbound: seq<Message>, more: seq<WirePacket>, toLeft: seq<WirePacket>, log: Log)
    requires At(s, outbound, inbound, [Publish(true, 2, id, content)] + more, toLeft, log)
    requires IsId(id) && Encodable(true, 2, id, content) && (inbound == [] || inbound == [Kept(id, content)])
    ensures At(Next(s, Move(false, Receive)), outbound, [Kept(id, content)], more, toLeft + [Pubrec(id, 0)],
               if inbound == [] then log.(delivered := log.delivered + [Delivery(2, id, content)]) else log)
  {
    assert s.toRight[1..] == more;
    assert inbound == [] ==> inbound + [Kept(id, content)] == [Kept(id, content)];
    assert log.delivered + [] == log.delivered;
  }

  lemma TakesPubrec(s: System, id: nat, outbound: seq<Message>, inbound: seq<Message>, toRight: seq<WirePacket>, more: seq<WirePacket>, log: Log)
    requires At(s, outbound, inbound, toRight, [Pubrec(id, 0)] + more, log)
    requires outbound != [] && outbound[0].msgid == id && outbound[0].qos == 2 && outbound[0].next != AwaitPubrel
    ensures At(Next(s, Move(true, Receive)), outbound[0 := outbound[0].(next := AwaitPubcomp)], inbound, toRight + [Pubrel(id)], more, log)
  {
    assert s.toLeft[1..] == more;
    assert outbound[0 := outbound[0]] == outbound;
  }

  lemma TakesPubrel(s: System, id: nat, content: Content, outbound: seq<Message>, inbound: seq<Message>, more: seq<WirePacket>, toLeft: seq<WirePacket>, log: Log)
    requires At(s, outbound, inbound, [Pubrel(id)] + more, toLeft, log) && (inbound == [] || inbound == [Kept(id, content)])
    ensures At(Next(s, Move(false, Receive)), outbound, [], more, toLeft + [Pubcomp(id)], log)
  {
    assert s.toRight[1..] == more;
    assert log.delivered + [] == log.delivered;
    assert inbound != [] ==> MessageLists.Without(inbound, 0) == [];
  }

  lemma TakesPubcomp(s: System, id: nat, outbound: seq<Message>, inbound: seq<Message>, toRight: seq<WirePacket>, more: seq<WirePacket>, log: Log)
    requires At(s, outbound, inbound, toRight, [Pubcomp(id)] + more, log)
    requires outbound != [] && outbound[0].msgid == id && outbound[0].qos == 2
    ensures At(Next(s, Move(true, Receive)), if outbound[0].next == AwaitPubcomp then outbound[1..] else outbound, inbound, toRight, more, log)
  {
    assert s.toLeft[1..] == more;
    assert s.toRight + [] == s.toRight;
    assert MessageLists.Without(outbound, 0) == outbound[1..];
  }

  const L := Move(true, Receive)
  const R := Move(false, Receive)

  lemma {:induction false} BothSent(s: System, id: nat, content: Content, log: Log)
    requires IsId(id) && Encodable(true, 2, id, content)
    requires var m := Sent(id, content, AwaitPubrec); At(s, [m, m], [], [], [], log)
    ensures var m, p := Sent(id, content, AwaitPubrec), Publish(true, 2, id, content);
            At(Run(s, [Move(true, Resend(0)), Move(true, Resend(1))]), [m, m], [], [p, p], [], log)
  {
    var m, p := Sent(id, content, AwaitPubrec), Publish(true, 2, id, content);
    SendsAgain(s, 0, [m, m], [], [], log);
    SendsAgain(Next(s, Move(true, Resend(0))), 1, [m, m], [], [p], log);
    assert [] + [p] == [p] && [p] + [p] == [p, p];
    RunPair(s, Move(true, Resend(0)), Move(true, Resend(1)));
  }

  lemma {:induction false} BothReceived(s: System, id: nat, content: Content, outbound: seq<Message>, log: Log)
    requires IsId(id) && Encodable(true, 2, id, content)
    requires var p := Publish(true, 2, id, content); At(s, outbound, [], [p, p], [], log)
    ensures At(Run(s, [R, R]), outbound, [Kept(id, content)], [], [Pubrec(id, 0), Pubrec(id, 0)],
               log.(delivered := log.delivered + [Delivery(2, id, content)]))
  {
    var p := Publish(true, 2, id, content);
    assert [p, p] == [p] + [p] && [p] == [p] + [];
    assert [] + [Pubrec(id, 0)] == [Pubrec(id, 0)] && [Pubrec(id, 0)] + [Pubrec(id, 0)] == [Pubrec(id, 0), Pubrec(id, 0)];
    TakesPublish(s, id, content, outbound, [], [p], [], log);
    TakesPublish(Next(s, R), id, content, outbound, [Kept(id, content)], [], [Pubrec(id, 0)], log.(delivered := log.delivered + [Delivery(2, id, content)]));
    RunPair(s, R, R);
  }

  lemma {:induction false} BothRecorded(s: System, id: nat, content: Content, log: Log)
    requires var m := Sent(id, content, AwaitPubrec); At(s, [m, m], [Kept(id, content)], [], [Pubrec(id, 0), Pubrec(id, 0)], log)
    ensures At(Run(s, [L, L]), [Sent(id, content, AwaitPubcomp), Sent(id, content, AwaitPubrec)], [Kept(id, content)], [Pubrel(id), Pubrel(id)], [], log)
  {
    var m, m', a := Sent(id, content, AwaitPubrec), Sent(id, content, AwaitPubcomp), Pubrec(id, 0);
    assert [a, a] == [a] + [a] && [a] == [a] + [];
    assert [] + [Pubrel(id)] == [Pubrel(id)] && [Pubrel(id)] + [Pubrel(id)] == [Pubrel(id), Pubrel(id)];
    assert [m, m][0 := m'] == [m', m] && [m', m][0 := m'] == [m', m];
    TakesPubrec(s, id, [m, m], [Kept(id, content)], [], [a], log);
    TakesPubrec(Next(s, L), id, [m', m], [Kept(id, content)], [Pubrel(id)], [], log);
    RunPair(s, L, L);
  }

  lemma {:induction false} BothReleased(s: System, id: nat, content: Content, outbound: seq<Message>, log: Log)
    requires At(s, outbound, [Kept(id, content)], [Pubrel(id), Pubrel(id)], [], log)
    ensures At(Run(s, [R, R]), outbound, [], [], [Pubcomp(id), Pubcomp(id)], log)
  {
    assert [Pubrel(id), Pubrel(id)] == [Pubrel(id)] + [Pubrel(id)] && [Pubrel(id)] == [Pubrel(id)] + [];
    assert [] + [Pubcomp(id)] == [Pubcomp(id)] && [Pubcomp(id)] + [Pubcomp(id)] == [Pubcomp(id), Pubcomp(id)];
    TakesPubrel(s, id, content, outbound, [Kept(id, content)], [Pubrel(id)], [], log);
    TakesPubrel(Next(s, R), id, content, outbound, [], [], [Pubcomp(id)], log);
    RunPair(s, R, R);
  }

  /** Only the first of the two is completed. */
  lemma {:induction false} OneCompleted(s: System, id: nat, content: Content, log: Log)
    requires At(s, [Sent(id, content, AwaitPubcomp), Sent(id, content, AwaitPubrec)], [], [], [Pubcomp(id), Pubcomp(id)], log)
    ensures At(Run(s, [L, L]), [Sent(id, content, AwaitPubrec)], [], [], [], log)
  {
    var m, m', a := Sent(id, content, AwaitPubrec), Sent(id, content, AwaitPubcomp), Pubcomp(id);
    assert [a, a] == [a] + [a] && [a] == [a] + [] && [m', m][1..] == [m];
    TakesPubcomp(s, id, [m', m], [], [], [a], log);
    TakesPubcomp(Next(s, L), id, [m], [], [], [], log);
    RunPair(s, L, L);
  }

  /** The other is published again. */
  lemma {:induction false} SentOnceMore(s: System, id: nat, content: Content, log: Log)
    requires IsId(id) && Encodable(true, 2, id, content) && At(s, [Sent(id, content, AwaitPubrec)], [], [], [], log)
    ensures At(Run(s, [Move(true, Resend(0)), R]), [Sent(id, content, AwaitPubrec)], [Kept(id, content)], [], [Pubrec(id, 0)],
               log.(delivered := log.delivered + [Delivery(2, id, content)]))
  {
    var m, p := Sent(id, content, AwaitPubrec), Publish(true, 2, id, content);
    assert [] + [p] == [p] && [p] == [p] + [] && [] + [Pubrec(id, 0)] == [Pubrec(id, 0)];
    SendsAgain(s, 0, [m], [], [], log);
    TakesPublish(Next(s, Move(true, Resend(0))), id, content, [m], [], [], [], log);
    RunPair(s, Move(true, Resend(0)), R);
  }

  /** Below version 5: a message is published and lost on its way. */
  ghost function Before(id: nat, content: Content): System {
    Run(Start(false), [Move(true, Send(2, id, content)), Move(true, Cut)])
  }

  /** The left side restarts with version 5, and both go on with it. */
  function AfterUpgrade(s: System, keys: seq<RecordKey>): System {
    match Restored(true, s.left.store, keys)
    case None => s
    case Some(c) => System(c, s.right.(v5 := true), [], [], s.fromLeft, s.fromRight)
  }

  lemma BeforeIs(id: nat, content: Content)
    requires IsId(id) && Encodable(false, 2, id, content)
    ensures var s := Before(id, content);
            && Synced(s.left) && !s.left.v5 && s.left.outbound == [Sent(id, content, AwaitPubrec)]
            && s.right.inbound == [] && s.fromLeft == Log([Delivery(2, id, content)], [])
  {
    FreshIsSynced(false);
    var s := Start(false);
    StartPublishKeepsSync(s.left, 2, id, content);
    RunPair(s, Move(true, Send(2, id, content)), Move(true, Cut));
    assert [] + [Sent(id, content, AwaitPubrec)] == [Sent(id, content, AwaitPubrec)];
    assert [] + [Delivery(2, id, content)] == [Delivery(2, id, content)];
  }

  /** A reconnect, cut off by a restart. */
  function Doubling(keys: seq<RecordKey>): seq<Move> {
    [Move(true, Resend(0)), Move(true, Crash(keys))]
  }

  lemma {:induction false} DoublingIs(c: Client, u: System, id: nat, content: Content, keys: seq<RecordKey>, keys': seq<RecordKey>, log: Log)
    requires Synced(c) && !c.v5 && Enumerates(keys, c.store) && Restored(true, c.store, keys) == Some(u.left)
    requires IsId(id) && Encodable(true, 2, id, content) && c.outbound == [Sent(id, content, AwaitPubrec)]
    requires At(u, [Sent(id, content, AwaitPubrec)], [], [], [], log)
    requires Enumerates(keys', Next(u, Move(true, Resend(0))).left.store)
    ensures var m := Sent(id, content, AwaitPubrec); At(Run(u, Doubling(keys')), [m, m], [], [], [], log)
  {
    OneMessageTwice(c, Sent(id, content, AwaitPubrec), keys, u.left, Retry(u.left, 0).client, keys');
    SendsAgain(u, 0, u.left.outbound, [], [], log);
    RunPair(u, Move(true, Resend(0)), Move(true, Crash(keys')));
  }

  /** Both copies are sent, and the packets that answer them are taken in turn; then the copy that is
      left is sent once more. */
  function TwiceRun(): seq<Move> {
    [Move(true, Resend(0)), Move(true, Resend(1))] + [R, R] + [L, L] + [R, R] + [L, L] + [Move(true, Resend(0)), R]
  }

  lemma {:induction false} Split6(s: System, a: seq<Move>, b: seq<Move>, c: seq<Move>, d: seq<Move>, e: seq<Move>, f: seq<Move>)
    ensures Run(s, a + b + c + d + e + f) == Run(Run(Run(Run(Run(Run(s, a), b), c), d), e), f)
  {
    RunAppend(s, a, b);
    RunAppend(s, a + b, c);
    RunAppend(s, a + b + c, d);
    RunAppend(s, a + b + c + d, e);
    RunAppend(s, a + b + c + d + e, f);
  }

  lemma {:induction false} TwiceRunIs(s: System, id: nat, content: Content)
    requires IsId(id) && Encodable(true, 2, id, content)
    requires var m := Sent(id, content, AwaitPubrec); At(s, [m, m], [], [], [], Log([Delivery(2, id, content)], []))
    ensures Run(s, TwiceRun()).fromLeft == Log([Delivery(2, id, content)], [Delivery(2, id, content), Delivery(2, id, content)])
  {
    var d := Delivery(2, id, content);
    var none, once := Log([d], []), Log([d], [d]);
    assert [] + [d] == [d] && [d] + [d] == [d, d];
    var s1 := Run(s, [Move(true, Resend(0)), Move(true, Resend(1))]);
    var s2 := Run(s1, [R, R]);
    var s3 := Run(s2, [L, L]);
    var s4 := Run(s3, [R, R]);
    var s5 := Run(s4, [L, L]);
    BothSent(s, id, content, none);
    BothReceived(s1, id, content, s1.left.outbound, none);
    BothRecorded(s2, id, content, once);
    BothReleased(s3, id, content, s3.left.outbound, once);
    OneCompleted(s4, id, content, once);
    SentOnceMore(s5, id, content, once);
    Split6(s, [Move(true, Resend(0)), Move(true, Resend(1))], [R, R], [L, L], [R, R], [L, L], [Move(true, Resend(0)), R]);
  }

  /** Published once, handed over twice: whatever the id and the content, and whatever order the keys
      come in at the upgrade and at the restart after it. */
  lemma {:induction false} HandedOverTwice(id: nat, content: Content, keys: seq<RecordKey>, u: System, keys': seq<RecordKey>)
    requires IsId(id) && Encodable(false, 2, id, content) && Encodable(true, 2, id, content)
    requires Enumerates(keys, Before(id, content).left.store) && u == AfterUpgrade(Before(id, content), keys)
    requires Enumerates(keys', Next(u, Move(true, Resend(0))).left.store)
    ensures Run(u, Doubling(keys') + TwiceRun()).fromLeft
            == Log([Delivery(2, id, content)], [Delivery(2, id, content), Delivery(2, id, content)])
  {
    BeforeIs(id, content);
    OneMessageRestored(Before(id, content).left, Sent(id, content, AwaitPubrec), keys);
    DoublingIs(Before(id, content).left, u, id, content, keys, keys', u.fromLeft);
    TwiceRunIs(Run(u, Doubling(keys')), id, content);
    RunAppend(u, Doubling(keys'), TwiceRun());
  }
}
