/** Over whole runs of one client, with restarts from its store: when the in-flight list stays in the
    order of sending (section 4.6 of MQTT 3.1.1). */
module SendOrderRuns {
  import opened Wrappers
  import opened Types
  import opened MessageIds
  import opened MessageLists
  import opened Keys
  import opened Packets
  import opened Session
  import opened SessionSync
  import opened MessageOrder
  import opened RestoreOrder
  import opened Restore
  import opened CrashRestore
  import opened IdRounds

  /** A client and the last id it assigned (0 before the first). */
  datatype Sender = Sender(client: Client, last: int)

  datatype Op =
    | Send(qos: int, id: nat, content: Content)
    | GetPuback(id: nat)
    | GetPubrec(id: nat, reason: Byte)
    | GetPubcomp(id: nat)
    | GetPublish(dup: bool, qos: int, id: nat, content: Content)
    | GetPubrel(id: nat)
    | Reconnect
    | Restart(keys: seq<RecordKey>)

  /** One event, and what the client makes of it. */
  ghost predicate Does(x: Sender, op: Op, x': Sender) {
    var c := x.client;
    match op
    case Send(qos, id, content) =>
      && 1 <= qos <= 2 && IsId(id) && Encodable(c.v5, qos, id, content) && IsFirstFree(IdsOf(c.outbound), x.last, id)
      && x' == Sender(StartPublish(c, qos, id, content).client, id)
    case GetPuback(id) => x' == x.(client := HandlePuback(c, id).client)
    case GetPubrec(id, reason) => x' == x.(client := HandlePubrec(c, id, reason).client)
    case GetPubcomp(id) => x' == x.(client := HandlePubcomp(c, id).client)
    case GetPublish(dup, qos, id, content) =>
      && 0 <= qos <= 2 && (qos == 2 ==> IsId(id)) && Encodable(c.v5, qos, id, content)
      && x' == x.(client := HandlePublish(c, dup, qos, id, content).client)
    case GetPubrel(id) => x' == x.(client := HandlePubrel(c, id).client)
    case Reconnect => AllStorable(c.v5, c.outbound) && x' == x.(client := RetryFrom(c, 0).client)
    case Restart(keys) =>
      && Enumerates(keys, c.store) && Restored(c.v5, c.store, keys).Some?
      && x' == Sender(Restored(c.v5, c.store, keys).value, 0)
  }

  /** The ids stand as they stood, but for the one sent, which is appended, or one taken out. */
  ghost predicate Follows(s: seq<Message>, op: Op, t: seq<Message>) {
    if op.Send? then |t| == |s| + 1 && SameIds(s, t[..|s|]) && t[|s|].msgid == op.id
    else SameIds(s, t) || exists k: nat {:trigger MessageLists.Without(s, k)} :: k < |s| && t == MessageLists.Without(s, k)
  }

  ghost predicate SameIds(s: seq<Message>, t: seq<Message>) {
    |t| == |s| && forall i :: 0 <= i < |s| ==> t[i].msgid == s[i].msgid
  }

  /** A PUBREC that arrives has its message in flight, as it always has between clients of this code. */
  ghost predicate Expected(x: Sender, op: Op) {
    op.GetPubrec? ==> Find(x.client.outbound, op.id).Some?
  }

  /** The ids in flight go once round the circle, and the restore finds where they start. */
  ghost predicate ComesBack(s: seq<Message>) {
    s == [] || (SendOrder(s) && ClosingGapWins(s))
  }

  // ----- Every step -----

  lemma SendFollows(x: Sender, op: Op, x': Sender)
    requires Synced(x.client) && op.Send? && Does(x, op, x')
    ensures Synced(x'.client) && Follows(x.client.outbound, op, x'.client.outbound)
  {
    var s, m := x.client.outbound, Message(op.id, op.qos, op.content, AwaitPubrec);
    NotInUse(s, op.id);
    StartPublishKeepsSync(x.client, op.qos, op.id, op.content);
    assert (s + [m])[..|s|] == s;
  }

  /** A PUBACK, PUBREC or PUBCOMP takes one message out, or changes no id. */
  lemma AnswerChanges(c: Client, op: Op, c': Client)
    requires op.GetPuback? || op.GetPubrec? || op.GetPubcomp?
    requires op.GetPuback? ==> c' == HandlePuback(c, op.id).client
    requires op.GetPubrec? ==> c' == HandlePubrec(c, op.id, op.reason).client
    requires op.GetPubcomp? ==> c' == HandlePubcomp(c, op.id).client
    ensures var k := IndexOf(c.outbound, op.id);
            SameIds(c.outbound, c'.outbound) || (k < |c.outbound| && c'.outbound == MessageLists.Without(c.outbound, k))
  {
  }

  lemma AnswerFollows(x: Sender, op: Op, x': Sender)
    requires Synced(x.client) && (op.GetPuback? || op.GetPubrec? || op.GetPubcomp?) && Does(x, op, x') && Expected(x, op)
    ensures Synced(x'.client) && Follows(x.client.outbound, op, x'.client.outbound)
  {
    match op {
      case GetPuback(id) => PubackKeepsSync(x.client, id);
      case GetPubrec(id, reason) => PubrecKeepsSync(x.client, id, reason);
      case GetPubcomp(id) => PubcompKeepsSync(x.client, id);
    }
    AnswerChanges(x.client, op, x'.client);
  }

  /** The restore brings the ids back in the order they stood in if and only if they go once round the
      circle and the gap that closes it is the largest. */
  lemma RestoredIds(c: Client, keys: seq<RecordKey>)
    requires Synced(c) && Enumerates(keys, c.store)
    ensures Restored(c.v5, c.store, keys).Some?
    ensures var t := Restored(c.v5, c.store, keys).value.outbound;
            |t| == |c.outbound| && (SameIds(c.outbound, t) <==> ComesBack(c.outbound))
  {
    AsManyRestored(c, keys);
    if c.outbound != [] {
      RestoreKeepsSendOrder(c, keys);
      SameIdsSameMessages(c, keys);
    }
  }

  lemma AsManyRestored(c: Client, keys: seq<RecordKey>)
    requires Synced(c) && Enumerates(keys, c.store)
    ensures Restored(c.v5, c.store, keys).Some?
    ensures |Restored(c.v5, c.store, keys).value.outbound| == |c.outbound|
  {
    RestoreBringsBack(c, keys, 0);
    var t, r := Restored(c.v5, c.store, keys).value.outbound, RereadAll(c);
    RereadAllFinds(c, 0);
    forall id ensures Find(t, id) == Find(r, id) {
      SameRestored(c, keys, id);
    }
    SameFindSameMessages(t, r);
    assert |multiset(t)| == |multiset(r)|;
  }

  /** The restored list and the list as reread agree on every id. */
  lemma SameRestored(c: Client, keys: seq<RecordKey>, id: int)
    requires Synced(c) && Enumerates(keys, c.store)
    ensures Restored(c.v5, c.store, keys).Some?
    ensures Find(Restored(c.v5, c.store, keys).value.outbound, id) == Find(RereadAll(c), id)
  {
    if id >= 0 {
      RestoreBringsBack(c, keys, id);
      RereadAllFinds(c, id);
    } else {
      RestoreBringsBack(c, keys, 0);
      RereadAllFinds(c, 0);
      NotAnId(Restored(c.v5, c.store, keys).value.outbound, id);
      NotAnId(RereadAll(c), id);
    }
  }

  lemma NotAnId(s: seq<Message>, id: int)
    requires DistinctIds(s) && !IsId(id)
    ensures Find(s, id) == None
  {
  }

  lemma SameIdsSameMessages(c: Client, keys: seq<RecordKey>)
    requires Synced(c) && Enumerates(keys, c.store)
    ensures Restored(c.v5, c.store, keys).Some?
    ensures var t := Restored(c.v5, c.store, keys).value.outbound; SameIds(c.outbound, t) <==> t == RereadAll(c)
  {
    RestoreBringsBack(c, keys, 0);
    var t, r := Restored(c.v5, c.store, keys).value.outbound, RereadAll(c);
    assert forall i :: 0 <= i < |r| ==> r[i].msgid == c.outbound[i].msgid;
    if SameIds(c.outbound, t) {
      forall i | 0 <= i < |t| ensures t[i] == r[i] {
        RereadAllFinds(c, 0);
        FindIs(t, i);
        FindIs(r, i);
        SameRestored(c, keys, t[i].msgid);
      }
    }
  }

  lemma RestartFollows(x: Sender, keys: seq<RecordKey>, x': Sender)
    requires Synced(x.client) && Does(x, Restart(keys), x')
    ensures Synced(x'.client)
    ensures Follows(x.client.outbound, Restart(keys), x'.client.outbound) <==> ComesBack(x.client.outbound)
  {
    RestoredIsSynced(x.client, keys);
    RestoredIds(x.client, keys);
  }

  /** Every step but a restart leaves what is in flight in the order it stood in, so in the order of
      sending; a restart does if and only if the list comes back. */
  lemma StepFollows(x: Sender, op: Op, x': Sender)
    requires Synced(x.client) && Does(x, op, x') && Expected(x, op)
    ensures Synced(x'.client)
    ensures Follows(x.client.outbound, op, x'.client.outbound) <==> op.Restart? ==> ComesBack(x.client.outbound)
  {
    match op {
      case Send(_, _, _) => SendFollows(x, op, x');
      case GetPuback(_) => AnswerFollows(x, op, x');
      case GetPubrec(_, _) => AnswerFollows(x, op, x');
      case GetPubcomp(_) => AnswerFollows(x, op, x');
      case GetPublish(dup, qos, id, content) => PublishKeepsSync(x.client, dup, qos, id, content);
      case GetPubrel(id) => PubrelKeepsSync(x.client, id);
      case Reconnect =>
        RetryFromKeepsSync(x.client, 0);
        RetryFromSendsEach(x.client, 0);
      case Restart(keys) => RestartFollows(x, keys, x');
    }
  }

  // ----- Every run -----

  ghost predicate IsRun(xs: seq<Sender>, ops: seq<Op>) {
    && |xs| == |ops| + 1
    && xs[0] == Sender(Client(xs[0].client.v5, [], [], map[]), 0)
    && forall i {:trigger ops[i]} :: 0 <= i < |ops| ==> Does(xs[i], ops[i], xs[i + 1]) && Expected(xs[i], ops[i])
  }

  lemma OneStep(xs: seq<Sender>, ops: seq<Op>, i: nat)
    requires IsRun(xs, ops) && i < |ops|
    ensures Does(xs[i], ops[i], xs[i + 1]) && Expected(xs[i], ops[i])
  {
  }

  lemma {:induction false} RunIsSynced(xs: seq<Sender>, ops: seq<Op>, n: nat)
    requires IsRun(xs, ops) && n <= |ops|
    ensures Synced(xs[n].client)
  {
    if n == 0 {
      FreshIsSynced(xs[0].client.v5);
    } else {
      RunIsSynced(xs, ops, n - 1);
      OneStep(xs, ops, n - 1);
      StepFollows(xs[n - 1], ops[n - 1], xs[n]);
    }
  }

  /** In every run, with reconnects and restarts, each step leaves the list in the order of sending, except
      a restart from a list that does not come back. */
  lemma OrderIsKept(xs: seq<Sender>, ops: seq<Op>, n: nat)
    requires IsRun(xs, ops) && n < |ops|
    ensures Follows(xs[n].client.outbound, ops[n], xs[n + 1].client.outbound)
            <==> ops[n].Restart? ==> ComesBack(xs[n].client.outbound)
  {
    RunIsSynced(xs, ops, n);
    OneStep(xs, ops, n);
    StepFollows(xs[n], ops[n], xs[n + 1]);
  }

  /** When the message in flight under this id was sent: its last Send among the first n steps. */
  function SentAt(ops: seq<Op>, n: nat, id: int): (i: int)
    requires n <= |ops|
    ensures i < n
  {
    if n == 0 then -1 else if ops[n - 1].Send? && ops[n - 1].id == id then n - 1 else SentAt(ops, n - 1, id)
  }

  ghost predicate InSendingOrder(s: seq<Message>, ops: seq<Op>, n: nat)
    requires n <= |ops|
  {
    forall i, j :: 0 <= i < j < |s| ==> SentAt(ops, n, s[i].msgid) < SentAt(ops, n, s[j].msgid)
  }

  lemma {:induction false} FollowsInOrder(s: seq<Message>, t: seq<Message>, ops: seq<Op>, n: nat)
    requires n < |ops| && DistinctIds(t) && InSendingOrder(s, ops, n) && Follows(s, ops[n], t)
    ensures InSendingOrder(t, ops, n + 1)
  {
    if ops[n].Send? {
      assert forall i :: 0 <= i < |s| ==> t[i].msgid == t[..|s|][i].msgid == s[i].msgid && t[i].msgid != t[|s|].msgid;
    }
  }

  /** So the list stands in the order of sending after every run whose restarts all come back. */
  lemma {:induction false} OrderOfSending(xs: seq<Sender>, ops: seq<Op>, n: nat)
    requires IsRun(xs, ops) && n <= |ops|
    requires forall i {:trigger ops[i]} :: 0 <= i < n && ops[i].Restart? ==> ComesBack(xs[i].client.outbound)
    ensures InSendingOrder(xs[n].client.outbound, ops, n)
  {
    if n > 0 {
      OrderOfSending(xs, ops, n - 1);
      assert ops[n - 1].Restart? ==> ComesBack(xs[n - 1].client.outbound);
      NextInOrder(xs, ops, n - 1, n);
    }
  }

  lemma NextInOrder(xs: seq<Sender>, ops: seq<Op>, n: nat, n': nat)
    requires IsRun(xs, ops) && n < |ops| && n' == n + 1 && InSendingOrder(xs[n].client.outbound, ops, n)
    requires ops[n].Restart? ==> ComesBack(xs[n].client.outbound)
    ensures InSendingOrder(xs[n'].client.outbound, ops, n')
  {
    OrderIsKept(xs, ops, n);
    RunIsSynced(xs, ops, n');
    FollowsInOrder(xs[n].client.outbound, xs[n'].client.outbound, ops, n);
  }

  /** Equal packets are of equal ids. */
  lemma SamePacketsSameIds(v5: bool, s: seq<Message>, t: seq<Message>)
    requires AllStorable(v5, s) && AllStorable(v5, t) && RetryPackets(v5, s, 0) == RetryPackets(v5, t, 0)
    ensures SameIds(s, t)
  {
    forall i | 0 <= i < |s| ensures t[i].msgid == s[i].msgid {
      assert Storable(v5, s[i]) && Storable(v5, t[i]);
      assert RetryPackets(v5, s, 0)[i] == RetryPacket(s[i]) && RetryPackets(v5, t, 0)[i] == RetryPacket(t[i]);
    }
  }

  /** And after a crash anywhere in any run the messages in flight are resent in the order they would have
      been resent in without it if and only if the list comes back. */
  lemma CrashedRunResendsInOrder(xs: seq<Sender>, ops: seq<Op>, n: nat, keys: seq<RecordKey>)
    requires IsRun(xs, ops) && n <= |ops| && Enumerates(keys, xs[n].client.store)
    ensures var c := xs[n].client;
            && Restored(c.v5, c.store, keys).Some?
            && AllStorable(c.v5, Restored(c.v5, c.store, keys).value.outbound)
            && AllStorable(c.v5, c.outbound)
            && (RetryFrom(Restored(c.v5, c.store, keys).value, 0).sent == RetryFrom(c, 0).sent <==> ComesBack(c.outbound))
  {
    RunIsSynced(xs, ops, n);
    var c := xs[n].client;
    RestoredIsSynced(c, keys);
    RestoreBringsBack(c, keys, 0);
    var c' := Restored(c.v5, c.store, keys).value;
    RetryFromSendsEach(c, 0);
    RetryFromSendsEach(c', 0);
    RestoredIds(c, keys);
    if c'.outbound == [] {
    } else if ComesBack(c.outbound) {
      ResendInOrderAfterRestart(c, keys);
    } else if RetryFrom(c', 0).sent == RetryFrom(c, 0).sent {
      SamePacketsSameIds(c.v5, c.outbound, c'.outbound);
    }
  }

  // ----- Whether the list comes back -----

  /** What keeps the ids in round: room to send, or no id free in between; at a restart, ids that come back
      and have not gone round to 1, as the search starts there again. */
  ghost predicate KeepsRound(x: Sender, op: Op) {
    var s := x.client.outbound;
    match op
    case Send(_, _, _) => Room(s, x.last) || Solid(s)
    case Restart(_) => s == [] || (ClosingGapWins(s) && s[0].msgid <= s[|s| - 1].msgid)
    case _ => true
  }

  /** A list with one message taken out, or with the ids it had. */
  lemma AnsweredList(s: seq<Message>, last: int, op: Op, t: seq<Message>)
    requires InRound(s, last) && !op.Send? && Follows(s, op, t)
    ensures InRound(t, last)
  {
    if SameIds(s, t) {
      SameIdsKeepOrder(s, t, last);
    } else {
      var k: nat :| k < |s| && t == MessageLists.Without(s, k);
      CompletionKeepsOrder(s, last, k);
    }
  }

  lemma RestartKeepsRound(x: Sender, keys: seq<RecordKey>, x': Sender)
    requires Synced(x.client) && InRound(x.client.outbound, x.last) && Does(x, Restart(keys), x') && KeepsRound(x, Restart(keys))
    ensures InRound(x'.client.outbound, x'.last)
  {
    RestoredIds(x.client, keys);
    SameIdsKeepOrder(x.client.outbound, x'.client.outbound, 0);
  }

  lemma StepKeepsRound(x: Sender, op: Op, x': Sender)
    requires Synced(x.client) && InRound(x.client.outbound, x.last) && Does(x, op, x') && Expected(x, op) && KeepsRound(x, op)
    ensures InRound(x'.client.outbound, x'.last)
  {
    var s := x.client.outbound;
    StepFollows(x, op, x');
    match op {
      case Send(qos, id, content) => SendKeepsOrder(s, x.last, Message(id, qos, content, AwaitPubrec));
      case Restart(keys) => RestartKeepsRound(x, keys, x');
      case _ => AnsweredList(s, x.last, op, x'.client.outbound);
    }
  }

  /** In a run of such steps the list comes back at every moment at which the gap that closes it is the
      largest. */
  lemma {:induction false} RoundIsKept(xs: seq<Sender>, ops: seq<Op>, n: nat)
    requires IsRun(xs, ops) && n <= |ops|
    requires forall i {:trigger ops[i]} :: 0 <= i < n ==> KeepsRound(xs[i], ops[i])
    ensures InRound(xs[n].client.outbound, xs[n].last)
    ensures xs[n].client.outbound != [] ==> (ComesBack(xs[n].client.outbound) <==> ClosingGapWins(xs[n].client.outbound))
  {
    if n > 0 {
      RoundIsKept(xs, ops, n - 1);
      RunIsSynced(xs, ops, n - 1);
      OneStep(xs, ops, n - 1);
      StepKeepsRound(xs[n - 1], ops[n - 1], xs[n]);
    }
  }

  /** What sending with the next free id does to a later restart: the restored list has the order of
      sending if and only if there was room, or no id free in between, and the closing gap is the largest. */
  lemma SendThenRestart(x: Sender, op: Op, x': Sender, keys: seq<RecordKey>)
    requires Synced(x.client) && InRound(x.client.outbound, x.last) && op.Send? && Does(x, op, x')
    requires Enumerates(keys, x'.client.store)
    ensures var s, c := x.client.outbound, x'.client;
            && Restored(c.v5, c.store, keys).Some?
            && (SameIds(c.outbound, Restored(c.v5, c.store, keys).value.outbound)
                <==> (Room(s, x.last) || Solid(s)) && ClosingGapWins(c.outbound))
  {
    SendFollows(x, op, x');
    RestoredIds(x'.client, keys);
    SendKeepsOrder(x.client.outbound, x.last, Message(op.id, op.qos, op.content, AwaitPubrec));
  }

  /** The same for the first message after a restart whose ids have gone round to 1. */
  lemma TurnedThenRestart(x: Sender, op: Op, x': Sender, keys: seq<RecordKey>)
    requires Synced(x.client) && op.Send? && Does(x, op, x') && Enumerates(keys, x'.client.store)
    requires var s := x.client.outbound; x.last == 0 && SendOrder(s) && s != [] && s[|s| - 1].msgid < s[0].msgid
    ensures var s, c := x.client.outbound, x'.client;
            && Restored(c.v5, c.store, keys).Some?
            && (SameIds(c.outbound, Restored(c.v5, c.store, keys).value.outbound)
                <==> AllInFlight(s, s[|s| - 1].msgid) && s[|s| - 1].msgid + 1 < s[0].msgid && ClosingGapWins(c.outbound))
  {
    SendFollows(x, op, x');
    RestoredIds(x'.client, keys);
    RestartAfterTurn(x.client.outbound, Message(op.id, op.qos, op.content, AwaitPubrec));
  }

  /** Without room: ids 1 and 65535 are in flight, 65535 was the last assigned, so the next is 2, and a
      restart then brings the three back in another order. */
  lemma {:induction false} NoRoomMisordered(a: Message, c: Message, m: Message, t: seq<Message>)
    requires a.msgid == 1 && c.msgid == MAX_MSG_ID && m.msgid == 2 && multiset(t) == multiset([a, c, m])
    ensures InRound([a, c], MAX_MSG_ID) && IsFirstFree(IdsOf([a, c]), MAX_MSG_ID, 2)
    ensures Wrapped(InsertAll(t)) == [c, a, m]
  {
    PairInRound(a, c);
    LargestFirst(t, a, m, c);
  }

  lemma PairInRound(a: Message, c: Message)
    requires a.msgid == 1 && c.msgid == MAX_MSG_ID
    ensures InRound([a, c], MAX_MSG_ID) && IsFirstFree(IdsOf([a, c]), MAX_MSG_ID, 2)
  {
    var s := [a, c];
    assert s[0].msgid in IdsOf(s);
    assert forall id :: id in IdsOf(s) ==> id == 1 || id == MAX_MSG_ID;
    assert IsId(2) && 2 !in IdsOf(s);
  }

  lemma PairComesBack(c: Message, b: Message)
    requires c.msgid == MAX_MSG_ID && b.msgid == 5
    ensures SendOrder([c, b]) && ComesBack([c, b]) && IsFirstFree(IdsOf([c, b]), 0, 1)
  {
    var s := [c, b];
    assert SendGap(s, 0) == MAX_MSG_ID - 5 && SendGap(s, 1) == 5;
    assert forall id :: id in IdsOf(s) ==> id == 5 || id == MAX_MSG_ID;
    assert IsId(1) && 1 !in IdsOf(s);
  }

  /** After a turn: ids 65535 and 5 are in flight at a restart, so the next is 1, and the next restart brings
      the three back in another order. */
  lemma {:induction false} TurnedMisordered(c: Message, b: Message, m: Message, t: seq<Message>)
    requires c.msgid == MAX_MSG_ID && b.msgid == 5 && m.msgid == 1 && multiset(t) == multiset([c, b, m])
    ensures SendOrder([c, b]) && ComesBack([c, b]) && IsFirstFree(IdsOf([c, b]), 0, 1)
    ensures Wrapped(InsertAll(t)) == [c, m, b]
  {
    PairComesBack(c, b);
    LargestFirst(t, m, b, c);
  }
}
