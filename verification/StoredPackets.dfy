/** What the store holds of each message is the packet that was last sent, or that arrived, to the bit. */
module StoredPackets {
  import opened Wrappers
  import opened Types
  import opened MessageIds
  import opened MessageLists
  import opened Keys
  import opened Packets
  import opened Session
  import opened SessionSync
  import opened CrashRestore
  import opened SendOrderRuns
  import opened PeerRuns

  // ----- What was sent -----

  /** The last PUBLISH of this id among some packets. */
  function LastPublish(ps: seq<WirePacket>, id: nat): Option<WirePacket> {
    if ps == [] then None
    else if ps[|ps| - 1].Publish? && ps[|ps| - 1].msgid == id then Some(ps[|ps| - 1])
    else LastPublish(ps[..|ps| - 1], id)
  }

  lemma {:induction false} LastOfMore(ps: seq<WirePacket>, more: seq<WirePacket>, id: nat)
    ensures LastPublish(ps + more, id) == if LastPublish(more, id).Some? then LastPublish(more, id) else LastPublish(ps, id)
    decreases |more|
  {
    if more == [] {
      assert ps + more == ps;
    } else {
      assert (ps + more)[..|ps + more| - 1] == ps + more[..|more| - 1];
      LastOfMore(ps, more[..|more| - 1], id);
    }
  }

  lemma {:induction false} NoPublishOf(ps: seq<WirePacket>, id: nat)
    requires forall i :: 0 <= i < |ps| ==> !(ps[i].Publish? && ps[i].msgid == id)
    ensures LastPublish(ps, id) == None
  {
    if ps != [] {
      NoPublishOf(ps[..|ps| - 1], id);
    }
  }

  lemma {:induction false} OnlyPublishOf(ps: seq<WirePacket>, id: nat, k: nat)
    requires k < |ps| && ps[k].Publish? && ps[k].msgid == id
    requires forall i :: 0 <= i < |ps| && i != k ==> !(ps[i].Publish? && ps[i].msgid == id)
    ensures LastPublish(ps, id) == Some(ps[k])
  {
    if k < |ps| - 1 {
      OnlyPublishOf(ps[..|ps| - 1], id, k);
    }
  }

  /** The record under this id is that PUBLISH, with its DUP flag. */
  ghost predicate HoldsPacket(c: Client, id: nat, p: WirePacket) {
    var key := RecordKey(SentPublish, c.v5, id);
    && p.Publish? && p.msgid == id && 1 <= p.qos <= 2 && Encodable(c.v5, p.qos, id, p.content)
    && key in c.store && c.store[key] == PublishRecord(c.v5, p.dup, p.qos, id, p.content)
  }

  /** What a step does to the record of an id that is in flight afterwards: it becomes the PUBLISH sent, or
      stays. */
  ghost predicate StoredAsSent(c: Client, sent: seq<WirePacket>, c': Client, id: nat) {
    var last, key := LastPublish(sent, id), RecordKey(SentPublish, c.v5, id);
    c'.v5 == c.v5 && if last.Some? then HoldsPacket(c', id, last.value)
    else Find(c'.outbound, id).Some? ==>
           Find(c.outbound, id).Some? && (key in c.store ==> key in c'.store && c'.store[key] == c.store[key])
  }

  lemma {:induction false} SendStores(c: Client, qos: int, sent: nat, content: Content, id: nat)
    requires Valid(c) && 1 <= qos <= 2 && IsId(sent) && Encodable(c.v5, qos, sent, content) && Find(c.outbound, sent) == None
    ensures var e := StartPublish(c, qos, sent, content); StoredAsSent(c, e.sent, e.client, id)
  {
    var p := Publish(false, qos, sent, content);
    assert [p][..0] == [];
    FindAppend(c.outbound, Message(sent, qos, content, AwaitPubrec), id);
  }

  lemma UnchangedStores(c: Client, id: nat)
    ensures StoredAsSent(c, [], c, id)
  {
  }

  /** A message that is completed. */
  lemma CompletionStores(c: Client, k: nat, id: nat)
    requires Valid(c) && k < |c.outbound|
    ensures StoredAsSent(c, [], c.(outbound := MessageLists.Without(c.outbound, k), store := RemoveSent(c.store, c.outbound[k].msgid)), id)
  {
    FindWithout(c.outbound, k, id);
  }

  lemma {:induction false} PubrecStores(c: Client, op: Op, id: nat)
    requires Valid(c) && op.GetPubrec?
    ensures var e := HandlePubrec(c, op.id, op.reason); StoredAsSent(c, e.sent, e.client, id)
  {
    var e := HandlePubrec(c, op.id, op.reason);
    NoPublishOf(e.sent, id);
    if id == op.id {
      PubrecOutcome(c, id, op.reason);
    } else {
      PubrecElsewhere(c, op.id, op.reason, id, RecordKey(SentPublish, c.v5, id));
    }
  }

  lemma AnswerStores(c: Client, op: Op, id: nat)
    requires Valid(c) && (op.GetPuback? || op.GetPubrec? || op.GetPubcomp?)
    ensures var e := EffectOf(c, op); StoredAsSent(c, e.sent, e.client, id)
  {
    var k := IndexOf(c.outbound, op.id);
    UnchangedStores(c, id);
    if op.GetPubrec? {
      PubrecStores(c, op, id);
    } else if k < |c.outbound| {
      CompletionStores(c, k, id);
    }
  }

  lemma {:induction false} RequestStores(c: Client, op: Op, id: nat)
    requires Valid(c) && (op.GetPublish? || op.GetPubrel?)
    ensures var e := EffectOf(c, op); StoredAsSent(c, e.sent, e.client, id)
  {
    NoPublishOf(EffectOf(c, op).sent, id);
  }

  // ----- A reconnect -----

  /** What a reconnect keeps of one record. */
  ghost predicate SameRecord(s: seq<Message>, v5: bool, key: RecordKey, record: seq<Byte>, d: Client) {
    d.outbound == s && d.v5 == v5 && key in d.store && d.store[key] == record
  }

  /** A retry of message j stores nothing else under the id of message i than its PUBLISH with DUP. */
  lemma RetryKeepsIt(x: Client, i: nat, j: nat, s: seq<Message>, key: RecordKey, record: seq<Byte>)
    requires ValidOutbound(x.v5, s) && i < |s| && j < |s| && Storable(x.v5, s[i]) && Storable(x.v5, s[j])
    requires key == RecordKey(SentPublish, x.v5, s[i].msgid) && record == PublishRecord(x.v5, true, s[i].qos, s[i].msgid, s[i].content)
    requires SameRecord(s, x.v5, key, record, x)
    ensures SameRecord(s, x.v5, key, record, Retry(x, j).client)
  {
    assert j != i ==> s[j].msgid != s[i].msgid;
  }

  lemma {:induction false} RestKeepsIt(e: Client, i: nat, key: RecordKey, record: seq<Byte>)
    requires ValidOutbound(e.v5, e.outbound) && i < |e.outbound| && Storable(e.v5, e.outbound[i])
    requires key == RecordKey(SentPublish, e.v5, e.outbound[i].msgid)
    requires record == PublishRecord(e.v5, true, e.outbound[i].qos, e.outbound[i].msgid, e.outbound[i].content)
    requires key in e.store && e.store[key] == record
    ensures SameRecord(e.outbound, e.v5, key, record, RetryFrom(e, i + 1).client)
  {
    var s, v5 := e.outbound, e.v5;
    var kept := (x: Client) => SameRecord(s, v5, key, record, x);
    forall x: Client, j: nat | kept(x) && CanRetry(x, j) ensures kept(Retried(x, j)) {
      assert Storable(v5, s[j]);
      RetryKeepsIt(x, i, j, s, key, record);
    }
    RetryFromKeeps(e, i + 1, kept);
  }

  /** A message sent again as its PUBLISH is stored as that. */
  lemma {:induction false} RetryStoresIt(c: Client, i: nat)
    requires ValidOutbound(c.v5, c.outbound) && i < |c.outbound| && c.outbound[i].msgid >= 0 && RetryPacket(c.outbound[i]).Publish?
    ensures HoldsPacket(RetryFrom(c, 0).client, c.outbound[i].msgid, RetryPacket(c.outbound[i]))
  {
    var d := RetryComesTo(c, 0, i, RetryFrom(c, 0).client);
    var m := c.outbound[i];
    assert Storable(c.v5, m);
    RetryFromFirst(d, i);
    RestKeepsIt(Retry(d, i).client, i, RecordKey(SentPublish, c.v5, m.msgid), PublishRecord(c.v5, true, m.qos, m.msgid, m.content));
  }

  /** Any other record of a PUBLISH stays as it is. */
  lemma {:induction false} RetryLeavesIt(c: Client, id: nat)
    requires ValidOutbound(c.v5, c.outbound) && RecordKey(SentPublish, c.v5, id) in c.store
    requires Find(c.outbound, id).Some? ==> RetryPacket(Find(c.outbound, id).value).Pubrel?
    ensures var key, store := RecordKey(SentPublish, c.v5, id), RetryFrom(c, 0).client.store; key in store && store[key] == c.store[key]
  {
    var s, v5, key := c.outbound, c.v5, RecordKey(SentPublish, c.v5, id);
    var record := c.store[key];
    var kept := (x: Client) => SameRecord(s, v5, key, record, x);
    forall x: Client, j: nat | kept(x) && CanRetry(x, j) ensures kept(Retried(x, j)) {
      FindIs(s, j);
    }
    RetryFromKeeps(c, 0, kept);
  }

  lemma {:induction false} ReconnectStores(c: Client, id: nat)
    requires Valid(c)
    ensures var e := RetryFrom(c, 0); StoredAsSent(c, e.sent, e.client, id)
  {
    var e, k := RetryFrom(c, 0), IndexOf(c.outbound, id);
    RetryFromSendsEach(c, 0);
    forall i | 0 <= i < |c.outbound| ensures e.sent[i] == RetryPacket(c.outbound[i]) && e.sent[i].msgid == c.outbound[i].msgid {
      assert Storable(c.v5, c.outbound[i]);
    }
    if k < |c.outbound| && RetryPacket(c.outbound[k]).Publish? {
      RetryStoresIt(c, k);
      forall i | 0 <= i < |c.outbound| && i != k ensures e.sent[i].msgid != id {
        assert c.outbound[i].msgid != c.outbound[k].msgid;
      }
      OnlyPublishOf(e.sent, id, k);
    } else {
      forall i | 0 <= i < |e.sent| ensures !(e.sent[i].Publish? && e.sent[i].msgid == id) {
        assert i != k ==> c.outbound[i].msgid == e.sent[i].msgid;
        if c.outbound[i].msgid == id {
          FindIs(c.outbound, i);
        }
      }
      NoPublishOf(e.sent, id);
      if RecordKey(SentPublish, c.v5, id) in c.store {
        RetryLeavesIt(c, id);
      }
    }
  }

  // ----- Runs -----

  /** What is sent, step by step. */
  ghost function SentInSteps(xs: seq<Sender>, ops: seq<Op>): seq<seq<WirePacket>>
    requires |xs| == |ops| + 1
  {
    seq(|ops|, i requires 0 <= i < |ops| => EffectOf(xs[i].client, ops[i]).sent)
  }

  lemma StepStores(x: Sender, op: Op, x': Sender, id: nat)
    requires Synced(x.client) && Does(x, op, x')
    ensures StoredAsSent(x.client, EffectOf(x.client, op).sent, x'.client, id)
  {
    if !op.Restart? {
      EffectIsStep(x, op, x');
    }
    match op {
      case Send(qos, sent, content) =>
        NotInUse(x.client.outbound, sent);
        SendStores(x.client, qos, sent, content, id);
      case GetPuback(_) => AnswerStores(x.client, op, id);
      case GetPubrec(_, _) => AnswerStores(x.client, op, id);
      case GetPubcomp(_) => AnswerStores(x.client, op, id);
      case GetPublish(_, _, _, _) => RequestStores(x.client, op, id);
      case GetPubrel(_) => RequestStores(x.client, op, id);
      case Reconnect => ReconnectStores(x.client, id);
      case Restart(keys) => RestoreBringsBack(x.client, keys, id);
    }
  }

  /** The record of a message in flight is the PUBLISH that was last sent of it. */
  ghost predicate HoldsLast(c: Client, sent: seq<WirePacket>, id: nat) {
    Find(c.outbound, id).Some? ==> LastPublish(sent, id).Some? && HoldsPacket(c, id, LastPublish(sent, id).value)
  }

  lemma NextHoldsLast(c: Client, sent: seq<WirePacket>, c': Client, before: seq<WirePacket>, after: seq<WirePacket>, id: nat)
    requires HoldsLast(c, before, id) && StoredAsSent(c, sent, c', id) && after == before + sent
    ensures HoldsLast(c', after, id)
  {
    LastOfMore(before, sent, id);
  }

  lemma {:induction false} HoldsLastInTurn(xs: seq<Sender>, sent: seq<seq<WirePacket>>, n: nat, id: nat)
    requires n <= |sent| == |xs| - 1 && xs[0].client.outbound == []
    requires forall i {:trigger sent[i]} :: 0 <= i < n ==> StoredAsSent(xs[i].client, sent[i], xs[i + 1].client, id)
    ensures HoldsLast(xs[n].client, Together(sent, n), id)
  {
    if n > 0 {
      HoldsLastInTurn(xs, sent, n - 1, id);
      NextHoldsLast(xs[n - 1].client, sent[n - 1], xs[n].client, Together(sent, n - 1), Together(sent, n), id);
    }
  }

  lemma EachStores(xs: seq<Sender>, ops: seq<Op>, i: nat, sent: seq<WirePacket>, id: nat)
    requires IsRun(xs, ops) && i < |ops| && sent == EffectOf(xs[i].client, ops[i]).sent
    ensures StoredAsSent(xs[i].client, sent, xs[i + 1].client, id)
  {
    RunIsSynced(xs, ops, i);
    OneStep(xs, ops, i);
    StepStores(xs[i], ops[i], xs[i + 1], id);
  }

  /** In every run, restarts included, what is stored under the id of a message in flight is the PUBLISH last
      sent of it: without DUP until it is sent again, and with it from then on. */
  lemma {:induction false} StoreHoldsWhatWasSent(xs: seq<Sender>, ops: seq<Op>, n: nat, id: nat)
    requires IsRun(xs, ops) && n <= |ops|
    ensures HoldsLast(xs[n].client, Together(SentInSteps(xs, ops), n), id)
  {
    var sent := SentInSteps(xs, ops);
    forall i {:trigger sent[i]} | 0 <= i < n ensures StoredAsSent(xs[i].client, sent[i], xs[i + 1].client, id) {
      EachStores(xs, ops, i, sent[i], id);
    }
    HoldsLastInTurn(xs, sent, n, id);
  }

  /** The first PUBLISH of a message has no DUP flag, one that repeats it has. */
  lemma DupFlags(x: Sender, op: Op, x': Sender)
    requires Synced(x.client) && Does(x, op, x')
    ensures forall p :: p in EffectOf(x.client, op).sent && p.Publish? ==> (p.dup <==> op.Reconnect?) && (op.Send? || op.Reconnect?)
  {
    if op.Reconnect? {
      RetryFromSendsEach(x.client, 0);
      forall p | p in RetryPackets(x.client.v5, x.client.outbound, 0) && p.Publish? ensures p.dup {
        var i :| 0 <= i < |x.client.outbound| && p == RetryPackets(x.client.v5, x.client.outbound, 0)[i];
        assert Storable(x.client.v5, x.client.outbound[i]);
      }
    }
  }

  // ----- Received messages -----

  /** The last QoS 2 PUBLISH of this id that has arrived in the first n steps. */
  function LastArrived(ops: seq<Op>, n: nat, id: nat): Option<Op>
    requires n <= |ops|
  {
    if n == 0 then None
    else if ops[n - 1].GetPublish? && ops[n - 1].qos == 2 && ops[n - 1].id == id then Some(ops[n - 1])
    else LastArrived(ops, n - 1, id)
  }

  /** The record of a received message is the PUBLISH that arrived. */
  ghost predicate HoldsArrived(c: Client, last: Option<Op>, id: nat) {
    Find(c.inbound, id).Some? ==>
      var key := RecordKey(ReceivedPublish, c.v5, id);
      && last.Some? && last.value.GetPublish? && last.value.qos == 2 && last.value.id == id && Encodable(c.v5, 2, id, last.value.content)
      && key in c.store && c.store[key] == PublishRecord(c.v5, last.value.dup, 2, id, last.value.content)
  }

  lemma {:induction false} StepHoldsArrived(x: Sender, op: Op, x': Sender, last: Option<Op>, id: nat)
    requires Synced(x.client) && Does(x, op, x') && HoldsArrived(x.client, last, id)
    ensures HoldsArrived(x'.client, if op.GetPublish? && op.qos == 2 && op.id == id then Some(op) else last, id)
  {
    match op {
      case Restart(keys) => RestoreBringsBack(x.client, keys, id);
      case Reconnect => ReconnectKeepsReceived(x.client, id);
      case GetPublish(_, _, _, _) => PublishHolds(x, op, x', last, id);
      case GetPubrel(_) => PubrelHolds(x, op, x', last, id);
      case _ => OthersKeepReceived(x, op, x', id);
    }
  }

  lemma OthersKeepReceived(x: Sender, op: Op, x': Sender, id: nat)
    requires Does(x, op, x') && (op.Send? || op.GetPuback? || op.GetPubrec? || op.GetPubcomp?)
    ensures var key := RecordKey(ReceivedPublish, x.client.v5, id);
            && x'.client.inbound == x.client.inbound && x'.client.v5 == x.client.v5
            && (key in x.client.store ==> key in x'.client.store && x'.client.store[key] == x.client.store[key])
  {
  }

  lemma PublishHolds(x: Sender, op: Op, x': Sender, last: Option<Op>, id: nat)
    requires Synced(x.client) && Does(x, op, x') && HoldsArrived(x.client, last, id) && op.GetPublish?
    ensures HoldsArrived(x'.client, if op.qos == 2 && op.id == id then Some(op) else last, id)
  {
    ArrivalFinds(x.client, op, id);
  }

  lemma PubrelHolds(x: Sender, op: Op, x': Sender, last: Option<Op>, id: nat)
    requires Synced(x.client) && Does(x, op, x') && HoldsArrived(x.client, last, id) && op.GetPubrel?
    ensures HoldsArrived(x'.client, last, id)
  {
    ArrivalFinds(x.client, op, id);
  }

  lemma ArrivalFinds(c: Client, op: Op, id: nat)
    requires Valid(c) && (op.GetPubrel? || (op.GetPublish? && 0 <= op.qos <= 2 && (op.qos == 2 ==> IsId(op.id)) && Encodable(c.v5, op.qos, op.id, op.content)))
    ensures var c' := EffectOf(c, op).client;
            id != op.id || (op.GetPublish? && op.qos < 2) ==> Find(c'.inbound, id) == Find(c.inbound, id)
    ensures op.GetPubrel? && id == op.id ==> Find(EffectOf(c, op).client.inbound, id) == None
  {
    var k := IndexOf(c.inbound, op.id);
    if k < |c.inbound| {
      FindWithout(c.inbound, k, id);
    }
    if op.GetPublish? && op.qos == 2 {
      var m := Message(op.id, 2, op.content, AwaitPubrel);
      if k < |c.inbound| {
        FindReplaced(c.inbound, k, m, id);
      } else {
        FindAppend(c.inbound, m, id);
      }
    }
  }

  lemma {:induction false} ReconnectKeepsReceived(c: Client, id: nat)
    requires Valid(c)
    ensures var key, c' := RecordKey(ReceivedPublish, c.v5, id), RetryFrom(c, 0).client;
            c'.inbound == c.inbound && c'.v5 == c.v5 && (key in c.store ==> key in c'.store && c'.store[key] == c.store[key])
  {
    var s, v5, key := c.outbound, c.v5, RecordKey(ReceivedPublish, c.v5, id);
    RetryFromSendsEach(c, 0);
    if key in c.store {
      var record := c.store[key];
      var kept := (x: Client) => SameRecord(s, v5, key, record, x);
      forall x: Client, j: nat | kept(x) && CanRetry(x, j) ensures kept(Retried(x, j)) {
        assert Storable(v5, s[j]);
      }
      RetryFromKeeps(c, 0, kept);
    }
  }

  /** A step takes a message that is stored as it arrived to one that is. */
  ghost predicate ArrivalKept(c: Client, op: Op, c': Client, id: nat) {
    forall last: Option<Op> :: HoldsArrived(c, last, id) ==> HoldsArrived(c', if op.GetPublish? && op.qos == 2 && op.id == id then Some(op) else last, id)
  }

  lemma EachKeepsArrived(xs: seq<Sender>, ops: seq<Op>, i: nat, id: nat)
    requires IsRun(xs, ops) && i < |ops|
    ensures ArrivalKept(xs[i].client, ops[i], xs[i + 1].client, id)
  {
    RunIsSynced(xs, ops, i);
    OneStep(xs, ops, i);
    forall last: Option<Op> | HoldsArrived(xs[i].client, last, id)
      ensures HoldsArrived(xs[i + 1].client, if ops[i].GetPublish? && ops[i].qos == 2 && ops[i].id == id then Some(ops[i]) else last, id)
    {
      StepHoldsArrived(xs[i], ops[i], xs[i + 1], last, id);
    }
  }

  lemma {:induction false} HoldsArrivedInTurn(xs: seq<Sender>, ops: seq<Op>, n: nat, id: nat)
    requires n <= |ops| == |xs| - 1 && xs[0].client.inbound == []
    requires forall i {:trigger ops[i]} :: 0 <= i < n ==> ArrivalKept(xs[i].client, ops[i], xs[i + 1].client, id)
    ensures HoldsArrived(xs[n].client, LastArrived(ops, n, id), id)
  {
    if n > 0 {
      HoldsArrivedInTurn(xs, ops, n - 1, id);
      assert ArrivalKept(xs[n - 1].client, ops[n - 1], xs[n].client, id);
    }
  }

  /** In every run what is stored of a received message is the PUBLISH that arrived last, as it arrived. */
  lemma {:induction false} StoreHoldsWhatArrived(xs: seq<Sender>, ops: seq<Op>, n: nat, id: nat)
    requires IsRun(xs, ops) && n <= |ops|
    ensures HoldsArrived(xs[n].client, LastArrived(ops, n, id), id)
  {
    forall i: nat {:trigger ops[i]} | i < n ensures ArrivalKept(xs[i].client, ops[i], xs[i + 1].client, id) {
      EachKeepsArrived(xs, ops, i, id);
    }
    HoldsArrivedInTurn(xs, ops, n, id);
  }
}
