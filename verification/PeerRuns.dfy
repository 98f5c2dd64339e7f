/** One client in a run with any peer, with restarts from its store: what it sends and hands over, and
    what the error of a PUBREC leads to (section 4.13 and Table 2-6 of MQTT 5.0). */
module PeerRuns {
  import opened Wrappers
  import opened Types
  import opened MessageIds
  import opened MessageLists
  import opened Keys
  import opened Packets
  import opened Session
  import opened SessionSync
  import opened CrashRestore
  import opened SendOrderRuns

  // ----- One PUBREC -----

  /** A QoS 2 message of this id waits for its PUBREC. */
  ghost predicate Waits(c: Client, id: nat) {
    exists k {:trigger c.outbound[k]} :: 0 <= k < |c.outbound| && c.outbound[k].msgid == id && c.outbound[k].qos == 2 && c.outbound[k].next == AwaitPubrec
  }

  /** The two records of a sent message, under either version. */
  predicate SentRecord(key: RecordKey, id: nat) {
    key.RecordKey? && key.id == id && (key.kind == SentPublish || key.kind == SentPubrel)
  }

  lemma WaitsIsFound(c: Client, id: nat)
    requires Valid(c)
    ensures Waits(c, id) <==> Find(c.outbound, id).Some? && Find(c.outbound, id).value.qos == 2 && Find(c.outbound, id).value.next == AwaitPubrec
  {
    if Waits(c, id) {
      var k :| 0 <= k < |c.outbound| && c.outbound[k].msgid == id && c.outbound[k].qos == 2 && c.outbound[k].next == AwaitPubrec;
      FindIs(c.outbound, k);
    } else if IndexOf(c.outbound, id) < |c.outbound| {
      var m := c.outbound[IndexOf(c.outbound, id)];
      assert m.msgid == id;
    }
  }

  /** For every session, id and reason: a PUBREC is left without an answer if and only if it tells of an
      error in version 5 and a QoS 2 message of its id waits for it.  Then that message and its records
      are gone and its id is free; otherwise a PUBREL is sent and stored, no message leaves, and a message
      that waited waits for its PUBCOMP. */
  lemma PubrecOutcome(c: Client, id: nat, reason: Byte)
    requires Valid(c)
    ensures var e, refused := HandlePubrec(c, id, reason), c.v5 && reason >= 128 && Waits(c, id);
            && (e.sent == [] <==> refused) && (!refused ==> e.sent == [Pubrel(id)]) && e.delivered == []
            && (refused ==> Find(e.client.outbound, id) == None && forall key :: SentRecord(key, id) ==> key !in e.client.store)
            && (!refused ==> |e.client.outbound| == |c.outbound|
                             && RecordKey(SentPubrel, c.v5, id) in e.client.store
                             && e.client.store[RecordKey(SentPubrel, c.v5, id)] == PubrelRecord(id))
            && (!refused ==> Find(e.client.outbound, id) ==
                             if Waits(c, id) then Some(Find(c.outbound, id).value.(next := AwaitPubcomp)) else Find(c.outbound, id))
  {
    WaitsIsFound(c, id);
    var k := IndexOf(c.outbound, id);
    if k < |c.outbound| {
      FindWithout(c.outbound, k, id);
      FindReplaced(c.outbound, k, c.outbound[k].(next := AwaitPubcomp), id);
    }
  }

  /** And nothing else changes. */
  lemma PubrecElsewhere(c: Client, id: nat, reason: Byte, j: nat, key: RecordKey)
    requires Valid(c) && j != id && !SentRecord(key, id)
    ensures var c' := HandlePubrec(c, id, reason).client;
            && Find(c'.outbound, j) == Find(c.outbound, j) && c'.inbound == c.inbound && c'.v5 == c.v5
            && (key in c'.store <==> key in c.store) && (key in c.store ==> c'.store[key] == c.store[key])
  {
    var k := IndexOf(c.outbound, id);
    if k < |c.outbound| {
      FindWithout(c.outbound, k, j);
      FindReplaced(c.outbound, k, c.outbound[k].(next := AwaitPubcomp), j);
    }
  }

  // ----- One PUBREL -----

  predicate ReceivedRecord(key: RecordKey, id: nat) {
    key.RecordKey? && key.id == id && key.kind == ReceivedPublish
  }

  /** A PUBREL is answered in every case.  If a message of its id is held, it is let go with its records of
      either version, and below version 5 handed on; nothing else changes. */
  lemma PubrelOutcome(c: Client, id: nat, j: nat, key: RecordKey)
    requires Valid(c) && j != id && !ReceivedRecord(key, id)
    ensures var e, held := HandlePubrel(c, id), Find(c.inbound, id);
            && e.sent == [Pubcomp(id)] && Find(e.client.inbound, id) == None
            && (held.Some? ==> forall k :: ReceivedRecord(k, id) ==> k !in e.client.store)
            && e.delivered == (if held.Some? && !c.v5 then [Delivery(2, id, held.value.content)] else [])
            && Find(e.client.inbound, j) == Find(c.inbound, j) && e.client.outbound == c.outbound && e.client.v5 == c.v5
            && (key in e.client.store <==> key in c.store) && (key in c.store ==> e.client.store[key] == c.store[key])
  {
    var k := IndexOf(c.inbound, id);
    if k < |c.inbound| {
      FindWithout(c.inbound, k, id);
      FindWithout(c.inbound, k, j);
      assert c.inbound[k].qos == 2;
    }
  }

  // ----- One QoS 2 PUBLISH -----

  /** A QoS 2 PUBLISH is answered in every case, kept and stored as it arrived.  It takes the place of one of
      its id that is held, and version 5 hands it on if and only if none is; nothing else changes. */
  lemma PublishOutcome(c: Client, dup: bool, id: nat, content: Content, j: nat, key: RecordKey)
    requires Valid(c) && IsId(id) && Encodable(c.v5, 2, id, content)
    requires j != id && key != RecordKey(ReceivedPublish, c.v5, id)
    ensures var e, held, record := HandlePublish(c, dup, 2, id, content), Find(c.inbound, id), RecordKey(ReceivedPublish, c.v5, id);
            && e.sent == [Pubrec(id, 0)]
            && e.delivered == (if c.v5 && held == None then [Delivery(2, id, content)] else [])
            && Find(e.client.inbound, id) == Some(Message(id, 2, content, AwaitPubrel))
            && |e.client.inbound| == |c.inbound| + (if held == None then 1 else 0)
            && (forall i :: 0 <= i < |c.inbound| ==> e.client.inbound[i].msgid == c.inbound[i].msgid)
            && record in e.client.store && e.client.store[record] == PublishRecord(c.v5, dup, 2, id, content)
            && Find(e.client.inbound, j) == Find(c.inbound, j) && e.client.outbound == c.outbound && e.client.v5 == c.v5
            && (key in e.client.store <==> key in c.store) && (key in c.store ==> e.client.store[key] == c.store[key])
  {
    var k, m := IndexOf(c.inbound, id), Message(id, 2, content, AwaitPubrel);
    if k < |c.inbound| {
      FindReplaced(c.inbound, k, m, id);
      FindReplaced(c.inbound, k, m, j);
    } else {
      FindAppend(c.inbound, m, id);
      FindAppend(c.inbound, m, j);
    }
  }

  // ----- One PUBACK or PUBCOMP -----

  /** The message of this id is completed, or nothing happens at all. */
  ghost predicate CompletesIf(ends: bool, c: Client, e: Effect, id: nat) {
    && e.sent == [] && e.delivered == [] && e.client.inbound == c.inbound && e.client.v5 == c.v5
    && (!ends ==> e.client == c)
    && (ends ==>
          && Find(e.client.outbound, id) == None
          && (forall j {:trigger Find(e.client.outbound, j)} :: j != id ==> Find(e.client.outbound, j) == Find(c.outbound, j))
          && forall key: RecordKey {:trigger key in e.client.store} ::
               if SentRecord(key, id) then key !in e.client.store
               else (key in e.client.store <==> key in c.store) && (key in c.store ==> e.client.store[key] == c.store[key]))
  }

  /** A PUBACK completes a QoS 1 message, and a PUBCOMP a QoS 2 message that waits for it; no other, and
      neither is answered. */
  lemma AnswerOutcome(c: Client, id: nat)
    requires Valid(c)
    ensures var m := Find(c.outbound, id);
            && CompletesIf(m.Some? && m.value.qos == 1, c, HandlePuback(c, id), id)
            && CompletesIf(m.Some? && m.value.qos == 2 && m.value.next == AwaitPubcomp, c, HandlePubcomp(c, id), id)
  {
    var k := IndexOf(c.outbound, id);
    if k < |c.outbound| {
      CompletionIs(c, k);
    }
  }

  lemma CompletionIs(c: Client, k: nat)
    requires Valid(c) && k < |c.outbound|
    ensures var id := c.outbound[k].msgid;
            id >= 0 ==> CompletesIf(true, c, Effect(c.(outbound := MessageLists.Without(c.outbound, k), store := RemoveSent(c.store, id)), [], []), id)
  {
    forall j ensures Find(MessageLists.Without(c.outbound, k), j) == if j == c.outbound[k].msgid then None else Find(c.outbound, j) {
      FindWithout(c.outbound, k, j);
    }
  }

  // ----- What a step sends and hands over -----

  ghost function Idle(c: Client): Effect {
    Effect(c, [], [])
  }

  /** What the handler of a step makes of it; a restart sends nothing. */
  ghost function EffectOf(c: Client, op: Op): Effect {
    match op
    case Send(qos, id, content) =>
      if 1 <= qos <= 2 && IsId(id) && Encodable(c.v5, qos, id, content) then StartPublish(c, qos, id, content) else Idle(c)
    case GetPuback(id) => HandlePuback(c, id)
    case GetPubrec(id, reason) => HandlePubrec(c, id, reason)
    case GetPubcomp(id) => HandlePubcomp(c, id)
    case GetPublish(dup, qos, id, content) =>
      if 0 <= qos <= 2 && (qos == 2 ==> IsId(id)) && Encodable(c.v5, qos, id, content) then HandlePublish(c, dup, qos, id, content) else Idle(c)
    case GetPubrel(id) => HandlePubrel(c, id)
    case Reconnect => if AllStorable(c.v5, c.outbound) then RetryFrom(c, 0) else Idle(c)
    case Restart(_) => Idle(c)
  }

  /** It is the step of the run. */
  lemma EffectIsStep(x: Sender, op: Op, x': Sender)
    requires Does(x, op, x') && !op.Restart?
    ensures EffectOf(x.client, op).client == x'.client
  {
  }

  /** A request of this id: the PUBLISH of a message of our own, or its PUBREL. */
  predicate Concerns(p: WirePacket, id: nat) {
    (p.Publish? || p.Pubrel?) && p.msgid == id
  }

  // ----- After an error -----

  /** The id is free and nothing of it is stored. */
  ghost predicate Free(c: Client, id: nat) {
    Find(c.outbound, id) == None && forall key {:trigger SentRecord(key, id)} :: SentRecord(key, id) ==> key !in c.store
  }

  lemma FreeWhenSynced(c: Client, id: nat)
    requires Synced(c) && Find(c.outbound, id) == None
    ensures Free(c, id)
  {
    assert SentAgrees(c, id);
    forall key: RecordKey | SentRecord(key, id) ensures key !in c.store {
      assert key in c.store ==> key.v5 == c.v5;
    }
  }

  /** A step that sends no message of a free id leaves it free. */
  lemma StaysFree(x: Sender, op: Op, x': Sender, id: nat)
    requires Synced(x.client) && Does(x, op, x') && Expected(x, op)
    requires Find(x.client.outbound, id) == None && !(op.Send? && op.id == id)
    ensures Synced(x'.client) && Find(x'.client.outbound, id) == None
  {
    StepFollows(x, op, x');
    if op.Restart? {
      RestoreBringsBack(x.client, op.keys, id);
    } else {
      FollowsFree(x.client.outbound, op, x'.client.outbound, id);
    }
  }

  lemma FollowsFree(s: seq<Message>, op: Op, t: seq<Message>, id: nat)
    requires Follows(s, op, t) && Find(s, id) == None && !(op.Send? && op.id == id)
    ensures Find(t, id) == None
  {
    forall i | 0 <= i < |t| ensures t[i].msgid != id {
      if op.Send? && i < |s| {
        assert t[..|s|][i] == t[i];
      }
    }
  }

  lemma {:induction false} NoRetryConcerns(c: Client, id: nat)
    requires AllStorable(c.v5, c.outbound) && Find(c.outbound, id) == None
    ensures forall p :: p in RetryFrom(c, 0).sent ==> !Concerns(p, id)
  {
    RetryFromSendsEach(c, 0);
    forall p | p in RetryPackets(c.v5, c.outbound, 0) ensures !Concerns(p, id) {
      var i :| 0 <= i < |c.outbound| && p == RetryPackets(c.v5, c.outbound, 0)[i];
      assert Storable(c.v5, c.outbound[i]);
    }
  }

  /** And sends nothing that concerns it. */
  lemma NothingConcerns(x: Sender, op: Op, x': Sender, id: nat)
    requires Synced(x.client) && Does(x, op, x') && Expected(x, op)
    requires Find(x.client.outbound, id) == None && !(op.Send? && op.id == id)
    ensures forall p :: p in EffectOf(x.client, op).sent ==> !Concerns(p, id)
  {
    if op.Reconnect? {
      NoRetryConcerns(x.client, id);
    }
  }

  lemma {:induction false} FreeUntilUsed(xs: seq<Sender>, ops: seq<Op>, n: nat, m: nat, id: nat)
    requires IsRun(xs, ops) && n <= m <= |ops| && Find(xs[n].client.outbound, id) == None
    requires forall i {:trigger ops[i]} :: n <= i < m ==> !(ops[i].Send? && ops[i].id == id)
    ensures Find(xs[m].client.outbound, id) == None
  {
    if n < m {
      FreeUntilUsed(xs, ops, n, m - 1, id);
      RunIsSynced(xs, ops, m - 1);
      OneStep(xs, ops, m - 1);
      StaysFree(xs[m - 1], ops[m - 1], xs[m], id);
    }
  }

  /** An error arrives for a message that waits, and its id is not used again before step m. */
  ghost predicate Refused(xs: seq<Sender>, ops: seq<Op>, n: nat, m: nat, id: nat) {
    && IsRun(xs, ops) && n < m <= |ops|
    && ops[n].GetPubrec? && ops[n].id == id && ops[n].reason >= 128 && xs[n].client.v5 && Waits(xs[n].client, id)
    && forall i {:trigger ops[i]} :: n < i < m ==> !(ops[i].Send? && ops[i].id == id)
  }

  lemma FreeAfterError(xs: seq<Sender>, ops: seq<Op>, n: nat, m: nat, id: nat, i: nat)
    requires Refused(xs, ops, n, m, id) && n < i <= m
    ensures Synced(xs[i].client) && Find(xs[i].client.outbound, id) == None
  {
    RunIsSynced(xs, ops, n);
    OneStep(xs, ops, n);
    PubrecOutcome(xs[n].client, id, ops[n].reason);
    FreeUntilUsed(xs, ops, n + 1, i, id);
    RunIsSynced(xs, ops, i);
  }

  lemma SilentAfterError(xs: seq<Sender>, ops: seq<Op>, n: nat, m: nat, id: nat, i: nat)
    requires Refused(xs, ops, n, m, id) && n <= i < m
    ensures forall p :: p in EffectOf(xs[i].client, ops[i]).sent ==> !Concerns(p, id)
  {
    OneStep(xs, ops, i);
    if i == n {
      RunIsSynced(xs, ops, n);
      PubrecOutcome(xs[n].client, id, ops[n].reason);
    } else {
      FreeAfterError(xs, ops, n, m, id, i);
      NothingConcerns(xs[i], ops[i], xs[i + 1], id);
    }
  }

  /** The error of a PUBREC ends the exchange, in every run: from then on until the id is used again it is
      free, nothing of it is stored, whatever restarts and reconnects there are, and neither the PUBLISH
      nor a PUBREL of it goes out. */
  lemma RefusedIsOver(xs: seq<Sender>, ops: seq<Op>, n: nat, m: nat, id: nat)
    requires Refused(xs, ops, n, m, id)
    ensures Free(xs[m].client, id)
    ensures forall i, p {:trigger p in EffectOf(xs[i].client, ops[i]).sent} ::
              n <= i < m && p in EffectOf(xs[i].client, ops[i]).sent ==> !Concerns(p, id)
  {
    FreeAfterError(xs, ops, n, m, id, m);
    FreeWhenSynced(xs[m].client, id);
    forall i: nat | n <= i < m ensures forall p :: p in EffectOf(xs[i].client, ops[i]).sent ==> !Concerns(p, id) {
      SilentAfterError(xs, ops, n, m, id, i);
    }
  }

  // ----- QoS 0 and 1 messages that arrive -----

  /** The messages of QoS 0 and 1 among those handed over. */
  function AtOnce(ds: seq<Delivery>): seq<Delivery> {
    if ds == [] then []
    else
      var earlier, d := AtOnce(ds[..|ds| - 1]), ds[|ds| - 1];
      if d.qos < 2 then earlier + [d] else earlier
  }

  /** What the first n steps give, one after the other. */
  function Together<T>(each: seq<seq<T>>, n: nat): seq<T>
    requires n <= |each|
  {
    if n == 0 then [] else Together(each, n - 1) + each[n - 1]
  }

  /** What is handed over, step by step. */
  ghost function HandedOver(xs: seq<Sender>, ops: seq<Op>): seq<seq<Delivery>>
    requires |xs| == |ops| + 1
  {
    seq(|ops|, i requires 0 <= i < |ops| => EffectOf(xs[i].client, ops[i]).delivered)
  }

  /** The PUBLISHes of QoS 0 and 1 that arrive in the first n steps. */
  function Arrived(ops: seq<Op>, n: nat): seq<Delivery>
    requires n <= |ops|
  {
    if n == 0 then []
    else
      var earlier := Arrived(ops, n - 1);
      match ops[n - 1]
      case GetPublish(_, qos, id, content) => if qos < 2 then earlier + [Delivery(qos, id, content)] else earlier
      case _ => earlier
  }

  lemma {:induction false} AtOnceOne(ds: seq<Delivery>, more: seq<Delivery>)
    requires |more| <= 1
    ensures AtOnce(ds + more) == if more != [] && more[0].qos < 2 then AtOnce(ds) + more else AtOnce(ds)
  {
    if more == [] {
      assert ds + more == ds;
    } else {
      assert (ds + more)[..|ds|] == ds && more == [more[0]];
    }
  }

  /** What is handed over in a step: of QoS 0 and 1 just the message that arrives in it. */
  predicate HandsOver(op: Op, ds: seq<Delivery>) {
    if op.GetPublish? && op.qos < 2 then ds == [Delivery(op.qos, op.id, op.content)]
    else |ds| <= 1 && (ds != [] ==> ds[0].qos == 2)
  }

  /** A message of QoS 0 or 1 that arrives changes nothing else; it gets no answer, or its PUBACK. */
  lemma StepHandsOver(x: Sender, op: Op, x': Sender)
    requires Synced(x.client) && Does(x, op, x')
    ensures HandsOver(op, EffectOf(x.client, op).delivered)
    ensures op.GetPublish? && op.qos < 2 ==> x' == x && EffectOf(x.client, op).sent == if op.qos == 0 then [] else [Puback(op.id)]
  {
    if op.Reconnect? {
      RetryFromSendsEach(x.client, 0);
    }
  }

  lemma EachHandsOver(xs: seq<Sender>, ops: seq<Op>, i: nat, ds: seq<Delivery>)
    requires IsRun(xs, ops) && i < |ops| && ds == EffectOf(xs[i].client, ops[i]).delivered
    ensures HandsOver(ops[i], ds)
  {
    RunIsSynced(xs, ops, i);
    OneStep(xs, ops, i);
    StepHandsOver(xs[i], ops[i], xs[i + 1]);
  }

  lemma {:induction false} NextArrived(ops: seq<Op>, n: nat, before: seq<Delivery>, more: seq<Delivery>, after: seq<Delivery>)
    requires 0 < n <= |ops| && AtOnce(before) == Arrived(ops, n - 1) && HandsOver(ops[n - 1], more) && after == before + more
    ensures AtOnce(after) == Arrived(ops, n)
  {
    AtOnceOne(before, more);
  }

  lemma {:induction false} ArrivedInTurn(each: seq<seq<Delivery>>, ops: seq<Op>, n: nat)
    requires n <= |ops| == |each|
    requires forall i {:trigger each[i]} :: 0 <= i < n ==> HandsOver(ops[i], each[i])
    ensures AtOnce(Together(each, n)) == Arrived(ops, n)
  {
    if n > 0 {
      ArrivedInTurn(each, ops, n - 1);
      NextArrived(ops, n, Together(each, n - 1), each[n - 1], Together(each, n));
    }
  }

  /** In every run each message of QoS 0 or 1 that arrives is handed over, once and in the order of
      arrival, and no other of these. */
  lemma {:induction false} ArrivedIsHandedOver(xs: seq<Sender>, ops: seq<Op>, n: nat)
    requires IsRun(xs, ops) && n <= |ops|
    ensures AtOnce(Together(HandedOver(xs, ops), n)) == Arrived(ops, n)
  {
    var each := HandedOver(xs, ops);
    forall i {:trigger each[i]} | 0 <= i < n ensures HandsOver(ops[i], each[i]) {
      EachHandsOver(xs, ops, i, each[i]);
    }
    ArrivedInTurn(each, ops, n);
  }
}
