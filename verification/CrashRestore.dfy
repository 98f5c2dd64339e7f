/** Crash and restart: a session in step with its store is rebuilt from it, whatever order the keys
    are enumerated in. */
module CrashRestore {
  import opened Wrappers
  import opened Types
  import opened MessageIds
  import opened MessageLists
  import opened Keys
  import opened Packets
  import opened Session
  import opened MessageOrder
  import opened RestoreOrder
  import opened Restore
  import opened SessionSync

  /** The keys of the store, each once, in some order. */
  ghost predicate Enumerates(keys: seq<RecordKey>, store: Store) {
    && (forall i, j :: 0 <= i < j < |keys| ==> keys[i] != keys[j])
    && (forall k :: k in keys <==> k in store)
  }

  /** A message as it comes back.  The stage of a QoS 1 message means nothing; that of a QoS 2
      message is read off the PUBREL records. */
  function Reread(v5: bool, store: Store, m: Message): Message
    requires m.msgid >= 0
  {
    m.(next := if RecordKey(SentPubrel, v5, m.msgid) in store then AwaitPubcomp else AwaitPubrec)
  }

  function RereadAll(c: Client): (s: seq<Message>)
    requires Valid(c)
    ensures |s| == |c.outbound|
  {
    seq(|c.outbound|, i requires 0 <= i < |c.outbound| => Reread(c.v5, c.store, c.outbound[i]))
  }

  lemma RereadIsSame(c: Client, id: nat)
    requires Synced(c) && Find(c.outbound, id).Some?
    ensures var m := Find(c.outbound, id).value;
            && Reread(c.v5, c.store, m) == m.(next := Reread(c.v5, c.store, m).next)
            && (m.qos == 2 ==> Reread(c.v5, c.store, m) == m)
  {
    var k := IndexOf(c.outbound, id);
    assert SentAgrees(c, id) && c.outbound[k].next != AwaitPubrel;
  }

  // ----- Each record -----

  lemma RecordRoundTrip(v5: bool, qos: int, id: nat, content: Content, record: seq<Byte>)
    requires IsId(id) && IsRecordOf(v5, qos, id, content, record)
    ensures RestorePacket(v5, record).Some?
    ensures var p := RestorePacket(v5, record).value;
            p.PublishPacket? && p.msgid == id && HeaderQos(p.header) == qos && PacketContent(p) == content
  {
    var dup :| record == PublishRecord(v5, dup, qos, id, content);
    PublishRoundTrip(v5, dup, qos, id, content);
    HeaderRoundTrip(dup, qos, content.retain);
  }

  lemma SentStep(c: Client, id: nat)
    requires Synced(c) && RecordKey(SentPublish, c.v5, id) in c.store
    ensures Find(c.outbound, id).Some?
    ensures StepFor(c.v5, c.store, RecordKey(SentPublish, c.v5, id)) ==
            AddOutbound(Reread(c.v5, c.store, Find(c.outbound, id).value))
  {
    assert SentAgrees(c, id);
    var m := Find(c.outbound, id).value;
    RecordRoundTrip(c.v5, m.qos, id, m.content, c.store[RecordKey(SentPublish, c.v5, id)]);
  }

  lemma PubrelStep(c: Client, id: nat)
    requires Synced(c) && RecordKey(SentPubrel, c.v5, id) in c.store
    ensures StepFor(c.v5, c.store, RecordKey(SentPubrel, c.v5, id)) == Ignore
  {
    assert SentAgrees(c, id) && IsId(id);
    PubrelRoundTrip(c.v5, id);
  }

  lemma ReceivedStep(c: Client, id: nat)
    requires Synced(c) && RecordKey(ReceivedPublish, c.v5, id) in c.store
    ensures Find(c.inbound, id).Some?
    ensures StepFor(c.v5, c.store, RecordKey(ReceivedPublish, c.v5, id)).AddInbound?
    ensures BackAgain(c, id, StepFor(c.v5, c.store, RecordKey(ReceivedPublish, c.v5, id)).m)
  {
    assert ReceivedAgrees(c, id);
    var m, record := Find(c.inbound, id).value, c.store[RecordKey(ReceivedPublish, c.v5, id)];
    var content :| IsRecordOf(c.v5, 2, id, content, record) && (!c.v5 ==> content == m.content);
    assert c.inbound[IndexOf(c.inbound, id)].next == AwaitPubrel;
    RecordRoundTrip(c.v5, 2, id, content, record);
  }

  /** A received message is the one it was, up to the content version 5 has no more use for. */
  ghost predicate BackAgain(c: Client, id: nat, m: Message) {
    && Find(c.inbound, id).Some?
    && m == Find(c.inbound, id).value.(content := m.content)
    && (!c.v5 ==> m == Find(c.inbound, id).value)
  }

  // ----- All records -----

  /** The messages the first n keys put into the outbound list, in key order. */
  function SentAmong(c: Client, keys: seq<RecordKey>, n: nat): (t: seq<Message>)
    requires n <= |keys| && forall k :: k in keys ==> k in c.store
  {
    if n == 0 then []
    else
      var t, step := SentAmong(c, keys, n - 1), StepFor(c.v5, c.store, keys[n - 1]);
      if step.AddOutbound? then t + [step.m] else t
  }

  function ReceivedAmong(c: Client, keys: seq<RecordKey>, n: nat): (t: seq<Message>)
    requires n <= |keys| && forall k :: k in keys ==> k in c.store
  {
    if n == 0 then []
    else
      var t, step := ReceivedAmong(c, keys, n - 1), StepFor(c.v5, c.store, keys[n - 1]);
      if step.AddInbound? then t + [step.m] else t
  }

  lemma KeyStep(c: Client, key: RecordKey)
    requires Synced(c) && key in c.store
    ensures var step := StepFor(c.v5, c.store, key);
            && !step.Fail? && !step.Drop?
            && (step.AddOutbound? <==> key.RecordKey? && key.kind == SentPublish)
            && (step.AddInbound? <==> key.RecordKey? && key.kind == ReceivedPublish)
  {
    if key.RecordKey? {
      match key.kind
      case SentPublish => SentStep(c, key.id);
      case SentPubrel => PubrelStep(c, key.id);
      case ReceivedPublish => ReceivedStep(c, key.id);
    }
  }

  lemma {:induction false} NothingLost(c: Client, keys: seq<RecordKey>, n: nat)
    requires Synced(c) && n <= |keys| && forall k :: k in keys ==> k in c.store
    ensures RestoreUpTo(c.v5, c.store, keys, n) ==
            Restoring(InsertAll(SentAmong(c, keys, n)), ReceivedAmong(c, keys, n), c.store, false)
  {
    if n > 0 {
      assert keys[n - 1] in keys;
      NothingLost(c, keys, n - 1);
      KeyStep(c, keys[n - 1]);
      NoneLost(c, keys, n, SentAmong(c, keys, n - 1), ReceivedAmong(c, keys, n - 1), StepFor(c.v5, c.store, keys[n - 1]));
    }
  }

  lemma {:induction false} NoneLost(c: Client, keys: seq<RecordKey>, n: nat, t: seq<Message>, r: seq<Message>, step: Finding)
    requires 0 < n <= |keys| && keys[n - 1] in c.store && forall k :: k in keys ==> k in c.store
    requires t == SentAmong(c, keys, n - 1) && r == ReceivedAmong(c, keys, n - 1) && step == StepFor(c.v5, c.store, keys[n - 1])
    requires RestoreUpTo(c.v5, c.store, keys, n - 1) == Restoring(InsertAll(t), r, c.store, false)
    requires !step.Fail? && !step.Drop?
    ensures RestoreUpTo(c.v5, c.store, keys, n) ==
            Restoring(InsertAll(SentAmong(c, keys, n)), ReceivedAmong(c, keys, n), c.store, false)
  {
    if step.AddOutbound? {
      assert (t + [step.m])[..|t|] == t;
    }
  }

  /** The next key has not come before. */
  lemma NextKey(keys: seq<RecordKey>, store: Store, n: nat, key: RecordKey)
    requires Enumerates(keys, store) && 0 < n <= |keys| && key == keys[n - 1]
    ensures key in store && key !in keys[..n - 1] && keys[..n] == keys[..n - 1] + [key]
  {
    assert key in keys;
  }

  /** Of every id, the outbound messages among the first n keys hold what the session held, once
      its record is among them. */
  lemma {:induction false} SentAmongFinds(c: Client, keys: seq<RecordKey>, n: nat, id: nat)
    requires Synced(c) && Enumerates(keys, c.store) && n <= |keys|
    ensures DistinctIds(SentAmong(c, keys, n))
    ensures Find(SentAmong(c, keys, n), id) ==
            if RecordKey(SentPublish, c.v5, id) in keys[..n]
            then Some(Reread(c.v5, c.store, Find(c.outbound, id).value)) else None
  {
    if n > 0 {
      var key := keys[n - 1];
      NextKey(keys, c.store, n, key);
      SentAmongFinds(c, keys, n - 1, id);
      if key.RecordKey? && key.kind == SentPublish {
        SentAmongFinds(c, keys, n - 1, key.id);
      }
      SentAmongNext(c, keys, n, key, id);
    }
  }

  lemma {:induction false} SentAmongNext(c: Client, keys: seq<RecordKey>, n: nat, key: RecordKey, id: nat)
    requires Synced(c) && 0 < n <= |keys| && key == keys[n - 1] && forall k :: k in keys ==> k in c.store
    requires key !in keys[..n - 1] && keys[..n] == keys[..n - 1] + [key]
    requires DistinctIds(SentAmong(c, keys, n - 1))
    requires Find(SentAmong(c, keys, n - 1), id) ==
             if RecordKey(SentPublish, c.v5, id) in keys[..n - 1]
             then Some(Reread(c.v5, c.store, Find(c.outbound, id).value)) else None
    requires key.RecordKey? && key.kind == SentPublish && RecordKey(SentPublish, c.v5, key.id) !in keys[..n - 1] ==>
               Find(SentAmong(c, keys, n - 1), key.id) == None
    ensures DistinctIds(SentAmong(c, keys, n))
    ensures Find(SentAmong(c, keys, n), id) ==
            if RecordKey(SentPublish, c.v5, id) in keys[..n]
            then Some(Reread(c.v5, c.store, Find(c.outbound, id).value)) else None
  {
    KeyStep(c, key);
    if key.RecordKey? && key.kind == SentPublish {
      SentStep(c, key.id);
      FindAppend(SentAmong(c, keys, n - 1), Reread(c.v5, c.store, Find(c.outbound, key.id).value), id);
    }
  }

  lemma {:induction false} ReceivedAmongFinds(c: Client, keys: seq<RecordKey>, n: nat, id: nat)
    requires Synced(c) && Enumerates(keys, c.store) && n <= |keys|
    ensures DistinctIds(ReceivedAmong(c, keys, n))
    ensures FoundAgain(c, id, RecordKey(ReceivedPublish, c.v5, id) in keys[..n], Find(ReceivedAmong(c, keys, n), id))
  {
    if n > 0 {
      var key := keys[n - 1];
      NextKey(keys, c.store, n, key);
      ReceivedAmongFinds(c, keys, n - 1, id);
      if key.RecordKey? && key.kind == ReceivedPublish {
        ReceivedAmongFinds(c, keys, n - 1, key.id);
      }
      ReceivedAmongNext(c, keys, n, key, id);
    }
  }

  ghost predicate FoundAgain(c: Client, id: nat, expected: bool, m: Option<Message>) {
    if expected then m.Some? && BackAgain(c, id, m.value) else m == None
  }

  lemma {:induction false} ReceivedAmongNext(c: Client, keys: seq<RecordKey>, n: nat, key: RecordKey, id: nat)
    requires Synced(c) && 0 < n <= |keys| && key == keys[n - 1] && forall k :: k in keys ==> k in c.store
    requires key !in keys[..n - 1] && keys[..n] == keys[..n - 1] + [key]
    requires DistinctIds(ReceivedAmong(c, keys, n - 1))
    requires FoundAgain(c, id, RecordKey(ReceivedPublish, c.v5, id) in keys[..n - 1], Find(ReceivedAmong(c, keys, n - 1), id))
    requires key.RecordKey? && key.kind == ReceivedPublish && RecordKey(ReceivedPublish, c.v5, key.id) !in keys[..n - 1] ==>
               Find(ReceivedAmong(c, keys, n - 1), key.id) == None
    ensures DistinctIds(ReceivedAmong(c, keys, n))
    ensures FoundAgain(c, id, RecordKey(ReceivedPublish, c.v5, id) in keys[..n], Find(ReceivedAmong(c, keys, n), id))
  {
    KeyStep(c, key);
    if key.RecordKey? && key.kind == ReceivedPublish {
      ReceivedStep(c, key.id);
      FindAppend(ReceivedAmong(c, keys, n - 1), StepFor(c.v5, c.store, key).m, id);
    }
  }

  // ----- The session after the restart -----

  /** Lists of the same messages with distinct ids agree on every id. */
  lemma SameMessagesSameFind(s: seq<Message>, t: seq<Message>, id: nat)
    requires DistinctIds(s) && multiset(t) == multiset(s)
    ensures DistinctIds(t) && Find(t, id) == Find(s, id)
  {
    SameMultisetDistinct(s, t);
    if Find(s, id).Some? {
      assert Find(s, id).value in multiset(t);
      var j :| 0 <= j < |t| && t[j] == Find(s, id).value;
      FindIs(t, j);
    } else {
      forall j | 0 <= j < |t| ensures t[j].msgid != id {
        assert t[j] in multiset(s);
      }
    }
  }

  lemma {:induction false} WrappedKeepsMessages(t: seq<Message>)
    requires DistinctIds(t)
    ensures multiset(Wrapped(InsertAll(t))) == multiset(t)
  {
    InsertAllSorts(t);
    var s := InsertAll(t);
    if s != [] {
      RotatedMultiset(s, WrapStart(s, |s|));
    }
  }

  /** The message of this id as the restart leaves it. */
  function Recovered(c: Client, id: nat): Option<Message> {
    match Find(c.outbound, id)
    case None => None
    case Some(m) => Some(Reread(c.v5, c.store, m))
  }

  /** The messages read from all keys are those of the session. */
  lemma {:induction false} AllFound(c: Client, keys: seq<RecordKey>, id: nat)
    requires Synced(c) && Enumerates(keys, c.store)
    ensures DistinctIds(SentAmong(c, keys, |keys|)) && DistinctIds(ReceivedAmong(c, keys, |keys|))
    ensures Find(SentAmong(c, keys, |keys|), id) == Recovered(c, id)
    ensures var m := Find(ReceivedAmong(c, keys, |keys|), id);
            if Find(c.inbound, id).Some? then m.Some? && BackAgain(c, id, m.value) else m == None
  {
    SentAmongFinds(c, keys, |keys|, id);
    ReceivedAmongFinds(c, keys, |keys|, id);
    assert keys[..|keys|] == keys;
    assert SentAgrees(c, id) && ReceivedAgrees(c, id);
  }

  /** The crash theorem: whatever order the keys come in, the restore succeeds, leaves the store as
      it was, and brings back the session id by id -- outbound messages with their stage as far as it
      means something, inbound messages with their content as far as it still matters. */
  lemma RestoreBringsBack(c: Client, keys: seq<RecordKey>, id: nat)
    requires Synced(c) && Enumerates(keys, c.store)
    ensures Restored(c.v5, c.store, keys).Some?
    ensures var c' := Restored(c.v5, c.store, keys).value;
            && c'.v5 == c.v5 && c'.store == c.store
            && DistinctIds(c'.outbound) && DistinctIds(c'.inbound)
            && Find(c'.outbound, id) == Recovered(c, id)
            && (if Find(c.inbound, id).Some?
                then Find(c'.inbound, id).Some? && BackAgain(c, id, Find(c'.inbound, id).value)
                else Find(c'.inbound, id) == None)
  {
    var t := SentAmong(c, keys, |keys|);
    NothingLost(c, keys, |keys|);
    AllFound(c, keys, id);
    WrappedKeepsMessages(t);
    SameMessagesSameFind(t, Wrapped(InsertAll(t)), id);
  }

  lemma RestoredAgrees(c: Client, keys: seq<RecordKey>, id: nat)
    requires Synced(c) && Enumerates(keys, c.store)
    ensures Restored(c.v5, c.store, keys).Some?
    ensures SentAgrees(Restored(c.v5, c.store, keys).value, id) && ReceivedAgrees(Restored(c.v5, c.store, keys).value, id)
  {
    RestoreBringsBack(c, keys, id);
    assert SentAgrees(c, id) && ReceivedAgrees(c, id);
    if Find(c.outbound, id).Some? {
      RereadIsSame(c, id);
    }
  }

  /** And the restored session is in step with the store again. */
  lemma RestoredIsSynced(c: Client, keys: seq<RecordKey>)
    requires Synced(c) && Enumerates(keys, c.store)
    ensures Restored(c.v5, c.store, keys).Some? && Synced(Restored(c.v5, c.store, keys).value)
  {
    RestoreBringsBack(c, keys, 0);
    var c' := Restored(c.v5, c.store, keys).value;
    forall i | 0 <= i < |c'.outbound| ensures Storable(c.v5, c'.outbound[i]) && c'.outbound[i].next != AwaitPubrel {
      FindIs(c'.outbound, i);
      RestoreBringsBack(c, keys, c'.outbound[i].msgid);
      RereadIsSame(c, c'.outbound[i].msgid);
    }
    forall i | 0 <= i < |c'.inbound| ensures c'.inbound[i].qos == 2 && c'.inbound[i].next == AwaitPubrel {
      FindIs(c'.inbound, i);
      RestoreBringsBack(c, keys, c'.inbound[i].msgid);
    }
    forall id: nat ensures SentAgrees(c', id) && ReceivedAgrees(c', id) {
      RestoredAgrees(c, keys, id);
    }
  }

  // ----- Its order -----

  lemma SameIdsSameOrder(s: seq<Message>, t: seq<Message>)
    requires |s| == |t| && forall i :: 0 <= i < |s| ==> t[i].msgid == s[i].msgid
    ensures SendOrder(s) ==> SendOrder(t)
    ensures s != [] ==> (ClosingGapWins(s) <==> ClosingGapWins(t))
  {
    if s != [] {
      assert forall i :: 0 <= i < |s| ==> SendGap(t, i) == SendGap(s, i);
    }
  }

  lemma RereadAllFinds(c: Client, id: nat)
    requires Valid(c)
    ensures DistinctIds(RereadAll(c)) && Find(RereadAll(c), id) == Recovered(c, id)
  {
    var r := RereadAll(c);
    assert forall i :: 0 <= i < |r| ==> r[i].msgid == c.outbound[i].msgid;
    var k := IndexOf(r, id);
    if k < |r| {
      FindIs(c.outbound, k);
    } else {
      assert forall i :: 0 <= i < |r| ==> c.outbound[i].msgid == r[i].msgid;
      assert IndexOf(c.outbound, id) == |r|;
    }
  }

  /** A session is restored in the order its messages stood in if and only if their ids go once round
      the circle and the gap from the last id round to the first is the one the rotation picks. */
  lemma RestoreKeepsSendOrder(c: Client, keys: seq<RecordKey>)
    requires Synced(c) && Enumerates(keys, c.store) && c.outbound != []
    ensures Restored(c.v5, c.store, keys).Some?
    ensures Restored(c.v5, c.store, keys).value.outbound == RereadAll(c) <==>
            SendOrder(c.outbound) && ClosingGapWins(c.outbound)
  {
    var t, r := SentAmong(c, keys, |keys|), RereadAll(c);
    NothingLost(c, keys, |keys|);
    forall id: nat ensures Find(t, id) == Find(r, id) {
      AllFound(c, keys, id);
      RereadAllFinds(c, id);
    }
    AllFound(c, keys, 0);
    RereadAllFinds(c, 0);
    SameFindSameMessages(t, r);
    SameIdsSameOrder(c.outbound, r);
    SameIdsSameOrder(r, c.outbound);
    RestoredOrder(r, t);
  }

  /** Composed with the retry that follows a reconnect: the packets resent after a restart are, in
      the order of the first sending, one for each message that was in flight. */
  lemma ResendInOrderAfterRestart(c: Client, keys: seq<RecordKey>)
    requires Synced(c) && Enumerates(keys, c.store) && SendOrder(c.outbound) && c.outbound != []
    requires ClosingGapWins(c.outbound)
    ensures Restored(c.v5, c.store, keys).Some?
    ensures var c' := Restored(c.v5, c.store, keys).value;
            && AllStorable(c'.v5, c'.outbound)
            && RetryFrom(c', 0).sent == RetryPackets(c.v5, c.outbound, 0)
  {
    RestoreBringsBack(c, keys, 0);
    RestoreKeepsSendOrder(c, keys);
    RestoredIsSynced(c, keys);
    var c' := Restored(c.v5, c.store, keys).value;
    RetryFromSendsEach(c', 0);
    SamePackets(c, c'.outbound);
  }

  /** The stage of a QoS 1 message means nothing to a retry. */
  lemma SamePackets(c: Client, t: seq<Message>)
    requires Synced(c) && t == RereadAll(c) && AllStorable(c.v5, t)
    ensures RetryPackets(c.v5, t, 0) == RetryPackets(c.v5, c.outbound, 0)
  {
    forall i | 0 <= i < |t| ensures RetryPackets(c.v5, t, 0)[i] == RetryPackets(c.v5, c.outbound, 0)[i] {
      FindIs(c.outbound, i);
      RereadIsSame(c, c.outbound[i].msgid);
      assert Storable(c.v5, t[i]) && Storable(c.v5, c.outbound[i]);
    }
  }

  // ----- What does not come back -----

  /** The session whose PUBREC was answered before its PUBLISH was sent. */
  function AnsweredFirst(c: Client, id: nat, content: Content): Client
    requires IsId(id) && Encodable(c.v5, 2, id, content)
  {
    StartPublish(HandlePubrec(c, id, 0).client, 2, id, content).client
  }

  /** The session whose PUBREC was answered after it. */
  function AnsweredAfter(c: Client, id: nat, content: Content): Client
    requires IsId(id) && Encodable(c.v5, 2, id, content)
  {
    HandlePubrec(StartPublish(c, 2, id, content).client, id, 0).client
  }

  lemma SameStore(c: Client, id: nat, content: Content)
    requires Find(c.outbound, id) == None && IsId(id) && Encodable(c.v5, 2, id, content)
    ensures AnsweredFirst(c, id, content).store == AnsweredAfter(c, id, content).store
  {
  }

  lemma AnsweredAfterIsSynced(c: Client, id: nat, content: Content)
    requires Synced(c) && IsId(id) && Find(c.outbound, id) == None && Encodable(c.v5, 2, id, content)
    ensures var d := AnsweredAfter(c, id, content);
            Synced(d) && d.v5 == c.v5 && Find(d.outbound, id) == Some(Message(id, 2, content, AwaitPubcomp))
  {
    var sent := StartPublish(c, 2, id, content).client;
    FindAppend(c.outbound, Message(id, 2, content, AwaitPubrec), id);
    StartPublishKeepsSync(c, 2, id, content);
    PubrecKeepsSync(sent, id, 0);
    FindReplaced(sent.outbound, IndexOf(sent.outbound, id), Message(id, 2, content, AwaitPubcomp), id);
  }

  lemma SyncedComesBack(d: Client, store: Store, keys: seq<RecordKey>, m: Message)
    requires Synced(d) && store == d.store && Enumerates(keys, store) && m.msgid >= 0 && m.qos == 2 && Find(d.outbound, m.msgid) == Some(m)
    ensures Restored(d.v5, store, keys).Some? && Find(Restored(d.v5, store, keys).value.outbound, m.msgid) == Some(m)
  {
    RestoreBringsBack(d, keys, m.msgid);
    RereadIsSame(d, m.msgid);
  }

  /** What an answered stray PUBREC costs: of a new message of that id, which waits for its PUBREC, the
      restart believes that its PUBREL was sent, so the retry sends the PUBREL and never the PUBLISH. */
  lemma StrayPubrecLosesPublish(c: Client, id: nat, content: Content, keys: seq<RecordKey>)
    requires Synced(c) && IsId(id) && Find(c.outbound, id) == None && Encodable(c.v5, 2, id, content)
    requires Enumerates(keys, AnsweredFirst(c, id, content).store)
    ensures var c', m := AnsweredFirst(c, id, content), Message(id, 2, content, AwaitPubrec);
            && Find(c'.outbound, id) == Some(m) && RetryPacket(m) == Publish(true, 2, id, content)
            && Restored(c.v5, c'.store, keys).Some?
            && Find(Restored(c.v5, c'.store, keys).value.outbound, id) == Some(m.(next := AwaitPubcomp))
            && RetryPacket(m.(next := AwaitPubcomp)) == Pubrel(id)
  {
    var d := AnsweredAfter(c, id, content);
    FindAppend(c.outbound, Message(id, 2, content, AwaitPubrec), id);
    AnsweredAfterIsSynced(c, id, content);
    SameStore(c, id, content);
    SyncedComesBack(d, AnsweredFirst(c, id, content).store, keys, Message(id, 2, content, AwaitPubcomp));
  }
}
