/** What an upgrade to version 5 does to the messages a client has received but not yet released. */
module UpgradeReceived {
  import opened Wrappers
  import opened Types
  import opened MessageIds
  import opened MessageLists
  import opened Keys
  import opened Packets
  import opened Session
  import opened Restore
  import opened CrashRestore
  import opened RestoreOutcome
  import opened Upgrade

  // ----- Held at the upgrade -----

  /** A message held below version 5 has not been handed over yet, and a version 5 client takes it for one that
      has: whatever order the keys come in, its PUBREL does not hand it over, nor does its PUBLISH, sent again;
      a PUBLISH is handed over if and only if nothing of its id was held. */
  lemma HeldIsNeverHandedOver(c: Client, keys: seq<RecordKey>, d: Client, id: nat, dup: bool, content: Content)
    requires Synced(c) && !c.v5 && Enumerates(keys, c.store) && Restored(true, c.store, keys) == Some(d)
    requires IsId(id) && Encodable(true, 2, id, content)
    ensures HandlePublish(d, dup, 2, id, content).delivered == if Find(c.inbound, id).Some? then [] else [Delivery(2, id, content)]
    ensures HandlePubrel(d, id).delivered == [] && HandlePubrel(HandlePublish(d, dup, 2, id, content).client, id).delivered == []
    ensures Find(c.inbound, id).Some? ==> HandlePubrel(c, id).delivered == [Delivery(2, id, Find(c.inbound, id).value.content)]
  {
    UpgradeForgetsStage(c, keys, id);
    if Find(c.inbound, id).Some? {
      var k := IndexOf(c.inbound, id);
      assert IsId(c.inbound[k].msgid) && c.inbound[k].next == AwaitPubrel;
    }
  }

  // ----- Two records of one message -----

  predicate IsReceived(key: RecordKey) {
    key.RecordKey? && key.kind == ReceivedPublish
  }

  /** Every PUBLISH that is stored as received is one of QoS 2 that can be read, under either version. */
  ghost predicate ReceivedReadable(store: Store) {
    forall key: RecordKey :: key in store && IsReceived(key) ==> ReadAsReceived(key, store[key])
  }

  ghost predicate ReadAsReceived(key: RecordKey, record: seq<Byte>)
    requires key.RecordKey?
  {
    IsId(key.id) && exists content :: IsRecordOf(key.v5, 2, key.id, content, record)
  }

  predicate IsCopy(key: RecordKey, id: int) {
    IsReceived(key) && key.id == id
  }

  /** How many of the first n keys are those of a received PUBLISH of this id. */
  function ReceivedCopies(keys: seq<RecordKey>, n: nat, id: int): nat
    requires n <= |keys|
  {
    if n == 0 then 0 else ReceivedCopies(keys, n - 1, id) + (if IsCopy(keys[n - 1], id) then 1 else 0)
  }

  lemma {:induction false} ReceivedCopiesAmong(keys: seq<RecordKey>, n: nat, id: nat)
    requires n <= |keys| && forall i, j :: 0 <= i < j < |keys| ==> keys[i] != keys[j]
    ensures ReceivedCopies(keys, n, id) == (if RecordKey(ReceivedPublish, false, id) in keys[..n] then 1 else 0)
                                           + (if RecordKey(ReceivedPublish, true, id) in keys[..n] then 1 else 0)
  {
    if n > 0 {
      ReceivedCopiesAmong(keys, n - 1, id);
      assert keys[..n] == keys[..n - 1] + [keys[n - 1]] && keys[n - 1] !in keys[..n - 1];
    }
  }

  /** A QoS 2 message that waits for its PUBREL. */
  predicate Held(m: Message) {
    m.qos == 2 && m.next == AwaitPubrel
  }

  ghost predicate AllHeld(s: seq<Message>) {
    forall i {:trigger s[i]} :: 0 <= i < |s| ==> Held(s[i])
  }

  /** The next key is still there, with what was stored under it. */
  lemma NextThere(store: Store, keys: seq<RecordKey>, n: nat) returns (s: Restoring, key: RecordKey)
    requires Enumerates(keys, store) && n < |keys|
    ensures s == RestoreUpTo(true, store, keys, n) && !s.failed && key == keys[n]
    ensures key in store && key in s.store && s.store[key] == store[key]
  {
    s, key := RestoreUpTo(true, store, keys, n), keys[n];
    UpToAll(true, store, keys, n);
    StillThere(true, store, keys, n, key);
    assert Agrees(true, store, keys, n, s.store, key);
  }

  lemma NextReceived(store: Store, keys: seq<RecordKey>, n: nat) returns (s: Restoring, key: RecordKey, step: Finding)
    requires ReceivedReadable(store) && Enumerates(keys, store) && n < |keys|
    ensures s == RestoreUpTo(true, store, keys, n) && key == keys[n]
    ensures RestoreUpTo(true, store, keys, n + 1) == Apply(s, key, step)
    ensures (step.AddInbound? <==> IsReceived(key)) && (step.AddInbound? ==> step.m.msgid == key.id && Held(step.m))
  {
    s, key := NextThere(store, keys, n);
    step := StepFor(true, s.store, key);
    if IsReceived(key) {
      assert ReadAsReceived(key, store[key]);
      var content :| IsRecordOf(key.v5, 2, key.id, content, store[key]);
      RecordRoundTrip(key.v5, 2, key.id, content, store[key]);
    }
  }

  lemma ReceivedIds(s: Restoring, key: RecordKey, step: Finding, id: int)
    ensures multiset(IdList(Apply(s, key, step).inbound))[id] ==
            multiset(IdList(s.inbound))[id] + if step.AddInbound? && step.m.msgid == id then 1 else 0
  {
    if step.AddInbound? {
      assert IdList(s.inbound + [step.m]) == IdList(s.inbound) + [step.m.msgid];
    }
  }

  /** The inbound messages that the first n keys have given. */
  ghost function InboundOf(store: Store, keys: seq<RecordKey>, n: nat): seq<Message>
    requires n <= |keys|
  {
    RestoreUpTo(true, store, keys, n).inbound
  }

  /** What the next key does to the inbound messages, and to the number of those of an id. */
  lemma ReceivedNext(store: Store, keys: seq<RecordKey>, n: nat, n': nat, before: seq<Message>, after: seq<Message>, id: int)
    requires ReceivedReadable(store) && Enumerates(keys, store) && n < n' == n + 1 <= |keys|
    requires before == InboundOf(store, keys, n) && after == InboundOf(store, keys, n')
    ensures multiset(IdList(after))[id] == multiset(IdList(before))[id] + if IsCopy(keys[n], id) then 1 else 0
    ensures AllHeld(before) ==> AllHeld(after)
  {
    var s, key, step := NextReceived(store, keys, n);
    ReceivedIds(s, key, step, id);
  }

  /** The inbound messages after each number of keys. */
  ghost function InboundByKey(store: Store, keys: seq<RecordKey>): (each: seq<seq<Message>>)
    ensures |each| == |keys| + 1 && each[0] == []
    ensures forall i {:trigger each[i]} :: 0 <= i <= |keys| ==> each[i] == InboundOf(store, keys, i)
  {
    seq(|keys| + 1, i requires 0 <= i <= |keys| => InboundOf(store, keys, i))
  }

  lemma {:induction false} HeldInTurn(each: seq<seq<Message>>, n: nat)
    requires n < |each| && each[0] == []
    requires forall i {:trigger each[i]} :: 0 < i < |each| ==> AllHeld(each[i - 1]) ==> AllHeld(each[i])
    ensures AllHeld(each[n])
  {
    if n > 0 {
      HeldInTurn(each, n - 1);
    }
  }

  lemma {:induction false} ReceivedHeld(store: Store, keys: seq<RecordKey>, each: seq<seq<Message>>)
    requires ReceivedReadable(store) && Enumerates(keys, store) && each == InboundByKey(store, keys)
    ensures AllHeld(each[|keys|])
  {
    forall i {:trigger each[i]} | 0 < i < |each| && AllHeld(each[i - 1]) ensures AllHeld(each[i]) {
      ReceivedNext(store, keys, i - 1, i, each[i - 1], each[i], 0);
    }
    HeldInTurn(each, |keys|);
  }

  lemma {:induction false} CopiesInTurn(each: seq<seq<Message>>, keys: seq<RecordKey>, n: nat, id: int)
    requires n <= |keys| == |each| - 1 && each[0] == []
    requires forall i {:trigger each[i]} :: 0 < i < |each| ==>
               multiset(IdList(each[i]))[id] == multiset(IdList(each[i - 1]))[id] + if IsCopy(keys[i - 1], id) then 1 else 0
    ensures multiset(IdList(each[n]))[id] == ReceivedCopies(keys, n, id)
  {
    if n > 0 {
      CopiesInTurn(each, keys, n - 1, id);
    }
  }

  lemma {:induction false} ReceivedCounted(store: Store, keys: seq<RecordKey>, id: int, each: seq<seq<Message>>)
    requires ReceivedReadable(store) && Enumerates(keys, store) && each == InboundByKey(store, keys)
    ensures multiset(IdList(each[|keys|]))[id] == ReceivedCopies(keys, |keys|, id)
  {
    forall i {:trigger each[i]} | 0 < i < |each|
      ensures multiset(IdList(each[i]))[id] == multiset(IdList(each[i - 1]))[id] + if IsCopy(keys[i - 1], id) then 1 else 0
    {
      ReceivedNext(store, keys, i - 1, i, each[i - 1], each[i], id);
    }
    CopiesInTurn(each, keys, |keys|, id);
  }

  /** A client of version 5 restores, of every id, as many inbound messages as received PUBLISHes of it are
      stored, under whatever version. */
  lemma RestoredReceived(store: Store, keys: seq<RecordKey>, id: nat)
    requires ReceivedReadable(store) && Enumerates(keys, store)
    ensures Restored(true, store, keys).Some?
    ensures multiset(IdList(Restored(true, store, keys).value.inbound))[id] ==
            (if RecordKey(ReceivedPublish, false, id) in store then 1 else 0)
            + (if RecordKey(ReceivedPublish, true, id) in store then 1 else 0)
    ensures AllHeld(Restored(true, store, keys).value.inbound)
  {
    RestoreFails(true, store, keys);
    var each := InboundByKey(store, keys);
    ReceivedHeld(store, keys, each);
    ReceivedCounted(store, keys, id, each);
    ReceivedCopiesAmong(keys, |keys|, id);
    assert keys[..|keys|] == keys;
  }

  // ----- The message after it -----

  lemma WithoutIds(s: seq<Message>, k: nat, id: int)
    requires k < |s|
    ensures multiset(IdList(MessageLists.Without(s, k)))[id] + (if s[k].msgid == id then 1 else 0) == multiset(IdList(s))[id]
  {
    var t := IdList(s);
    assert t == t[..k] + [t[k]] + t[k + 1..];
    assert IdList(MessageLists.Without(s, k)) == t[..k] + t[k + 1..];
  }

  lemma CountedIsFound(s: seq<Message>, id: int)
    ensures multiset(IdList(s))[id] > 0 <==> Find(s, id).Some?
  {
    if multiset(IdList(s))[id] > 0 {
      assert id in multiset(IdList(s));
      var i :| 0 <= i < |s| && IdList(s)[i] == id;
      assert s[i].msgid == id;
    }
    if IndexOf(s, id) < |s| {
      assert IdList(s)[IndexOf(s, id)] == id;
    }
  }

  /** A PUBREL lets go of one entry of its id, so that in version 5 the next message of that id is handed over if
      and only if there is no other. */
  lemma NextOfId(c: Client, id: nat, dup: bool, content: Content)
    requires c.v5 && AllHeld(c.inbound) && IsId(id) && Encodable(true, 2, id, content)
    ensures var d := HandlePubrel(c, id).client;
            && d.v5 && HandlePublish(d, dup, 2, id, content).delivered ==
                       if multiset(IdList(c.inbound))[id] > 1 then [] else [Delivery(2, id, content)]
  {
    var k := IndexOf(c.inbound, id);
    CountedIsFound(c.inbound, id);
    if k < |c.inbound| {
      WithoutIds(c.inbound, k, id);
    }
    CountedIsFound(HandlePubrel(c, id).client.inbound, id);
  }

  lemma SyncedReceivedReadable(c: Client)
    requires Synced(c)
    ensures ReceivedReadable(c.store)
    ensures forall id: nat :: RecordKey(ReceivedPublish, c.v5, id) in c.store <==> Find(c.inbound, id).Some?
  {
    forall key: RecordKey | key in c.store && IsReceived(key) ensures ReadAsReceived(key, c.store[key]) {
      assert ReceivedAgrees(c, key.id);
    }
    forall id: nat ensures RecordKey(ReceivedPublish, c.v5, id) in c.store <==> Find(c.inbound, id).Some? {
      assert ReceivedAgrees(c, id);
    }
  }

  /** The upgraded client gets a PUBLISH: it is stored beside that of a message of its id held before. */
  lemma StoredBeside(c: Client, keys: seq<RecordKey>, d: Client, id: nat, dup: bool, content: Content, e: Client)
    requires Synced(c) && !c.v5 && Enumerates(keys, c.store) && Restored(true, c.store, keys) == Some(d)
    requires IsId(id) && Encodable(true, 2, id, content) && e == HandlePublish(d, dup, 2, id, content).client
    ensures ReceivedReadable(e.store) && RecordKey(ReceivedPublish, true, id) in e.store
    ensures RecordKey(ReceivedPublish, false, id) in e.store <==> Find(c.inbound, id).Some?
  {
    UpgradeForgetsStage(c, keys, id);
    SyncedReceivedReadable(c);
    assert IsRecordOf(true, 2, id, content, PublishRecord(true, dup, 2, id, content));
  }

  /** For every session below version 5: after an upgrade, a PUBLISH, a restart and its PUBREL, the next message
      of that id is handed over if and only if nothing of the id was held at the upgrade, whatever order the
      keys come in. */
  lemma NextIsNotHandedOver(c: Client, keys: seq<RecordKey>, d: Client, id: nat, dup: bool, content: Content, e: Client,
                            keys': seq<RecordKey>, f: Client, dup': bool, next: Content)
    requires Synced(c) && !c.v5 && Enumerates(keys, c.store) && Restored(true, c.store, keys) == Some(d)
    requires IsId(id) && Encodable(true, 2, id, content) && e == HandlePublish(d, dup, 2, id, content).client
    requires Enumerates(keys', e.store) && Restored(true, e.store, keys') == Some(f) && Encodable(true, 2, id, next)
    ensures var g := HandlePubrel(f, id).client;
            && g.v5 && HandlePublish(g, dup', 2, id, next).delivered ==
                       if Find(c.inbound, id).Some? then [] else [Delivery(2, id, next)]
  {
    StoredBeside(c, keys, d, id, dup, content, e);
    RestoredReceived(e.store, keys', id);
    NextOfId(f, id, dup', next);
  }
}
