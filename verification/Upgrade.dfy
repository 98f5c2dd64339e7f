/** A client of version 5 restarted on the store that a client of an earlier version left.  Records keep
    the names they were stored under, but the restored client looks for, and writes, names of its own
    version. */
module Upgrade {
  import opened Wrappers
  import opened Types
  import opened MessageIds
  import opened MessageLists
  import opened LinkedList
  import opened Keys
  import opened Packets
  import opened Session
  import opened SessionSync
  import opened MessageOrder
  import opened RestoreOrder
  import opened Restore
  import opened CrashRestore
  import opened Protocol

  // ----- What comes back -----

  function Unstaged(m: Message): Message {
    m.(next := AwaitPubrec)
  }

  /** All messages as waiting for their PUBREC. */
  function AllUnstaged(s: seq<Message>): (t: seq<Message>)
    ensures |t| == |s| && forall i {:trigger t[i]} :: 0 <= i < |s| ==> t[i] == Unstaged(s[i])
  {
    seq(|s|, i requires 0 <= i < |s| => Unstaged(s[i]))
  }

  function Emptied(m: Message): Message {
    m.(content := m.content.(topic := [], payload := []))
  }

  /** All messages without topic and payload. */
  function AllEmptied(s: seq<Message>): (t: seq<Message>)
    ensures |t| == |s| && forall i {:trigger t[i]} :: 0 <= i < |s| ==> t[i] == Emptied(s[i])
  {
    seq(|s|, i requires 0 <= i < |s| => Emptied(s[i]))
  }

  predicate IsPubrel(key: RecordKey) {
    key.RecordKey? && key.kind == SentPubrel
  }

  /** The store without those PUBREL records that are among the keys. */
  function WithoutPubrels(store: Store, keys: seq<RecordKey>): Store {
    map key | key in store && !(IsPubrel(key) && key in keys) :: store[key]
  }

  lemma {:induction false} UnstagedPoint(s: seq<Message>, id: int)
    ensures InsertionPoint(AllUnstaged(s), id) == InsertionPoint(s, id)
  {
    InsertionPointIs(AllUnstaged(s), id, InsertionPoint(s, id));
  }

  lemma UnstagedInsert(s: seq<Message>, m: Message)
    ensures InsertInOrder(AllUnstaged(s), Unstaged(m)) == AllUnstaged(InsertInOrder(s, m))
  {
    UnstagedPoint(s, m.msgid);
  }

  lemma {:induction false} UnstagedStart(s: seq<Message>, n: nat)
    requires 0 < n <= |s|
    ensures WrapStart(AllUnstaged(s), n) == WrapStart(s, n)
  {
    assert forall j {:trigger Gap(s, j)} :: 0 <= j < |s| ==> Gap(AllUnstaged(s), j) == Gap(s, j);
    if n > 1 {
      UnstagedStart(s, n - 1);
    }
  }

  lemma UnstagedWrapped(s: seq<Message>)
    ensures Wrapped(AllUnstaged(s)) == AllUnstaged(Wrapped(s))
  {
    if s != [] {
      UnstagedStart(s, |s|);
    }
  }

  // ----- Each record -----

  /** None of the records is one of version 5. */
  ghost predicate NoneOfVersion5(store: Store) {
    forall key: RecordKey :: key in store && key.RecordKey? ==> !key.v5
  }

  lemma OldSentStep(c: Client, id: nat, store: Store)
    requires Synced(c) && !c.v5 && RecordKey(SentPublish, false, id) in c.store
    requires NoneOfVersion5(store) && RecordKey(SentPublish, false, id) in store
    requires store[RecordKey(SentPublish, false, id)] == c.store[RecordKey(SentPublish, false, id)]
    ensures StepFor(false, c.store, RecordKey(SentPublish, false, id)).AddOutbound?
    ensures StepFor(true, store, RecordKey(SentPublish, false, id)) ==
            AddOutbound(Unstaged(StepFor(false, c.store, RecordKey(SentPublish, false, id)).m))
  {
    SentStep(c, id);
    assert SentAgrees(c, id);
    var m := Find(c.outbound, id).value;
    RecordRoundTrip(false, m.qos, id, m.content, c.store[RecordKey(SentPublish, false, id)]);
  }

  lemma OldPubrelStep(c: Client, id: nat, store: Store)
    requires Synced(c) && !c.v5 && RecordKey(SentPubrel, false, id) in c.store
    requires NoneOfVersion5(store) && RecordKey(SentPubrel, false, id) in store
    requires store[RecordKey(SentPubrel, false, id)] == c.store[RecordKey(SentPubrel, false, id)]
    ensures StepFor(false, c.store, RecordKey(SentPubrel, false, id)) == Ignore
    ensures StepFor(true, store, RecordKey(SentPubrel, false, id)) == Drop
  {
    PubrelStep(c, id);
    assert SentAgrees(c, id) && IsId(id);
    PubrelRoundTrip(false, id);
  }

  lemma OldReceivedStep(c: Client, id: nat, store: Store)
    requires Synced(c) && !c.v5 && RecordKey(ReceivedPublish, false, id) in c.store
    requires RecordKey(ReceivedPublish, false, id) in store
    requires store[RecordKey(ReceivedPublish, false, id)] == c.store[RecordKey(ReceivedPublish, false, id)]
    ensures StepFor(false, c.store, RecordKey(ReceivedPublish, false, id)).AddInbound?
    ensures StepFor(true, store, RecordKey(ReceivedPublish, false, id)) ==
            AddInbound(Emptied(StepFor(false, c.store, RecordKey(ReceivedPublish, false, id)).m))
  {
    ReceivedStep(c, id);
    assert ReceivedAgrees(c, id);
    var m, record := Find(c.inbound, id).value, c.store[RecordKey(ReceivedPublish, false, id)];
    RecordRoundTrip(false, 2, id, m.content, record);
  }

  // ----- The whole restore -----

  /** What the first n records come to, next to a restore by a client of the old version. */
  ghost predicate UpgradedUpTo(c: Client, keys: seq<RecordKey>, n: nat)
    requires n <= |keys|
  {
    var s := RestoreUpTo(false, c.store, keys, n);
    && s == Restoring(s.outbound, s.inbound, c.store, false)
    && RestoreUpTo(true, c.store, keys, n) ==
       Restoring(AllUnstaged(s.outbound), AllEmptied(s.inbound), WithoutPubrels(c.store, keys[..n]), false)
  }

  /** One key more, the n-th. */
  ghost predicate IsNext(c: Client, keys: seq<RecordKey>, n: nat, key: RecordKey) {
    && Synced(c) && !c.v5 && Enumerates(keys, c.store) && 0 < n <= |keys| && key == keys[n - 1]
    && UpgradedUpTo(c, keys, n - 1)
  }

  lemma NextKey(c: Client, keys: seq<RecordKey>, n: nat, key: RecordKey)
    requires Enumerates(keys, c.store) && 0 < n <= |keys| && key == keys[n - 1]
    ensures key in c.store && key in WithoutPubrels(c.store, keys[..n - 1])
    ensures var store := WithoutPubrels(c.store, keys[..n - 1]);
            WithoutPubrels(c.store, keys[..n]) == if IsPubrel(key) then store - {key} else store
  {
    assert keys[..n] == keys[..n - 1] + [key];
  }

  lemma {:induction false} PubrelNext(c: Client, keys: seq<RecordKey>, n: nat, key: RecordKey)
    requires IsNext(c, keys, n, key) && IsPubrel(key)
    ensures UpgradedUpTo(c, keys, n)
  {
    NextKey(c, keys, n, key);
    OldPubrelStep(c, key.id, WithoutPubrels(c.store, keys[..n - 1]));
  }

  lemma {:induction false} SentNext(c: Client, keys: seq<RecordKey>, n: nat, key: RecordKey)
    requires IsNext(c, keys, n, key) && key.RecordKey? && key.kind == SentPublish
    ensures UpgradedUpTo(c, keys, n)
  {
    NextKey(c, keys, n, key);
    OldSentStep(c, key.id, WithoutPubrels(c.store, keys[..n - 1]));
    UnstagedInsert(RestoreUpTo(false, c.store, keys, n - 1).outbound, StepFor(false, c.store, key).m);
  }

  lemma {:induction false} ReceivedNext(c: Client, keys: seq<RecordKey>, n: nat, key: RecordKey)
    requires IsNext(c, keys, n, key) && key.RecordKey? && key.kind == ReceivedPublish
    ensures UpgradedUpTo(c, keys, n)
  {
    NextKey(c, keys, n, key);
    OldReceivedStep(c, key.id, WithoutPubrels(c.store, keys[..n - 1]));
    EmptiedAppend(RestoreUpTo(false, c.store, keys, n - 1).inbound, StepFor(false, c.store, key).m);
  }

  lemma EmptiedAppend(s: seq<Message>, m: Message)
    ensures AllEmptied(s + [m]) == AllEmptied(s) + [Emptied(m)]
  {
  }

  lemma {:induction false} OtherNext(c: Client, keys: seq<RecordKey>, n: nat, key: RecordKey)
    requires IsNext(c, keys, n, key) && key.CommandOrQueueKey?
    ensures UpgradedUpTo(c, keys, n)
  {
    NextKey(c, keys, n, key);
  }

  lemma {:induction false} UpgradedStep(c: Client, keys: seq<RecordKey>, n: nat)
    requires 0 < n <= |keys| && IsNext(c, keys, n, keys[n - 1])
    ensures UpgradedUpTo(c, keys, n)
  {
    match keys[n - 1]
    case RecordKey(SentPublish, _, _) => SentNext(c, keys, n, keys[n - 1]);
    case RecordKey(SentPubrel, _, _) => PubrelNext(c, keys, n, keys[n - 1]);
    case RecordKey(ReceivedPublish, _, _) => ReceivedNext(c, keys, n, keys[n - 1]);
    case CommandOrQueueKey(_, _, _) => OtherNext(c, keys, n, keys[n - 1]);
  }

  lemma {:induction false} UpgradedAll(c: Client, keys: seq<RecordKey>, n: nat)
    requires Synced(c) && !c.v5 && Enumerates(keys, c.store) && n <= |keys|
    ensures UpgradedUpTo(c, keys, n)
  {
    if n == 0 {
      assert WithoutPubrels(c.store, keys[..0]) == c.store;
    } else {
      UpgradedAll(c, keys, n - 1);
      UpgradedStep(c, keys, n);
    }
  }

  /** The upgrade, next to a restart without one (RestoreBringsBack), whatever order the keys come in: the
      same messages in the same order, but every stage is forgotten, topics and payloads of received
      messages are gone, and so are all PUBREL records. */
  lemma UpgradeRestores(c: Client, keys: seq<RecordKey>)
    requires Synced(c) && !c.v5 && Enumerates(keys, c.store)
    ensures Restored(false, c.store, keys).Some?
    ensures var same := Restored(false, c.store, keys).value;
            Restored(true, c.store, keys) ==
            Some(Client(true, AllUnstaged(same.outbound), AllEmptied(same.inbound), WithoutPubrels(c.store, keys)))
  {
    UpgradedAll(c, keys, |keys|);
    assert keys[..|keys|] == keys;
    UnstagedWrapped(RestoreUpTo(false, c.store, keys, |keys|).outbound);
  }

  lemma FindUnstaged(s: seq<Message>, id: int)
    requires DistinctIds(s)
    ensures DistinctIds(AllUnstaged(s))
    ensures Find(AllUnstaged(s), id) == match Find(s, id) case None => None case Some(m) => Some(Unstaged(m))
  {
    var t, k := AllUnstaged(s), IndexOf(s, id);
    assert forall i :: 0 <= i < |s| ==> t[i].msgid == s[i].msgid;
    if k < |s| {
      FindIs(t, k);
    } else {
      assert IndexOf(t, id) == |t|;
    }
  }

  lemma FindEmptied(s: seq<Message>, id: int)
    requires DistinctIds(s)
    ensures DistinctIds(AllEmptied(s))
    ensures Find(AllEmptied(s), id) == match Find(s, id) case None => None case Some(m) => Some(Emptied(m))
  {
    var t, k := AllEmptied(s), IndexOf(s, id);
    assert forall i :: 0 <= i < |s| ==> t[i].msgid == s[i].msgid;
    if k < |s| {
      FindIs(t, k);
    } else {
      assert IndexOf(t, id) == |t|;
    }
  }

  /** The outbound message of this id as the upgrade leaves it. */
  function Upgraded(c: Client, id: nat): Option<Message> {
    match Find(c.outbound, id)
    case None => None
    case Some(m) => Some(Unstaged(m))
  }

  /** Id by id: every message comes back, an outbound one as it was if and only if it was waiting for its
      PUBREC, and exactly the PUBREL records leave the store. */
  lemma UpgradeForgetsStage(c: Client, keys: seq<RecordKey>, id: nat)
    requires Synced(c) && !c.v5 && Enumerates(keys, c.store)
    ensures Restored(true, c.store, keys).Some?
    ensures var c' := Restored(true, c.store, keys).value;
            && DistinctIds(c'.outbound) && DistinctIds(c'.inbound)
            && Find(c'.outbound, id) == Upgraded(c, id)
            && (Find(c.outbound, id).Some? ==>
                 (Find(c'.outbound, id) == Find(c.outbound, id) <==> Find(c.outbound, id).value.next == AwaitPubrec))
            && Find(c'.inbound, id) == (match Find(c.inbound, id) case None => None case Some(m) => Some(Emptied(m)))
            && c'.store == c.store - set key | key in c.store && IsPubrel(key)
  {
    UpgradeRestores(c, keys);
    RestoreBringsBack(c, keys, id);
    var same := Restored(false, c.store, keys).value;
    FindUnstaged(same.outbound, id);
    FindEmptied(same.inbound, id);
  }

  // ----- Two records of one message -----

  predicate IsSent(key: RecordKey) {
    key.RecordKey? && key.kind == SentPublish
  }

  /** Every PUBLISH that is stored as sent can be read, under either version. */
  ghost predicate AllReadable(store: Store) {
    forall key: RecordKey :: key in store && IsSent(key) ==> Readable(key, store[key])
  }

  ghost predicate Readable(key: RecordKey, record: seq<Byte>)
    requires key.RecordKey?
  {
    IsId(key.id) && exists qos, content :: IsRecordOf(key.v5, qos, key.id, content, record)
  }

  /** A sent PUBLISH of this id is stored under both versions. */
  predicate Twins(store: Store, id: nat) {
    RecordKey(SentPublish, false, id) in store && RecordKey(SentPublish, true, id) in store
  }

  ghost predicate NoTwins(store: Store) {
    forall id: nat {:trigger Twins(store, id)} :: !Twins(store, id)
  }

  function IdList(s: seq<Message>): (t: seq<int>)
    ensures |t| == |s| && forall i {:trigger t[i]} :: 0 <= i < |s| ==> t[i] == s[i].msgid
  {
    seq(|s|, i requires 0 <= i < |s| => s[i].msgid)
  }

  /** How many of the first n keys are those of a sent PUBLISH of this id. */
  function Copies(keys: seq<RecordKey>, n: nat, id: int): nat
    requires n <= |keys|
  {
    if n == 0 then 0 else Copies(keys, n - 1, id) + (if IsSent(keys[n - 1]) && keys[n - 1].id == id then 1 else 0)
  }

  lemma {:induction false} CopiesAmong(keys: seq<RecordKey>, n: nat, id: nat)
    requires n <= |keys| && forall i, j :: 0 <= i < j < |keys| ==> keys[i] != keys[j]
    ensures Copies(keys, n, id) == (if RecordKey(SentPublish, false, id) in keys[..n] then 1 else 0)
                                   + (if RecordKey(SentPublish, true, id) in keys[..n] then 1 else 0)
  {
    if n > 0 {
      CopiesAmong(keys, n - 1, id);
      assert keys[..n] == keys[..n - 1] + [keys[n - 1]] && keys[n - 1] !in keys[..n - 1];
    }
  }

  lemma IdsInserted(s: seq<Message>, m: Message, k: nat)
    requires k <= |s|
    ensures IdList(Inserted(s, m, k)) == Inserted(IdList(s), m.msgid, k)
  {
  }

  lemma InsertedIds(s: seq<Message>, m: Message, id: int)
    ensures multiset(IdList(InsertInOrder(s, m)))[id] == multiset(IdList(s))[id] + if m.msgid == id then 1 else 0
  {
    IdsInserted(s, m, InsertionPoint(s, m.msgid));
    InsertedMultiset(IdList(s), m.msgid, InsertionPoint(s, m.msgid));
  }

  lemma IdsRotated(s: seq<Message>, k: nat)
    requires k <= |s|
    ensures IdList(Rotated(s, k)) == Rotated(IdList(s), k)
  {
  }

  lemma WrappedIds(s: seq<Message>)
    ensures multiset(IdList(Wrapped(s))) == multiset(IdList(s))
  {
    if s != [] {
      IdsRotated(s, WrapStart(s, |s|));
      RotatedMultiset(IdList(s), WrapStart(s, |s|));
    }
  }

  /** What a key leads to. */
  lemma KeyLeadsTo(store: Store, key: RecordKey)
    requires key in store && (IsSent(key) ==> Readable(key, store[key]))
    ensures var step := StepFor(true, store, key);
            && !step.Fail?
            && (step.AddOutbound? <==> IsSent(key)) && (step.AddOutbound? ==> step.m.msgid == key.id)
            && (step.Drop? ==> !IsSent(key))
  {
    if IsSent(key) {
      var qos, content :| IsRecordOf(key.v5, qos, key.id, content, store[key]);
      RecordRoundTrip(key.v5, qos, key.id, content, store[key]);
    }
  }

  /** After n keys: no PUBLISH record has been dropped, and none before its turn. */
  ghost predicate LeftUpTo(store: Store, keys: seq<RecordKey>, n: nat)
    requires n <= |keys|
  {
    var s := RestoreUpTo(true, store, keys, n);
    !s.failed && forall key {:trigger IsLeft(store, s.store, keys[..n], key)} :: IsLeft(store, s.store, keys[..n], key)
  }

  ghost predicate IsLeft(store: Store, now: Store, before: seq<RecordKey>, key: RecordKey) {
    && (key in now ==> key in store && now[key] == store[key])
    && (key in store && (key in before ==> IsSent(key)) ==> key in now)
  }

  /** The next key is still there, and leads to what it led to at the start. */
  lemma NextLeadsTo(store: Store, keys: seq<RecordKey>, n: nat) returns (s: Restoring, key: RecordKey, step: Finding)
    requires AllReadable(store) && Enumerates(keys, store) && n < |keys| && LeftUpTo(store, keys, n)
    ensures s == RestoreUpTo(true, store, keys, n) && key == keys[n]
    ensures RestoreUpTo(true, store, keys, n + 1) == Apply(s, key, step)
    ensures !step.Fail? && (step.Drop? ==> !IsSent(key))
    ensures (step.AddOutbound? <==> IsSent(key)) && (step.AddOutbound? ==> step.m.msgid == key.id)
  {
    s, key := RestoreUpTo(true, store, keys, n), keys[n];
    assert key in keys && key !in keys[..n];
    assert IsLeft(store, s.store, keys[..n], key);
    KeyLeadsTo(s.store, key);
    step := StepFor(true, s.store, key);
  }

  lemma {:induction false} LeftNext(store: Store, keys: seq<RecordKey>, n: nat, s: Restoring, key: RecordKey, step: Finding)
    requires n < |keys| && LeftUpTo(store, keys, n) && s == RestoreUpTo(true, store, keys, n) && key == keys[n]
    requires RestoreUpTo(true, store, keys, n + 1) == Apply(s, key, step)
    requires !step.Fail? && (step.Drop? ==> !IsSent(key))
    ensures LeftUpTo(store, keys, n + 1)
  {
    var now, after := RestoreUpTo(true, store, keys, n + 1).store, keys[..n + 1];
    assert after == keys[..n] + [key];
    forall k ensures IsLeft(store, now, after, k) {
      assert IsLeft(store, s.store, keys[..n], k);
    }
  }

  lemma {:induction false} LeftAll(store: Store, keys: seq<RecordKey>, n: nat)
    requires AllReadable(store) && Enumerates(keys, store) && n <= |keys|
    ensures LeftUpTo(store, keys, n)
  {
    if n > 0 {
      LeftAll(store, keys, n - 1);
      var s, key, step := NextLeadsTo(store, keys, n - 1);
      LeftNext(store, keys, n - 1, s, key, step);
    }
  }

  lemma AppliedIds(s: Restoring, key: RecordKey, step: Finding, id: int)
    ensures multiset(IdList(Apply(s, key, step).outbound))[id] ==
            multiset(IdList(s.outbound))[id] + if step.AddOutbound? && step.m.msgid == id then 1 else 0
  {
    if step.AddOutbound? {
      InsertedIds(s.outbound, step.m, id);
    }
  }

  lemma CountedNext(keys: seq<RecordKey>, n: nat, s: Restoring, key: RecordKey, step: Finding, after: Restoring, id: int)
    requires 0 < n <= |keys| && key == keys[n - 1] && after == Apply(s, key, step)
    requires (step.AddOutbound? <==> IsSent(key)) && (step.AddOutbound? ==> step.m.msgid == key.id)
    requires multiset(IdList(s.outbound))[id] == Copies(keys, n - 1, id)
    ensures multiset(IdList(after.outbound))[id] == Copies(keys, n, id)
  {
    AppliedIds(s, key, step, id);
  }

  lemma {:induction false} CountedAll(store: Store, keys: seq<RecordKey>, n: nat, id: int) returns (after: Restoring)
    requires AllReadable(store) && Enumerates(keys, store) && n <= |keys|
    ensures after == RestoreUpTo(true, store, keys, n) && multiset(IdList(after.outbound))[id] == Copies(keys, n, id)
  {
    if n == 0 {
      after := Restoring([], [], store, false);
    } else {
      var before := CountedAll(store, keys, n - 1, id);
      LeftAll(store, keys, n - 1);
      var s, key, step := NextLeadsTo(store, keys, n - 1);
      after := Apply(before, key, step);
      CountedNext(keys, n, before, key, step, after, id);
    }
  }

  /** A client of version 5 restores, of every id, as many outbound messages as PUBLISH records of it are
      stored, under whatever version. */
  lemma RestoredCopies(store: Store, keys: seq<RecordKey>, id: nat)
    requires AllReadable(store) && Enumerates(keys, store)
    ensures Restored(true, store, keys).Some?
    ensures multiset(IdList(Restored(true, store, keys).value.outbound))[id] ==
            (if RecordKey(SentPublish, false, id) in store then 1 else 0)
            + (if RecordKey(SentPublish, true, id) in store then 1 else 0)
  {
    LeftAll(store, keys, |keys|);
    var after := CountedAll(store, keys, |keys|, id);
    CopiesAmong(keys, |keys|, id);
    assert keys[..|keys|] == keys;
    WrappedIds(RestoreUpTo(true, store, keys, |keys|).outbound);
  }

  lemma TwoPlaces(a: seq<int>, i: nat, j: nat)
    requires i < j < |a| && a[i] == a[j]
    ensures multiset(a)[a[i]] >= 2
  {
    assert a == a[..i] + [a[i]] + a[i + 1..j] + [a[j]] + a[j + 1..];
  }

  lemma {:induction false} OnePlace(a: seq<int>, id: int)
    requires forall i, j :: 0 <= i < j < |a| ==> a[i] != a[j]
    ensures multiset(a)[id] <= 1
  {
    if a != [] {
      assert a == [a[0]] + a[1..];
      assert forall k :: 0 <= k < |a[1..]| ==> a[1..][k] != a[0];
      OnePlace(a[1..], id);
    }
  }

  lemma OncePerId(s: seq<Message>)
    requires forall i :: 0 <= i < |s| ==> IsId(s[i].msgid)
    ensures DistinctIds(s) <==> forall id: nat {:trigger multiset(IdList(s))[id]} :: multiset(IdList(s))[id] <= 1
  {
    var a := IdList(s);
    if DistinctIds(s) {
      forall id: nat ensures multiset(a)[id] <= 1 {
        OnePlace(a, id);
      }
    } else {
      var i, j :| 0 <= i < j < |s| && s[i].msgid == s[j].msgid;
      assert a[i] == a[j];
      TwoPlaces(a, i, j);
      assert multiset(a)[s[i].msgid] >= 2;
    }
  }

  lemma {:induction false} CopiesOfIds(store: Store, keys: seq<RecordKey>, n: nat, id: int)
    requires n <= |keys| && Copies(keys, n, id) > 0
    requires forall i {:trigger keys[i]} :: 0 <= i < n && IsSent(keys[i]) ==> keys[i] in store && Readable(keys[i], store[keys[i]])
    ensures IsId(id)
  {
    var key := keys[n - 1];
    if Copies(keys, n - 1, id) > 0 {
      CopiesOfIds(store, keys, n - 1, id);
    } else {
      assert Readable(key, store[key]);
    }
  }

  lemma RestoredIds(store: Store, keys: seq<RecordKey>, i: nat)
    requires AllReadable(store) && Enumerates(keys, store)
    requires Restored(true, store, keys).Some? && i < |Restored(true, store, keys).value.outbound|
    ensures IsId(Restored(true, store, keys).value.outbound[i].msgid)
  {
    var s := RestoreUpTo(true, store, keys, |keys|).outbound;
    var id := Wrapped(s)[i].msgid;
    assert IdList(Wrapped(s))[i] in multiset(IdList(Wrapped(s)));
    WrappedIds(s);
    var after := CountedAll(store, keys, |keys|, id);
    CopiesOfIds(store, keys, |keys|, id);
  }

  /** So the restored ids are distinct if and only if no id has a PUBLISH record of either version. */
  lemma RestoredDistinct(store: Store, keys: seq<RecordKey>)
    requires AllReadable(store) && Enumerates(keys, store)
    ensures Restored(true, store, keys).Some?
    ensures DistinctIds(Restored(true, store, keys).value.outbound) <==> NoTwins(store)
  {
    RestoredCopies(store, keys, 0);
    var s := Restored(true, store, keys).value.outbound;
    forall i | 0 <= i < |s| ensures IsId(s[i].msgid) {
      RestoredIds(store, keys, i);
    }
    OncePerId(s);
    forall id: nat ensures multiset(IdList(s))[id] <= 1 <==> !Twins(store, id) {
      RestoredCopies(store, keys, id);
    }
  }

  // ----- Which steps make two records of one -----

  /** One retry: a PUBLISH sent again is stored beside the record of the old version. */
  lemma RetryTwins(c: Client, k: nat)
    requires c.v5 && AllReadable(c.store) && k < |c.outbound| && Storable(true, c.outbound[k])
    ensures var c', m := Retry(c, k).client, c.outbound[k];
            && AllReadable(c'.store)
            && (NoTwins(c'.store) <==>
                 NoTwins(c.store) && !(RetryPacket(m).Publish? && RecordKey(SentPublish, false, m.msgid) in c.store))
  {
    var c', m := Retry(c, k).client, c.outbound[k];
    assert IsRecordOf(true, m.qos, m.msgid, m.content, PublishRecord(true, true, m.qos, m.msgid, m.content));
    assert forall id: nat :: Twins(c.store, id) ==> Twins(c'.store, id);
    assert RetryPacket(m).Publish? && RecordKey(SentPublish, false, m.msgid) in c.store ==> Twins(c'.store, m.msgid);
    assert forall id: nat :: Twins(c'.store, id) ==> Twins(c.store, id) || (id == m.msgid && RetryPacket(m).Publish?);
  }

  /** A new message: only where a record of the old version is left. */
  lemma StartPublishTwins(c: Client, qos: int, id: nat, content: Content)
    requires c.v5 && AllReadable(c.store) && 1 <= qos <= 2 && IsId(id) && Encodable(true, qos, id, content)
    ensures var c' := StartPublish(c, qos, id, content).client;
            AllReadable(c'.store) && (NoTwins(c'.store) <==> NoTwins(c.store) && RecordKey(SentPublish, false, id) !in c.store)
  {
    var c' := StartPublish(c, qos, id, content).client;
    assert IsRecordOf(true, qos, id, content, PublishRecord(true, false, qos, id, content));
    assert forall i: nat :: Twins(c.store, i) ==> Twins(c'.store, i);
    assert RecordKey(SentPublish, false, id) in c.store ==> Twins(c'.store, id);
    assert forall i: nat :: Twins(c'.store, i) ==> Twins(c.store, i) || i == id;
  }

  /** A packet that arrives leaves no PUBLISH record that was not there. */
  lemma HandleStore(c: Client, p: WirePacket, key: RecordKey)
    requires Acceptable(c.v5, p) && IsSent(key) && key in Handle(c, p).client.store
    ensures key in c.store && Handle(c, p).client.store[key] == c.store[key]
  {
  }

  /** So no packet that arrives does. */
  lemma HandleTwins(c: Client, p: WirePacket)
    requires c.v5 && AllReadable(c.store) && NoTwins(c.store) && Acceptable(true, p)
    ensures AllReadable(Handle(c, p).client.store) && NoTwins(Handle(c, p).client.store)
  {
    var store := Handle(c, p).client.store;
    forall key: RecordKey | key in store && IsSent(key) ensures Readable(key, store[key]) {
      HandleStore(c, p, key);
    }
    forall id: nat ensures !Twins(store, id) {
      if Twins(store, id) {
        HandleStore(c, p, RecordKey(SentPublish, false, id));
        HandleStore(c, p, RecordKey(SentPublish, true, id));
        assert Twins(c.store, id);
      }
    }
  }

  /** A restart keeps every PUBLISH record. */
  lemma RestartTwins(store: Store, keys: seq<RecordKey>)
    requires AllReadable(store) && Enumerates(keys, store)
    ensures Restored(true, store, keys).Some?
    ensures var now := Restored(true, store, keys).value.store;
            AllReadable(now) && forall id: nat {:trigger Twins(now, id)} :: Twins(now, id) <==> Twins(store, id)
  {
    LeftAll(store, keys, |keys|);
    var now := Restored(true, store, keys).value.store;
    forall key: RecordKey | IsSent(key) ensures key in now <==> key in store
      ensures key in now ==> now[key] == store[key]
    {
      assert IsLeft(store, now, keys[..|keys|], key);
    }
  }

  // ----- The first reconnect after the upgrade -----

  /** A record of a message in flight, or of none that was sent; no PUBREL. */
  ghost predicate Belongs(s: seq<Message>, key: RecordKey, record: seq<Byte>) {
    && !IsPubrel(key)
    && (IsSent(key) ==>
         && Find(s, key.id).Some?
         && var m := Find(s, key.id).value; IsId(m.msgid) && IsRecordOf(key.v5, m.qos, key.id, m.content, record))
  }

  ghost predicate Explained(s: seq<Message>, store: Store, key: RecordKey) {
    key in store ==> Belongs(s, key, store[key])
  }

  /** Message i has its record of the old version, and among the first n one of version 5 as well. */
  ghost predicate HasRecords(s: seq<Message>, store: Store, n: nat, i: nat)
    requires i < |s|
  {
    var id := s[i].msgid;
    id >= 0 && RecordKey(SentPublish, false, id) in store && (i < n ==> RecordKey(SentPublish, true, id) in store)
  }

  /** The store is that of these messages, the first n of them stored twice. */
  ghost predicate Doubled(s: seq<Message>, store: Store, n: nat) {
    && (forall key {:trigger Explained(s, store, key)} :: Explained(s, store, key))
    && forall i: nat {:trigger HasRecords(s, store, n, i)} :: i < |s| ==> HasRecords(s, store, n, i)
  }

  /** Every message waits for its PUBREC. */
  ghost predicate AllWait(s: seq<Message>) {
    DistinctIds(s) && forall i :: 0 <= i < |s| ==> s[i].next == AwaitPubrec
  }

  lemma UpgradedStore(c: Client, d: Client, keys: seq<RecordKey>)
    requires Synced(c) && !c.v5 && Enumerates(keys, c.store) && Restored(true, c.store, keys) == Some(d)
    ensures d.v5 && AllWait(d.outbound) && Doubled(d.outbound, d.store, 0)
  {
    UpgradeRestores(c, keys);
    UpgradeForgetsStage(c, keys, 0);
    forall key ensures Explained(d.outbound, d.store, key) {
      if key in d.store && IsSent(key) {
        assert SentAgrees(c, key.id);
        UpgradeForgetsStage(c, keys, key.id);
      }
    }
    forall i: nat | i < |d.outbound| ensures HasRecords(d.outbound, d.store, 0, i) {
      var id := d.outbound[i].msgid;
      FindIs(d.outbound, i);
      UpgradeForgetsStage(c, keys, id);
      assert SentAgrees(c, id);
    }
  }

  /** No retry takes a record out of the store. */
  lemma {:induction false} RetryFromKeepsKey(c: Client, k: nat, key: RecordKey)
    requires k <= |c.outbound| && AllStorable(c.v5, c.outbound) && key in c.store
    ensures key in RetryFrom(c, k).client.store
  {
    RetryFromKeeps(c, k, (d: Client) => key in d.store);
  }

  /** A message that waits for its PUBREC is then stored under version 5. */
  lemma {:induction false} RetryFromStores(c: Client, i: nat)
    requires c.v5 && i < |c.outbound| && AllStorable(c.v5, c.outbound)
    requires c.outbound[i].next == AwaitPubrec && c.outbound[i].msgid >= 0
    ensures RecordKey(SentPublish, true, c.outbound[i].msgid) in RetryFrom(c, 0).client.store
  {
    var d := RetryComesTo(c, 0, i, RetryFrom(c, 0).client);
    RetryFromFirst(d, i);
    RetryFromKeepsKey(Retry(d, i).client, i + 1, RecordKey(SentPublish, true, c.outbound[i].msgid));
  }

  /** One message sent again. */
  lemma RetryExplained(c: Client, k: nat, key: RecordKey)
    requires c.v5 && AllWait(c.outbound) && k < |c.outbound| && Storable(true, c.outbound[k]) && Explained(c.outbound, c.store, key)
    ensures Explained(c.outbound, Retry(c, k).client.store, key)
  {
    var m := c.outbound[k];
    FindIs(c.outbound, k);
    assert IsRecordOf(true, m.qos, m.msgid, m.content, PublishRecord(true, true, m.qos, m.msgid, m.content));
  }

  lemma {:induction false} RetryFromExplained(c: Client, key: RecordKey)
    requires c.v5 && AllStorable(true, c.outbound) && AllWait(c.outbound) && Explained(c.outbound, c.store, key)
    ensures Explained(c.outbound, RetryFrom(c, 0).client.store, key)
  {
    var s := c.outbound;
    var kept := (d: Client) => d.v5 && d.outbound == s && Explained(s, d.store, key);
    forall d: Client, j: nat | kept(d) && CanRetry(d, j) ensures kept(Retried(d, j)) {
      assert Storable(true, d.outbound[j]);
      RetryExplained(d, j, key);
    }
    RetryFromKeeps(c, 0, kept);
  }

  lemma {:induction false} ReconnectStore(c: Client, s: seq<Message>, store: Store)
    requires c.v5 && AllStorable(true, c.outbound) && AllWait(s) && s == c.outbound && Doubled(s, c.store, 0)
    requires store == RetryFrom(c, 0).client.store
    ensures Doubled(s, store, |s|)
  {
    forall key ensures Explained(s, store, key) {
      assert Explained(s, c.store, key);
      RetryFromExplained(c, key);
    }
    forall i: nat | i < |s| ensures HasRecords(s, store, |s|, i) {
      assert HasRecords(s, c.store, 0, i);
      RetryFromKeepsKey(c, 0, RecordKey(SentPublish, false, s[i].msgid));
      RetryFromStores(c, i);
    }
  }

  // ----- The next restart -----

  lemma DoubledReadable(s: seq<Message>, store: Store)
    requires DistinctIds(s) && Doubled(s, store, |s|)
    ensures AllReadable(store)
  {
    forall key: RecordKey | key in store && IsSent(key) ensures Readable(key, store[key]) {
      assert Explained(s, store, key);
    }
  }

  lemma DoubledTwins(s: seq<Message>, store: Store, id: nat)
    requires DistinctIds(s) && Doubled(s, store, |s|)
    ensures if Find(s, id).Some? then Twins(store, id)
            else RecordKey(SentPublish, false, id) !in store && RecordKey(SentPublish, true, id) !in store
  {
    if Find(s, id).Some? {
      assert HasRecords(s, store, |s|, IndexOf(s, id));
    } else {
      assert Explained(s, store, RecordKey(SentPublish, false, id)) && Explained(s, store, RecordKey(SentPublish, true, id));
    }
  }

  /** These are messages of s, as they are there. */
  ghost predicate From(s: seq<Message>, t: seq<Message>) {
    forall i {:trigger IsFrom(s, t[i])} :: 0 <= i < |t| ==> IsFrom(s, t[i])
  }

  ghost predicate IsFrom(s: seq<Message>, m: Message) {
    Find(s, m.msgid) == Some(m)
  }

  lemma StepIsFrom(s: seq<Message>, store: Store, now: Store, key: RecordKey)
    requires AllWait(s) && key in now && IsSent(key) && Explained(s, now, key)
    requires RecordKey(SentPubrel, true, key.id) !in now
    ensures StepFor(true, now, key).AddOutbound? && IsFrom(s, StepFor(true, now, key).m)
  {
    var m := Find(s, key.id).value;
    RecordRoundTrip(key.v5, m.qos, key.id, m.content, now[key]);
  }

  lemma AppliedFrom(s: seq<Message>, r: Restoring, key: RecordKey, step: Finding)
    requires From(s, r.outbound) && (step.AddOutbound? ==> IsFrom(s, step.m))
    ensures From(s, Apply(r, key, step).outbound)
  {
  }

  lemma WrappedFrom(s: seq<Message>, t: seq<Message>)
    requires From(s, t)
    ensures From(s, Wrapped(t))
  {
  }

  lemma {:induction false} AllFrom(s: seq<Message>, store: Store, keys: seq<RecordKey>, n: nat)
    requires AllWait(s) && Doubled(s, store, |s|) && Enumerates(keys, store) && n <= |keys|
    ensures From(s, RestoreUpTo(true, store, keys, n).outbound)
  {
    if n > 0 {
      AllFrom(s, store, keys, n - 1);
      var r, key, step := NextFrom(s, store, keys, n - 1);
      AppliedFrom(s, r, key, step);
    }
  }

  lemma NextFrom(s: seq<Message>, store: Store, keys: seq<RecordKey>, n: nat) returns (r: Restoring, key: RecordKey, step: Finding)
    requires AllWait(s) && Doubled(s, store, |s|) && Enumerates(keys, store) && n < |keys|
    ensures r == RestoreUpTo(true, store, keys, n) && RestoreUpTo(true, store, keys, n + 1) == Apply(r, key, step)
    ensures step.AddOutbound? ==> IsFrom(s, step.m)
  {
    DoubledReadable(s, store);
    LeftAll(store, keys, n);
    r, key, step := NextLeadsTo(store, keys, n);
    step := StepFor(true, r.store, key);
    assert IsLeft(store, r.store, keys[..n], key);
    KeyLeadsTo(r.store, key);
    if IsSent(key) {
      assert Explained(s, store, key);
      var pubrel := RecordKey(SentPubrel, true, key.id);
      assert IsLeft(store, r.store, keys[..n], pubrel) && Explained(s, store, pubrel);
      StepIsFrom(s, store, r.store, key);
    }
  }

  /** What the first reconnect after an upgrade leads to, for every session of an earlier version: every
      message in flight is then stored under both versions, so at the next restart it comes back twice,
      and ids are distinct if and only if nothing was in flight. */
  lemma {:induction false} ReconnectDoubles(c: Client, keys: seq<RecordKey>, d: Client, e: Client, keys': seq<RecordKey>)
    requires Synced(c) && !c.v5 && Enumerates(keys, c.store) && Restored(true, c.store, keys) == Some(d)
    requires AllStorable(true, d.outbound) && e == RetryFrom(d, 0).client && Enumerates(keys', e.store)
    ensures Restored(true, e.store, keys').Some?
    ensures var again := Restored(true, e.store, keys').value.outbound;
            && (forall id: nat {:trigger multiset(IdList(again))[id]} ::
                 multiset(IdList(again))[id] == if Find(c.outbound, id).Some? then 2 else 0)
            && From(d.outbound, again)
            && (DistinctIds(again) <==> c.outbound == [])
  {
    UpgradedStore(c, d, keys);
    ReconnectStore(d, d.outbound, e.store);
    DoubledReadable(d.outbound, e.store);
    RestoredCopies(e.store, keys', 0);
    var again := Restored(true, e.store, keys').value.outbound;
    forall id: nat ensures multiset(IdList(again))[id] == if Find(c.outbound, id).Some? then 2 else 0 {
      UpgradeForgetsStage(c, keys, id);
      DoubledTwins(d.outbound, e.store, id);
      RestoredCopies(e.store, keys', id);
    }
    AllFrom(d.outbound, e.store, keys', |keys'|);
    WrappedFrom(d.outbound, RestoreUpTo(true, e.store, keys', |keys'|).outbound);
    DistinctIffNothing(c, e.store, keys', again);
  }

  lemma DistinctIffNothing(c: Client, store: Store, keys: seq<RecordKey>, again: seq<Message>)
    requires Synced(c) && AllReadable(store) && Enumerates(keys, store)
    requires Restored(true, store, keys).Some? && again == Restored(true, store, keys).value.outbound
    requires forall id: nat {:trigger multiset(IdList(again))[id]} ::
               multiset(IdList(again))[id] == if Find(c.outbound, id).Some? then 2 else 0
    ensures DistinctIds(again) <==> c.outbound == []
  {
    if c.outbound == [] {
      forall i | 0 <= i < |again| ensures IsId(again[i].msgid) {
        RestoredIds(store, keys, i);
      }
      OncePerId(again);
    } else {
      FindIs(c.outbound, 0);
      var id: nat := c.outbound[0].msgid;
      assert multiset(IdList(again))[id] == 2;
      if DistinctIds(again) {
        OncePerId(again);
      }
    }
  }
}
