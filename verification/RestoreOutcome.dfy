/** What a restore comes to on any store whatever: when it reports an error, and which records leave. */
module RestoreOutcome {
  import opened Wrappers
  import opened Keys
  import opened Packets
  import opened Session
  import opened Restore
  import opened CrashRestore

  /** A session record of version 5. */
  predicate OfVersion5(key: RecordKey) {
    key.RecordKey? && key.v5
  }

  // ----- Which records leave -----

  /** The record is in the store and cannot be parsed. */
  predicate Unreadable(store: Store, key: RecordKey) {
    key in store && key.RecordKey? && RestorePacket(key.v5, store[key]) == None
  }

  /** A PUBREL for which no PUBLISH of the client's own version is stored, or none that can be parsed and
      has been looked at before. */
  predicate Orphaned(v5: bool, store: Store, before: seq<RecordKey>, key: RecordKey) {
    && key in store && key.RecordKey? && key.kind == SentPubrel
    && var p := RestorePacket(key.v5, store[key]);
       && p.Some? && p.value.AckPacket?
       && var publish := RecordKey(SentPublish, v5, p.value.msgid);
          publish !in store || (publish in before && Unreadable(store, publish))
  }

  predicate Leaves(v5: bool, store: Store, before: seq<RecordKey>, key: RecordKey) {
    Unreadable(store, key) || Orphaned(v5, store, before, key)
  }

  /** Key i of the list is this one, and its record leaves. */
  ghost predicate LeavesAt(v5: bool, store: Store, keys: seq<RecordKey>, i: nat, key: RecordKey) {
    i < |keys| && keys[i] == key && Leaves(v5, store, keys[..i], key)
  }

  /** The record is one of those that the first n keys leave in the store. */
  ghost predicate Stays(v5: bool, store: Store, keys: seq<RecordKey>, n: nat, key: RecordKey) {
    key in store && forall i: nat {:trigger LeavesAt(v5, store, keys, i, key)} :: i < n ==> !LeavesAt(v5, store, keys, i, key)
  }

  /** As far as one key goes. */
  ghost predicate Agrees(v5: bool, store: Store, keys: seq<RecordKey>, n: nat, now: Store, key: RecordKey) {
    && (key in now <==> Stays(v5, store, keys, n, key))
    && (key in now ==> now[key] == store[key])
  }

  ghost predicate UpTo(v5: bool, store: Store, keys: seq<RecordKey>, n: nat)
    requires n <= |keys|
  {
    var s := RestoreUpTo(v5, store, keys, n);
    if exists i: nat {:trigger keys[i]} :: i < n && !v5 && OfVersion5(keys[i]) then s.failed
    else !s.failed && forall key {:trigger Agrees(v5, store, keys, n, s.store, key)} :: Agrees(v5, store, keys, n, s.store, key)
  }

  /** The next key is still there. */
  lemma StillThere(v5: bool, store: Store, keys: seq<RecordKey>, n: nat, key: RecordKey)
    requires Enumerates(keys, store) && n < |keys| && key == keys[n]
    ensures Stays(v5, store, keys, n, key)
  {
    assert key in keys;
    forall i: nat | i < n ensures !LeavesAt(v5, store, keys, i, key) {
      assert keys[i] != keys[n];
    }
  }

  /** The store with what the first n keys leave: what the next record leads to. */
  lemma StepLeaves(v5: bool, store: Store, keys: seq<RecordKey>, n: nat, now: Store, key: RecordKey)
    requires Enumerates(keys, store) && n < |keys| && key == keys[n] && (v5 || !OfVersion5(key))
    requires forall k {:trigger Agrees(v5, store, keys, n, now, k)} :: Agrees(v5, store, keys, n, now, k)
    ensures key in now && !StepFor(v5, now, key).Fail?
    ensures StepFor(v5, now, key).Drop? <==> Leaves(v5, store, keys[..n], key)
  {
    StillThere(v5, store, keys, n, key);
    assert Agrees(v5, store, keys, n, now, key);
    if key.RecordKey? && key.kind == SentPubrel {
      var p := RestorePacket(key.v5, store[key]);
      if p.Some? && p.value.AckPacket? {
        PublishGone(v5, store, keys, n, now, RecordKey(SentPublish, v5, p.value.msgid));
      }
    }
  }

  /** A PUBLISH is missing when it was not there, or has been looked at and could not be parsed. */
  lemma PublishGone(v5: bool, store: Store, keys: seq<RecordKey>, n: nat, now: Store, publish: RecordKey)
    requires n <= |keys| && publish.RecordKey? && publish.kind == SentPublish && Agrees(v5, store, keys, n, now, publish)
    ensures publish !in now <==> publish !in store || (publish in keys[..n] && Unreadable(store, publish))
  {
    if publish in store && publish in keys[..n] && Unreadable(store, publish) {
      var i: nat :| i < n && keys[..n][i] == publish;
      assert LeavesAt(v5, store, keys, i, publish);
    }
    if publish in store && publish !in now {
      var i: nat :| i < n && LeavesAt(v5, store, keys, i, publish);
      assert keys[..n][i] == publish;
    }
  }

  lemma StaysNext(v5: bool, store: Store, keys: seq<RecordKey>, n: nat, now: Store, after: Store, key: RecordKey, k: RecordKey)
    requires n < |keys| && key == keys[n] && Agrees(v5, store, keys, n, now, k)
    requires after == if Leaves(v5, store, keys[..n], key) then now - {key} else now
    ensures Agrees(v5, store, keys, n + 1, after, k)
  {
    assert LeavesAt(v5, store, keys, n, k) <==> k == key && Leaves(v5, store, keys[..n], key);
  }

  lemma {:induction false} StoreNext(v5: bool, store: Store, keys: seq<RecordKey>, n: nat, n': nat, s: Restoring, after: Restoring)
    requires Enumerates(keys, store) && n < n' == n + 1 <= |keys| && !s.failed && (v5 || !OfVersion5(keys[n]))
    requires s == RestoreUpTo(v5, store, keys, n) && after == RestoreUpTo(v5, store, keys, n')
    requires forall k {:trigger Agrees(v5, store, keys, n, s.store, k)} :: Agrees(v5, store, keys, n, s.store, k)
    ensures !after.failed
    ensures forall k {:trigger Agrees(v5, store, keys, n', after.store, k)} :: Agrees(v5, store, keys, n', after.store, k)
  {
    var key := keys[n];
    StepLeaves(v5, store, keys, n, s.store, key);
    forall k ensures Agrees(v5, store, keys, n', after.store, k) {
      StaysNext(v5, store, keys, n, s.store, after.store, key, k);
    }
  }

  lemma {:induction false} UpToNext(v5: bool, store: Store, keys: seq<RecordKey>, n: nat)
    requires Enumerates(keys, store) && n < |keys| && UpTo(v5, store, keys, n)
    ensures UpTo(v5, store, keys, n + 1)
  {
    var s, after, key := RestoreUpTo(v5, store, keys, n), RestoreUpTo(v5, store, keys, n + 1), keys[n];
    if !s.failed && (v5 || !OfVersion5(key)) {
      StoreNext(v5, store, keys, n, n + 1, s, after);
    } else if !s.failed {
      StillThere(v5, store, keys, n, key);
      assert Agrees(v5, store, keys, n, s.store, key);
    }
  }

  lemma {:induction false} UpToAll(v5: bool, store: Store, keys: seq<RecordKey>, n: nat)
    requires Enumerates(keys, store) && n <= |keys|
    ensures UpTo(v5, store, keys, n)
  {
    if n > 0 {
      UpToAll(v5, store, keys, n - 1);
      UpToNext(v5, store, keys, n - 1);
    } else {
      forall key ensures Agrees(v5, store, keys, 0, store, key) {
      }
    }
  }

  // ----- The outcome -----

  /** On every store and whatever order its keys come in, the restore reports an error if and only if the
      client is one below version 5 and a session record of version 5 is in the store. */
  lemma RestoreFails(v5: bool, store: Store, keys: seq<RecordKey>)
    requires Enumerates(keys, store)
    ensures Restored(v5, store, keys) == None <==> !v5 && exists key :: key in store && OfVersion5(key)
  {
    UpToAll(v5, store, keys, |keys|);
    if exists key :: key in store && OfVersion5(key) {
      var key :| key in store && OfVersion5(key);
      assert key in keys;
    }
  }

  /** When it succeeds, the records that leave are those that cannot be parsed, and the PUBRELs without a
      PUBLISH of the client's own version; whether a PUBLISH that cannot be parsed still counts depends on
      which of the two comes first. */
  lemma WhatLeaves(v5: bool, store: Store, keys: seq<RecordKey>, key: RecordKey)
    requires Enumerates(keys, store) && Restored(v5, store, keys).Some?
    ensures var left := Restored(v5, store, keys).value.store;
            && (key in left <==> key in store && !exists i: nat {:trigger keys[i]} :: i < |keys| && keys[i] == key && Leaves(v5, store, keys[..i], key))
            && (key in left ==> left[key] == store[key])
  {
    UpToAll(v5, store, keys, |keys|);
    assert Agrees(v5, store, keys, |keys|, Restored(v5, store, keys).value.store, key);
    assert forall i: nat :: i < |keys| ==> (LeavesAt(v5, store, keys, i, key) <==> keys[i] == key && Leaves(v5, store, keys[..i], key));
  }
}
