/** Every handler keeps the store in step with the session -- with one exception, whose extent is
    exactly determined. */
module SessionSync {
  import opened Wrappers
  import opened Types
  import opened MessageIds
  import opened MessageLists
  import opened Keys
  import opened Packets
  import opened Session

  /** c' differs from c at most in what concerns one id. */
  ghost predicate OnlyAt(c: Client, c': Client, id: nat) {
    && c'.v5 == c.v5
    && (forall j: nat {:trigger Find(c'.outbound, j)} :: j != id ==> Find(c'.outbound, j) == Find(c.outbound, j))
    && (forall j: nat {:trigger Find(c'.inbound, j)} :: j != id ==> Find(c'.inbound, j) == Find(c.inbound, j))
    && (forall k: RecordKey {:trigger k in c'.store} {:trigger k in c.store} :: (k.RecordKey? ==> k.id != id) ==>
          (k in c'.store <==> k in c.store) && (k in c.store ==> c'.store[k] == c.store[k]))
  }

  lemma SyncedElsewhere(c: Client, c': Client, id: nat)
    requires Synced(c) && OnlyAt(c, c', id) && Valid(c')
    requires forall k: RecordKey :: k in c'.store && k.RecordKey? && k.id == id ==> k.v5 == c.v5 && IsId(id)
    requires SentAgrees(c', id) && ReceivedAgrees(c', id)
    ensures Synced(c')
  {
    forall j: nat ensures SentAgrees(c', j) && ReceivedAgrees(c', j) {
      if j != id {
        assert SentAgrees(c, j) && ReceivedAgrees(c, j);
        assert Find(c'.outbound, j) == Find(c.outbound, j) && Find(c'.inbound, j) == Find(c.inbound, j);
      }
    }
  }

  lemma StartPublishKeepsSync(c: Client, qos: int, id: nat, content: Content)
    requires Synced(c) && 1 <= qos <= 2 && IsId(id) && Encodable(c.v5, qos, id, content)
    requires Find(c.outbound, id) == None
    ensures Synced(StartPublish(c, qos, id, content).client)
  {
    var c' := StartPublish(c, qos, id, content).client;
    var m := Message(id, qos, content, AwaitPubrec);
    forall j: nat ensures Find(c'.outbound, j) == if j == id then Some(m) else Find(c.outbound, j) {
      FindAppend(c.outbound, m, j);
    }
    FindAppend(c.outbound, m, id);
    assert SentAgrees(c, id) && ReceivedAgrees(c, id);
    assert IsRecordOf(c.v5, qos, id, content, PublishRecord(c.v5, false, qos, id, content));
    SyncedElsewhere(c, c', id);
  }

  /** A message taken out of the outbound list together with its records. */
  lemma CompletionKeepsSync(c: Client, k: nat)
    requires Synced(c) && k < |c.outbound|
    ensures Synced(c.(outbound := Without(c.outbound, k), store := RemoveSent(c.store, c.outbound[k].msgid)))
  {
    var id := c.outbound[k].msgid;
    var c' := c.(outbound := Without(c.outbound, k), store := RemoveSent(c.store, id));
    forall j: nat ensures Find(c'.outbound, j) == if j == id then None else Find(c.outbound, j) {
      FindWithout(c.outbound, k, j);
    }
    FindWithout(c.outbound, k, id);
    WithoutKeeps(c.v5, c.outbound, k);
    assert ReceivedAgrees(c, id);
    SyncedElsewhere(c, c', id);
  }

  lemma WithoutKeeps(v5: bool, s: seq<Message>, k: nat)
    requires ValidOutbound(v5, s) && k < |s|
    ensures ValidOutbound(v5, Without(s, k))
  {
    FindWithout(s, k, 0);
    var r := Without(s, k);
    assert forall i :: 0 <= i < |r| ==> r[i] == s[if i < k then i else i + 1];
  }

  lemma PubackKeepsSync(c: Client, id: nat)
    requires Synced(c)
    ensures Synced(HandlePuback(c, id).client)
  {
    var k := IndexOf(c.outbound, id);
    if k < |c.outbound| {
      CompletionKeepsSync(c, k);
    }
  }

  lemma PubcompKeepsSync(c: Client, id: nat)
    requires Synced(c)
    ensures Synced(HandlePubcomp(c, id).client)
  {
    var k := IndexOf(c.outbound, id);
    if k < |c.outbound| {
      CompletionKeepsSync(c, k);
    }
  }

  /** A message in flight whose PUBREC came, with its PUBREL record. */
  lemma AcknowledgeKeepsSync(c: Client, k: nat)
    requires Synced(c) && k < |c.outbound|
    ensures var m := c.outbound[k];
            Synced(c.(outbound := c.outbound[k := m.(next := if m.qos == 2 then AwaitPubcomp else m.next)],
                      store := PutPubrel(c.store, c.v5, m.msgid)))
  {
    var m := c.outbound[k];
    var id, m' := m.msgid, m.(next := if m.qos == 2 then AwaitPubcomp else m.next);
    var c' := c.(outbound := c.outbound[k := m'], store := PutPubrel(c.store, c.v5, id));
    FindIs(c.outbound, k);
    assert SentAgrees(c, id) && ReceivedAgrees(c, id);
    forall j: nat ensures Find(c'.outbound, j) == if j == id then Some(m') else Find(c.outbound, j) {
      FindReplaced(c.outbound, k, m', j);
    }
    FindReplaced(c.outbound, k, m', id);
    SyncedElsewhere(c, c', id);
  }

  /** The exception: a PUBREC for an id that is not in flight leaves a PUBREL record behind.  For all
      sessions and ids, the store stays in step if and only if the id is in flight. */
  lemma PubrecKeepsSync(c: Client, id: nat, reason: Byte)
    requires Synced(c)
    ensures Synced(HandlePubrec(c, id, reason).client) <==> Find(c.outbound, id).Some?
  {
    var k := IndexOf(c.outbound, id);
    var c' := HandlePubrec(c, id, reason).client;
    if k == |c.outbound| {
      assert RecordKey(SentPubrel, c.v5, id) in c'.store;
      assert !SentAgrees(c', id);
    } else {
      var m := c.outbound[k];
      if m.qos == 2 && m.next == AwaitPubrec && c.v5 && reason >= UNSPECIFIED_ERROR {
        CompletionKeepsSync(c, k);
      } else {
        AcknowledgeKeepsSync(c, k);
        assert m.next != AwaitPubrel;
        assert c.outbound[k := m] == c.outbound;
      }
    }
  }

  /** What the exception can lead to: an answered stray PUBREC, then a new message of that id, and
      the store describes the message as already acknowledged while the session still waits. */
  lemma StrayPubrecMisleads(c: Client, id: nat, content: Content)
    requires Synced(c) && IsId(id) && Find(c.outbound, id) == None && Encodable(c.v5, 2, id, content)
    ensures var c' := StartPublish(HandlePubrec(c, id, 0).client, 2, id, content).client;
            && Find(c'.outbound, id) == Some(Message(id, 2, content, AwaitPubrec))
            && RecordKey(SentPublish, c.v5, id) in c'.store
            && RecordKey(SentPubrel, c.v5, id) in c'.store
  {
    FindAppend(c.outbound, Message(id, 2, content, AwaitPubrec), id);
  }

  lemma RetryKeepsSync(c: Client, k: nat)
    requires Synced(c) && k < |c.outbound|
    ensures Synced(Retry(c, k).client)
  {
    var m, c' := c.outbound[k], Retry(c, k).client;
    FindIs(c.outbound, k);
    assert SentAgrees(c, m.msgid) && ReceivedAgrees(c, m.msgid);
    assert IsRecordOf(c.v5, m.qos, m.msgid, m.content, PublishRecord(c.v5, true, m.qos, m.msgid, m.content));
    SyncedElsewhere(c, c', m.msgid);
  }

  lemma StillStorable(c: Client, d: Client)
    requires AllStorable(c.v5, c.outbound) && d.v5 == c.v5 && d.outbound == c.outbound
    ensures AllStorable(d.v5, d.outbound)
  {
  }

  lemma RetryFromFirst(c: Client, k: nat)
    requires k < |c.outbound| && AllStorable(c.v5, c.outbound)
    ensures var rest := RetryFrom(Retry(c, k).client, k + 1);
            RetryFrom(c, k) == Effect(rest.client, [RetryPacket(c.outbound[k])] + rest.sent, [])
  {
  }

  lemma RetryPast(c: Client, k: nat, n: nat, whole: Client) returns (d: Client)
    requires k < |c.outbound| && n == k + 1 && AllStorable(c.v5, c.outbound) && whole == RetryFrom(c, k).client
    ensures d.v5 == c.v5 && d.outbound == c.outbound && AllStorable(d.v5, d.outbound) && whole == RetryFrom(d, n).client
  {
    RetryFromFirst(c, k);
    d := Retry(c, k).client;
  }

  /** A retry comes to every message. */
  lemma {:induction false} RetryComesTo(c: Client, k: nat, i: nat, whole: Client) returns (d: Client)
    requires k <= i < |c.outbound| && AllStorable(c.v5, c.outbound) && whole == RetryFrom(c, k).client
    ensures d.v5 == c.v5 && d.outbound == c.outbound && AllStorable(d.v5, d.outbound) && whole == RetryFrom(d, i).client
    decreases i - k
  {
    d := c;
    if k < i {
      var next := RetryPast(c, k, k + 1, whole);
      d := RetryComesTo(next, k + 1, i, whole);
    }
  }

  /** What every single retry keeps, the whole retry keeps. */
  lemma {:induction false} RetryFromKeeps(c: Client, k: nat, kept: Client -> bool)
    requires kept(c) && AllStorable(c.v5, c.outbound) && k <= |c.outbound|
    requires forall d: Client, j: nat {:trigger Retried(d, j)} :: kept(d) && CanRetry(d, j) ==> kept(Retried(d, j))
    ensures kept(RetryFrom(c, k).client)
    decreases |c.outbound| - k
  {
    if k < |c.outbound| {
      RetryFromFirst(c, k);
      assert kept(Retried(c, k));
      RetryFromKeeps(Retried(c, k), k + 1, kept);
    }
  }

  ghost predicate CanRetry(c: Client, k: nat) {
    k < |c.outbound| && AllStorable(c.v5, c.outbound)
  }

  ghost function Retried(c: Client, k: nat): Client {
    if CanRetry(c, k) then Retry(c, k).client else c
  }

  lemma {:induction false} RetryFromKeepsSync(c: Client, k: nat)
    requires Synced(c) && k <= |c.outbound|
    ensures Synced(RetryFrom(c, k).client)
  {
    var kept := (d: Client) => Synced(d);
    forall d: Client, j: nat | kept(d) && CanRetry(d, j) ensures kept(Retried(d, j)) {
      RetryKeepsSync(d, j);
    }
    RetryFromKeeps(c, k, kept);
  }

  /** The packets that retry messages k, k + 1, ... of a list. */
  ghost function RetryPackets(v5: bool, s: seq<Message>, k: nat): (ps: seq<WirePacket>)
    requires k <= |s| && AllStorable(v5, s)
    ensures |ps| == |s| - k
  {
    seq(|s| - k, i requires 0 <= i < |s| - k => assert Storable(v5, s[k + i]); RetryPacket(s[k + i]))
  }

  lemma RetryPacketsFirst(v5: bool, s: seq<Message>, k: nat)
    requires k < |s| && AllStorable(v5, s) && Storable(v5, s[k])
    ensures RetryPackets(v5, s, k) == [RetryPacket(s[k])] + RetryPackets(v5, s, k + 1)
  {
    var all, rest := RetryPackets(v5, s, k), RetryPackets(v5, s, k + 1);
    forall i | 0 <= i < |rest| ensures rest[i] == all[i + 1] {
      assert Storable(v5, s[k + 1 + i]);
    }
    FirstAndRest(all, rest, RetryPacket(s[k]));
  }

  lemma FirstAndRest(all: seq<WirePacket>, rest: seq<WirePacket>, first: WirePacket)
    requires |all| == |rest| + 1 && all[0] == first && forall i :: 0 <= i < |rest| ==> rest[i] == all[i + 1]
    ensures all == [first] + rest
  {
  }

  /** After a reconnect exactly one packet goes out per outbound message, in list order; ids, order
      and stages stay what they were. */
  lemma {:induction false} RetryFromSendsEach(c: Client, k: nat)
    requires k <= |c.outbound| && AllStorable(c.v5, c.outbound)
    ensures var e := RetryFrom(c, k);
            && e.sent == RetryPackets(c.v5, c.outbound, k) && |e.sent| == |c.outbound| - k
            && e.client == c.(store := e.client.store)
            && e.delivered == []
    decreases |c.outbound| - k
  {
    if k < |c.outbound| {
      RetryFromFirst(c, k);
      RetryFromSendsEach(Retry(c, k).client, k + 1);
      RetryPacketsFirst(c.v5, c.outbound, k);
    } else {
      assert RetryPackets(c.v5, c.outbound, k) == [];
    }
  }

  lemma PublishKeepsSync(c: Client, dup: bool, qos: int, id: nat, content: Content)
    requires Synced(c) && 0 <= qos <= 2 && (qos == 2 ==> IsId(id)) && Encodable(c.v5, qos, id, content)
    ensures Synced(HandlePublish(c, dup, qos, id, content).client)
  {
    if qos == 2 {
      var c' := HandlePublish(c, dup, qos, id, content).client;
      var m, k := Message(id, 2, content, AwaitPubrel), IndexOf(c.inbound, id);
      forall j: nat ensures Find(c'.inbound, j) == if j == id then Some(m) else Find(c.inbound, j) {
        if k < |c.inbound| {
          FindReplaced(c.inbound, k, m, j);
        } else {
          FindAppend(c.inbound, m, j);
        }
      }
      if k < |c.inbound| {
        FindReplaced(c.inbound, k, m, id);
      } else {
        FindAppend(c.inbound, m, id);
      }
      assert SentAgrees(c, id);
      assert IsRecordOf(c.v5, 2, id, content, PublishRecord(c.v5, dup, 2, id, content));
      SyncedElsewhere(c, c', id);
    }
  }

  /** A received message let go together with its record. */
  lemma ReleaseKeepsSync(c: Client, k: nat)
    requires Synced(c) && k < |c.inbound|
    ensures Synced(c.(inbound := Without(c.inbound, k), store := RemoveReceived(c.store, c.inbound[k].msgid)))
  {
    var id := c.inbound[k].msgid;
    var c' := c.(inbound := Without(c.inbound, k), store := RemoveReceived(c.store, id));
    forall j: nat ensures Find(c'.inbound, j) == if j == id then None else Find(c.inbound, j) {
      FindWithout(c.inbound, k, j);
    }
    FindWithout(c.inbound, k, id);
    assert forall i :: 0 <= i < |c'.inbound| ==> c'.inbound[i] == c.inbound[if i < k then i else i + 1];
    assert SentAgrees(c, id);
    SyncedElsewhere(c, c', id);
  }

  lemma PubrelKeepsSync(c: Client, id: nat)
    requires Synced(c)
    ensures Synced(HandlePubrel(c, id).client)
  {
    var k := IndexOf(c.inbound, id);
    if k < |c.inbound| {
      ReleaseKeepsSync(c, k);
    }
  }
}
