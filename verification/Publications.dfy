/** The publications whose topic and payload are kept in memory: state.publications holds exactly
    those some message or pending write refers to, each once (src/MQTTProtocolClient.c,
    src/MQTTAsyncUtils.c). */
module Publications {
  import opened Wrappers
  import opened LinkedList

  /** How often p occurs. */
  function Count(s: seq<int>, p: int): nat {
    if s == [] then 0 else Count(s[..|s| - 1], p) + (if s[|s| - 1] == p then 1 else 0)
  }

  lemma {:induction false} CountAppend(s: seq<int>, x: int, p: int)
    ensures Count(s + [x], p) == Count(s, p) + (if x == p then 1 else 0)
  {
    assert (s + [x])[..|s|] == s;
  }

  /** A publication that nothing refers to, stored and referred to by one more element. */
  lemma {:induction false} BothAppended(pubs: seq<int>, s: seq<int>, p: int, q: int, others: nat)
    requires p != 0 && Count(pubs, p) == 0
    requires q != 0 ==> Count(pubs, q) == Count(s, q) + others <= 1
    ensures q != 0 ==> Count(pubs + [p], q) == Count(s + [p], q) + others <= 1
  {
    CountAppend(pubs, p, q);
    CountAppend(s, p, q);
  }

  lemma {:induction false} CountWithout(s: seq<int>, k: nat, p: int)
    requires k < |s|
    ensures Count(s, p) == Count(Without(s, k), p) + (if s[k] == p then 1 else 0)
  {
    if k == |s| - 1 {
      assert Without(s, k) == s[..k];
    } else {
      CountWithout(s[..|s| - 1], k, p);
      assert Without(s, k) == Without(s[..|s| - 1], k) + [s[|s| - 1]];
      CountAppend(Without(s[..|s| - 1], k), s[|s| - 1], p);
    }
  }

  lemma {:induction false} CountReplaced(s: seq<int>, k: nat, x: int, p: int)
    requires k < |s|
    ensures Count(s[k := x], p) == Count(s, p) - (if s[k] == p then 1 else 0) + (if x == p then 1 else 0)
  {
    if k == |s| - 1 {
      assert s[k := x][..k] == s[..k];
    } else {
      CountReplaced(s[..|s| - 1], k, x, p);
      assert s[k := x][..|s| - 1] == s[..|s| - 1][k := x];
    }
  }

  lemma {:induction false} CountMember(s: seq<int>, k: nat)
    requires k < |s|
    ensures Count(s, s[k]) >= 1
  {
    if k < |s| - 1 {
      CountMember(s[..|s| - 1], k);
    }
  }

  lemma {:induction false} CountConcat(a: seq<int>, b: seq<int>, p: int)
    ensures Count(a + b, p) == Count(a, p) + Count(b, p)
  {
    if b == [] {
      assert a + b == a;
    } else {
      var rest, last := b[..|b| - 1], b[|b| - 1];
      CountConcat(a, rest, p);
      assert a + b == (a + rest) + [last];
      CountAppend(a + rest, last, p);
    }
  }

  lemma {:induction false} CountInserted(s: seq<int>, x: int, k: nat, p: int)
    requires k <= |s|
    ensures Count(Inserted(s, x, k), p) == Count(s, p) + (if x == p then 1 else 0)
  {
    var t := Inserted(s, x, k);
    CountWithout(t, k, p);
    assert Without(t, k) == s;
  }

  lemma {:induction false} CountTurned(s: seq<int>, k: nat, p: int)
    requires k <= |s|
    ensures Count(s[k..] + s[..k], p) == Count(s, p)
  {
    CountConcat(s[k..], s[..k], p);
    CountConcat(s[..k], s[k..], p);
    assert s[..k] + s[k..] == s;
  }

  lemma {:induction false} CountFirst(s: seq<int>, i: nat, p: int)
    requires i < |s|
    ensures Count(s[i..], p) == Count(s[i + 1..], p) + (if s[i] == p then 1 else 0)
  {
    CountWithout(s[i..], 0, p);
    assert Without(s[i..], 0) == s[i + 1..];
  }

  class PublicationState {
    /** state.publications; a number stands for an address, 0 for NULL.  Every reference count in it
        is 1. */
    var publications: seq<int>
    /** The publication of each outbound message, of each inbound message (NULL when version 5 has
        handed it on), of each pending write. */
    var outbound: seq<int>
    var inbound: seq<int>
    var writes: seq<int>

    /** How many things refer to a publication. */
    ghost function References(p: int): nat
      reads this
    {
      Count(outbound, p) + Count(inbound, p) + Count(writes, p)
    }

    /** A publication is stored once if something refers to it, and not otherwise; nothing else refers
        to it then. */
    ghost predicate Right(p: int)
      reads this
    {
      p != 0 ==> Count(publications, p) == References(p) <= 1
    }

    /** Each publication referred to is stored once, and none is stored that nothing refers to. */
    ghost predicate Valid()
      reads this
    {
      forall p :: Right(p)
    }

    constructor ()
      ensures Valid()
    {
      publications, outbound, inbound, writes := [], [], [], [];
    }

    /** MQTTProtocol_storePublication, for memory not in use. */
    method StorePublication(p: int)
      modifies `publications
      ensures publications == old(publications) + [p]
    {
      publications := publications + [p];
    }

    /** MQTTProtocol_removePublication, or ListRemove from state.publications; NULL is passed over. */
    method RemovePublication(p: int)
      requires p != 0 ==> Count(publications, p) > 0
      modifies `publications
      ensures forall q {:trigger Count(publications, q)} ::
                Count(publications, q) == Count(old(publications), q) - (if p != 0 && q == p then 1 else 0)
    {
      if p != 0 {
        var k := FindPublication(p);
        forall q ensures Count(publications, q) == Count(Without(publications, k), q) + (if publications[k] == q then 1 else 0) {
          CountWithout(publications, k, q);
        }
        publications := Without(publications, k);
      }
    }

    method FindPublication(p: int) returns (k: nat)
      requires Count(publications, p) > 0
      ensures k < |publications| && publications[k] == p && p !in publications[..k]
    {
      k := 0;
      while k < |publications| && publications[k] != p
        invariant k <= |publications| && p !in publications[..k] && Count(publications[..k], p) == 0
      {
        assert publications[..k + 1] == publications[..k] + [publications[k]];
        CountAppend(publications[..k], publications[k], p);
        k := k + 1;
      }
      assert publications[..|publications|] == publications;
    }

    /** A QoS 1 or 2 message is sent. */
    method StartPublish(p: int)
      requires Valid() && p != 0 && Count(publications, p) == 0
      modifies this
      ensures Valid() && outbound == old(outbound) + [p] && inbound == old(inbound) && writes == old(writes)
    {
      StorePublication(p);
      outbound := outbound + [p];
      forall q ensures Right(q) {
        assert old(Right(q));
        BothAppended(old(publications), old(outbound), p, q, Count(inbound, q) + Count(writes, q));
      }
    }

    /** A QoS 0 message could not be written at once. */
    method StoreQoS0(p: int)
      requires Valid() && p != 0 && Count(publications, p) == 0
      modifies this
      ensures Valid() && writes == old(writes) + [p] && outbound == old(outbound) && inbound == old(inbound)
    {
      StorePublication(p);
      writes := writes + [p];
      forall q ensures Right(q) {
        assert old(Right(q));
        BothAppended(old(publications), old(writes), p, q, Count(outbound, q) + Count(inbound, q));
      }
    }

    /** createMessage for a stored outbound message; k is the place insertInOrder finds for it. */
    method RestoreOutbound(p: int, k: nat)
      requires Valid() && p != 0 && Count(publications, p) == 0 && k <= |outbound|
      modifies this
      ensures Valid() && outbound == Inserted(old(outbound), p, k) && inbound == old(inbound) && writes == old(writes)
    {
      StorePublication(p);
      outbound := Inserted(outbound, p, k);
      forall q ensures Right(q) {
        assert old(Right(q)) && old(Right(p));
        CountInserted(old(outbound), p, k, q);
        CountAppend(old(publications), p, q);
      }
    }

    /** createMessage for a stored inbound message: version 5 frees what the publication holds, but the
        publication itself stays, and the message refers to it. */
    method RestoreInbound(p: int)
      requires Valid() && p != 0 && Count(publications, p) == 0
      modifies this
      ensures Valid() && inbound == old(inbound) + [p] && outbound == old(outbound) && writes == old(writes)
    {
      StorePublication(p);
      inbound := inbound + [p];
      forall q ensures Right(q) {
        assert old(Right(q));
        BothAppended(old(publications), old(inbound), p, q, Count(outbound, q) + Count(writes, q));
      }
    }

    /** The outbound list is turned after the restore. */
    method TurnOutbound(k: nat)
      requires Valid() && k <= |outbound|
      modifies `outbound
      ensures Valid() && outbound == old(outbound)[k..] + old(outbound)[..k]
    {
      outbound := outbound[k..] + outbound[..k];
      forall q ensures Right(q) {
        assert old(Right(q));
        CountTurned(old(outbound), k, q);
      }
    }

    /** The publications of three lists are stored as they should be. */
    ghost predicate Held(s: seq<int>, t: seq<int>, u: seq<int>, q: int)
      reads `publications
    {
      q != 0 ==> Count(publications, q) == Count(s, q) + Count(t, q) + Count(u, q) <= 1
    }

    /** The loop of emptyMessageList: one by one the messages give up their publications; others, others'
        are the other lists. */
    method GiveUpAll(msgList: seq<int>, ghost others: seq<int>, ghost others': seq<int>)
      requires forall q :: Held(msgList, others, others', q)
      modifies `publications
      ensures forall q :: Held([], others, others', q)
    {
      var i := 0;
      assert msgList[0..] == msgList;
      while i < |msgList|
        invariant i <= |msgList| && forall q :: Held(msgList[i..], others, others', q)
      {
        GiveUp(msgList, i, msgList[i..], msgList[i + 1..], others, others');
        i := i + 1;
      }
      assert msgList[i..] == [];
    }

    method GiveUp(msgList: seq<int>, i: nat, ghost left: seq<int>, ghost left': seq<int>, ghost others: seq<int>, ghost others': seq<int>)
      requires i < |msgList| && left == msgList[i..] && left' == msgList[i + 1..] && forall q :: Held(left, others, others', q)
      modifies `publications
      ensures forall q :: Held(left', others, others', q)
    {
      CountFirst(msgList, i, msgList[i]);
      assert Held(left, others, others', msgList[i]);
      RemovePublication(msgList[i]);
      forall q ensures Held(left', others, others', q) {
        assert old(Held(left, others, others', q));
        CountFirst(msgList, i, q);
      }
    }

    /** emptyMessageList of the outbound list. */
    method EmptyOutbound()
      requires Valid()
      modifies this
      ensures Valid() && outbound == [] && inbound == old(inbound) && writes == old(writes)
    {
      forall q ensures Held(outbound, inbound, writes, q) {
        assert Right(q);
      }
      GiveUpAll(outbound, inbound, writes);
      outbound := [];
      forall q ensures Right(q) {
        assert Held([], inbound, writes, q);
      }
    }

    /** emptyMessageList of the inbound list. */
    method EmptyInbound()
      requires Valid()
      modifies this
      ensures Valid() && inbound == [] && outbound == old(outbound) && writes == old(writes)
    {
      forall q ensures Held(inbound, outbound, writes, q) {
        assert Right(q);
      }
      GiveUpAll(inbound, outbound, writes);
      inbound := [];
      forall q ensures Right(q) {
        assert Held([], outbound, writes, q);
      }
    }

    /** An outbound message is completed. */
    method Complete(k: nat)
      requires Valid() && k < |outbound|
      modifies this
      ensures Valid() && outbound == Without(old(outbound), k) && inbound == old(inbound) && writes == old(writes)
    {
      CountMember(outbound, k);
      assert Right(outbound[k]);
      RemovePublication(outbound[k]);
      outbound := Without(outbound, k);
      forall q ensures Right(q) {
        assert old(Right(q));
        CountWithout(old(outbound), k, q);
      }
    }

    /** A QoS 2 message is received; known is the place of one of the same id, whose publication is
        discarded.  Version 5 hands a new one on at once and keeps nothing of it. */
    method Receive(v5: bool, p: int, known: Option<nat>)
      requires Valid() && p != 0 && Count(publications, p) == 0 && (known.Some? ==> known.value < |inbound|)
      modifies this
      ensures Valid() && outbound == old(outbound) && writes == old(writes)
      ensures inbound == if known.Some? then old(inbound)[known.value := p] else old(inbound) + [if v5 then 0 else p]
    {
      StorePublication(p);
      forall q ensures Extra(p, q) {
        assert old(Right(q)) && old(Right(p));
        CountAppend(old(publications), p, q);
      }
      if known.Some? {
        ReplaceKept(p, known.value);
      } else {
        Keep(p, if v5 then 0 else p);
      }
    }

    /** p is stored and nothing refers to it yet; the rest is as it should be. */
    ghost predicate Extra(p: int, q: int)
      reads this
    {
      q != 0 ==> Count(publications, q) == References(q) + (if q == p then 1 else 0) <= 1
    }

    /** The new message keeps p, or hands it on. */
    method Keep(p: int, kept: int)
      requires p != 0 && (kept == p || kept == 0) && forall q :: Extra(p, q)
      modifies this
      ensures Valid() && inbound == old(inbound) + [kept] && outbound == old(outbound) && writes == old(writes)
    {
      inbound := inbound + [kept];
      if kept == 0 {
        assert old(Extra(p, p));
        RemovePublication(p);
      }
      forall q ensures Right(q) {
        assert old(Extra(p, q));
        CountAppend(old(inbound), kept, q);
      }
    }

    /** Between storing the new publication and discarding the old one. */
    method ReplaceKept(p: int, k: nat)
      requires p != 0 && k < |inbound| && forall q :: Extra(p, q)
      modifies this
      ensures Valid() && inbound == old(inbound)[k := p] && outbound == old(outbound) && writes == old(writes)
    {
      CountMember(inbound, k);
      assert Extra(p, inbound[k]);
      RemovePublication(inbound[k]);
      inbound := inbound[k := p];
      forall q ensures Right(q) {
        assert old(Extra(p, q));
        CountReplaced(old(inbound), k, p, q);
      }
    }

    /** Its PUBREL comes. */
    method Release(k: nat)
      requires Valid() && k < |inbound|
      modifies this
      ensures Valid() && inbound == Without(old(inbound), k) && outbound == old(outbound) && writes == old(writes)
    {
      CountMember(inbound, k);
      assert Right(inbound[k]);
      RemovePublication(inbound[k]);
      inbound := Without(inbound, k);
      forall q ensures Right(q) {
        assert old(Right(q));
        CountWithout(old(inbound), k, q);
      }
    }

    /** MQTTProtocol_checkPendingWrites: completed writes leave the list while it is walked. */
    method CheckPendingWrites(done: int -> bool)
      requires Valid()
      modifies this
      ensures Valid() && writes == Remaining(old(writes), done) && outbound == old(outbound) && inbound == old(inbound)
    {
      SweepAll(writes, done);
      var le := 0;
      while le < |writes|
        invariant le <= |writes| && Valid() && outbound == old(outbound) && inbound == old(inbound)
        invariant Sweep(writes, le, done) == Sweep(old(writes), 0, done)
        decreases |writes| - le
      {
        if done(writes[le]) {
          WriteDone(le);
        } else {
          le := le + 1;
        }
      }
    }

    method WriteDone(k: nat)
      requires Valid() && k < |writes|
      modifies this
      ensures Valid() && writes == Without(old(writes), k) && outbound == old(outbound) && inbound == old(inbound)
    {
      CountMember(writes, k);
      assert Right(writes[k]);
      RemovePublication(writes[k]);
      writes := Without(writes, k);
      forall q ensures Right(q) {
        assert old(Right(q));
        CountWithout(old(writes), k, q);
      }
    }
  }

  lemma {:induction false} SweepAll(c: seq<int>, p: int -> bool)
    ensures Sweep(c, 0, p) == Remaining(c, p)
  {
    SweepIsRemaining(c, 0, p);
    assert c[0..] == c && c[..0] + Remaining(c, p) == Remaining(c, p);
  }
}
