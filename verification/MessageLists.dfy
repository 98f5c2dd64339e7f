/** Lists of in-flight messages, looked up by message id. */
module MessageLists {
  import opened Wrappers
  import opened Types
  import opened MessageIds
  import opened LinkedList

  /** The place of the first message with this id, or |s|. */
  function IndexOf(s: seq<Message>, id: int): (k: nat)
    ensures k <= |s|
    ensures k < |s| ==> s[k].msgid == id
    ensures forall i :: 0 <= i < k ==> s[i].msgid != id
  {
    if s == [] then 0
    else if s[0].msgid == id then 0
    else
      var k := IndexOf(s[1..], id);
      assert forall i :: 0 < i < k + 1 ==> s[i] == s[1..][i - 1];
      k + 1
  }

  function Find(s: seq<Message>, id: int): (m: Option<Message>)
    ensures m.Some? ==> m.value.msgid == id
  {
    if IndexOf(s, id) < |s| then Some(s[IndexOf(s, id)]) else None
  }

  ghost predicate DistinctIds(s: seq<Message>) {
    && (forall i :: 0 <= i < |s| ==> IsId(s[i].msgid))
    && (forall i, j :: 0 <= i < j < |s| ==> s[i].msgid != s[j].msgid)
  }

  /** The ids of a list. */
  function IdsOf(s: seq<Message>): set<int> {
    set i | 0 <= i < |s| :: s[i].msgid
  }

  lemma NotInUse(s: seq<Message>, id: int)
    ensures id !in IdsOf(s) <==> Find(s, id) == None
  {
  }

  function Without(s: seq<Message>, k: nat): seq<Message>
    requires k < |s|
  {
    LinkedList.Without(s, k)
  }

  lemma {:induction false} FindIs(s: seq<Message>, k: nat)
    requires DistinctIds(s) && k < |s|
    ensures Find(s, s[k].msgid) == Some(s[k]) && IndexOf(s, s[k].msgid) == k
  {
    var j := IndexOf(s, s[k].msgid);
    assert j <= k;
  }

  lemma FindAppend(s: seq<Message>, m: Message, id: int)
    requires DistinctIds(s) && IsId(m.msgid) && Find(s, m.msgid) == None
    ensures DistinctIds(s + [m])
    ensures Find(s + [m], id) == if id == m.msgid then Some(m) else Find(s, id)
  {
    var r, k := s + [m], IndexOf(s, id);
    if id == m.msgid {
      FindIs(r, |s|);
    } else if k < |s| {
      assert r[k] == s[k];
      FindIs(r, k);
    } else {
      assert IndexOf(r, id) == |r|;
    }
  }

  lemma FindWithout(s: seq<Message>, k: nat, id: int)
    requires DistinctIds(s) && k < |s|
    ensures DistinctIds(Without(s, k))
    ensures Find(Without(s, k), id) == if id == s[k].msgid then None else Find(s, id)
  {
    var r, j := Without(s, k), IndexOf(s, id);
    if id != s[k].msgid && j < |s| {
      assert r[if j < k then j else j - 1] == s[j];
      FindIs(r, if j < k then j else j - 1);
    } else {
      assert IndexOf(r, id) == |r|;
    }
  }

  lemma FindReplaced(s: seq<Message>, k: nat, m: Message, id: int)
    requires DistinctIds(s) && k < |s| && m.msgid == s[k].msgid
    ensures DistinctIds(s[k := m])
    ensures Find(s[k := m], id) == if id == m.msgid then Some(m) else Find(s, id)
  {
    var r, j := s[k := m], IndexOf(s, id);
    assert forall i :: 0 <= i < |s| ==> r[i].msgid == s[i].msgid;
    if j < |s| {
      FindIs(r, j);
      FindIs(s, k);
    } else {
      assert IndexOf(r, id) == |r|;
    }
  }

  /** Lists of distinct ids that agree on every id hold the same messages. */
  lemma {:induction false} SameFindSameMessages(s: seq<Message>, t: seq<Message>)
    requires DistinctIds(s) && DistinctIds(t)
    requires forall id {:trigger Find(s, id)} {:trigger Find(t, id)} :: Find(s, id) == Find(t, id)
    ensures multiset(s) == multiset(t)
    decreases |s|
  {
    if s == [] {
      if t != [] {
        FindIs(t, 0);
      }
    } else {
      FindIs(s, 0);
      assert Find(t, s[0].msgid) == Some(s[0]);
      var k := IndexOf(t, s[0].msgid);
      var s', t' := Without(s, 0), Without(t, k);
      assert DistinctIds(s') && DistinctIds(t') by {
        FindWithout(s, 0, 0);
        FindWithout(t, k, 0);
      }
      forall id ensures Find(s', id) == Find(t', id) {
        FindWithout(s, 0, id);
        FindWithout(t, k, id);
      }
      SameFindSameMessages(s', t');
      WithoutMultiset(s, 0);
      WithoutMultiset(t, k);
    }
  }

  lemma WithoutMultiset(s: seq<Message>, k: nat)
    requires k < |s|
    ensures multiset(s) == multiset(Without(s, k)) + multiset{s[k]}
  {
    assert s == s[..k] + [s[k]] + s[k + 1..];
    assert Without(s, k) == s[..k] + s[k + 1..];
  }
}
