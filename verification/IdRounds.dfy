/** Whether the ids in flight still go once round the circle from the oldest message to the newest, as
    messages are sent and completed. */
module IdRounds {
  import opened Types
  import opened MessageIds
  import opened MessageLists
  import opened RestoreOrder

  /** Where the search for the next id starts from: 0, after a restart, counts like the last id. */
  function Latest(last: int): int {
    if last == 0 then MAX_MSG_ID else last
  }

  /** The list is in send order, and the last id assigned is not before that of its last message. */
  ghost predicate InRound(s: seq<Message>, last: int) {
    && SendOrder(s) && 0 <= last <= MAX_MSG_ID
    && (s != [] ==> Distance(s[0].msgid, s[|s| - 1].msgid) <= Distance(s[0].msgid, Latest(last)))
  }

  /** The oldest message in flight does not have the very next id: the ids from its own to the last
      assigned are fewer than the whole circle. */
  predicate Room(s: seq<Message>, last: int) {
    s == [] || Successor(Latest(last)) != s[0].msgid
  }

  /** Every id from the first to the last message of the list is in flight. */
  ghost predicate Solid(s: seq<Message>) {
    s == [] || forall id {:trigger id in IdsOf(s)} :: IsId(id) && Distance(s[0].msgid, id) <= Distance(s[0].msgid, s[|s| - 1].msgid) ==> id in IdsOf(s)
  }

  // ----- One message sent -----

  /** Appending to a list in send order. */
  lemma AppendedInOrder(s: seq<Message>, m: Message)
    requires SendOrder(s) && s != [] && IsId(m.msgid) && m.msgid !in IdsOf(s)
    ensures SendOrder(s + [m]) <==> Distance(s[0].msgid, s[|s| - 1].msgid) < Distance(s[0].msgid, m.msgid)
  {
    var t, n := s + [m], |s|;
    assert t[0] == s[0] && t[n - 1] == s[n - 1] && t[n] == m;
    if Distance(s[0].msgid, s[n - 1].msgid) < Distance(s[0].msgid, m.msgid) {
      forall i, j | 0 <= i < j < |t| ensures t[i].msgid != t[j].msgid && Distance(t[0].msgid, t[i].msgid) < Distance(t[0].msgid, t[j].msgid) {
        if j == n {
          assert s[i].msgid in IdsOf(s);
          assert i < n - 1 ==> Distance(s[0].msgid, s[i].msgid) < Distance(s[0].msgid, s[n - 1].msgid);
        }
      }
    } else if n > 0 {
      assert !(Distance(t[0].msgid, t[n - 1].msgid) < Distance(t[0].msgid, t[n].msgid));
    }
  }

  /** No id further round than the last message's is in flight. */
  lemma FurtherIsFree(s: seq<Message>, id: int)
    requires SendOrder(s) && s != [] && Distance(s[0].msgid, s[|s| - 1].msgid) < Distance(s[0].msgid, id)
    ensures id !in IdsOf(s)
  {
    forall i | 0 <= i < |s| ensures s[i].msgid != id {
      assert i < |s| - 1 ==> Distance(s[0].msgid, s[i].msgid) < Distance(s[0].msgid, s[|s| - 1].msgid);
    }
  }

  /** With room the next id is assigned, and it is further round than every one in flight. */
  lemma NextWithRoom(s: seq<Message>, last: int, id: int)
    requires InRound(s, last) && s != [] && Room(s, last) && id != 0 && IsFirstFree(IdsOf(s), last, id)
    ensures id == Successor(Latest(last)) && Distance(s[0].msgid, s[|s| - 1].msgid) < Distance(s[0].msgid, id)
  {
    var next := Successor(Latest(last));
    assert Distance(s[0].msgid, next) == Distance(s[0].msgid, Latest(last)) + 1;
    FurtherIsFree(s, next);
    assert Distance(last, next) == 1;
  }

  /** Without room the search starts at the oldest message in flight. */
  lemma NextWithoutRoom(s: seq<Message>, last: int, id: int)
    requires InRound(s, last) && s != [] && !Room(s, last) && id != 0 && IsFirstFree(IdsOf(s), last, id)
    ensures Distance(s[0].msgid, s[|s| - 1].msgid) < Distance(s[0].msgid, id) <==> Solid(s)
  {
    var first, newest := s[0].msgid, s[|s| - 1].msgid;
    if Distance(first, newest) < Distance(first, id) {
      forall h | IsId(h) && Distance(first, h) <= Distance(first, newest) ensures h in IdsOf(s) {
        if h == newest {
          assert s[|s| - 1].msgid in IdsOf(s);
        } else {
          assert h != last && Distance(last, h) < Distance(last, id);
        }
      }
    } else {
      assert id !in IdsOf(s) && IsId(id);
    }
  }

  /** Sending with the id assignment gives keeps the send order if and only if there is room, or every
      id between the oldest and the newest message is in flight. */
  lemma SendKeepsOrder(s: seq<Message>, last: int, m: Message)
    requires InRound(s, last) && m.msgid != 0 && IsFirstFree(IdsOf(s), last, m.msgid)
    ensures SendOrder(s + [m]) <==> Room(s, last) || Solid(s)
    ensures SendOrder(s + [m]) ==> InRound(s + [m], m.msgid)
  {
    if s == [] {
      assert s + [m] == [m];
    } else {
      AppendedInOrder(s, m);
      if Room(s, last) {
        NextWithRoom(s, last, m.msgid);
      } else {
        NextWithoutRoom(s, last, m.msgid);
      }
      assert (s + [m])[0] == s[0] && (s + [m])[|s|] == m;
    }
  }

  // ----- One message completed, or changed -----

  lemma CompletionKeepsOrder(s: seq<Message>, last: int, k: nat)
    requires InRound(s, last) && k < |s|
    ensures InRound(MessageLists.Without(s, k), last)
  {
    var t := MessageLists.Without(s, k);
    FindWithout(s, k, 0);
    forall i, j | 0 <= i < j < |t| ensures Distance(t[0].msgid, t[i].msgid) < Distance(t[0].msgid, t[j].msgid) {
      FromLater(s, if k == 0 then 1 else 0, if i < k then i else i + 1);
      FromLater(s, if k == 0 then 1 else 0, if j < k then j else j + 1);
    }
    if t != [] {
      NewestAfter(s, last, k);
    }
  }

  /** Seen from a later message, the ones after it are closer by the same distance. */
  lemma FromLater(s: seq<Message>, k: nat, i: nat)
    requires SendOrder(s) && k <= i < |s|
    ensures Distance(s[k].msgid, s[i].msgid) == Distance(s[0].msgid, s[i].msgid) - Distance(s[0].msgid, s[k].msgid)
  {
    assert k < i ==> Distance(s[0].msgid, s[k].msgid) < Distance(s[0].msgid, s[i].msgid);
  }

  lemma NewestAfter(s: seq<Message>, last: int, k: nat)
    requires InRound(s, last) && k < |s| && |s| > 1
    ensures var t := MessageLists.Without(s, k);
            Distance(t[0].msgid, t[|t| - 1].msgid) <= Distance(t[0].msgid, Latest(last))
  {
    var first, newest := if k == 0 then 1 else 0, if k == |s| - 1 then |s| - 2 else |s| - 1;
    assert Distance(s[0].msgid, s[newest].msgid) <= Distance(s[0].msgid, s[|s| - 1].msgid);
    FromLater(s, first, newest);
    assert first > 0 ==> Distance(s[0].msgid, s[first].msgid) <= Distance(s[0].msgid, s[|s| - 1].msgid);
  }

  lemma SameIdsKeepOrder(s: seq<Message>, t: seq<Message>, last: int)
    requires InRound(s, last) && |s| == |t| && forall i :: 0 <= i < |s| ==> t[i].msgid == s[i].msgid
    ensures InRound(t, last)
  {
    assert forall i :: 0 <= i < |s| ==> Distance(t[0].msgid, t[i].msgid) == Distance(s[0].msgid, s[i].msgid);
  }

  /** When the ids in flight have gone round to 1 and the search starts from 0 again, as after a restart,
      the next message keeps the send order if and only if every id from 1 to that of the last message is
      in flight and some id is left in front of the first message's. */
  lemma RestartAfterTurn(s: seq<Message>, m: Message)
    requires SendOrder(s) && s != [] && s[|s| - 1].msgid < s[0].msgid
    requires m.msgid != 0 && IsFirstFree(IdsOf(s), 0, m.msgid)
    ensures SendOrder(s + [m]) <==> AllInFlight(s, s[|s| - 1].msgid) && s[|s| - 1].msgid + 1 < s[0].msgid
  {
    AppendedInOrder(s, m);
    var newest := s[|s| - 1].msgid;
    assert newest in IdsOf(s) && s[0].msgid in IdsOf(s);
    if SendOrder(s + [m]) {
      forall id | 1 <= id <= newest ensures id in IdsOf(s) {
        assert Distance(0, id) < Distance(0, m.msgid);
      }
    } else if newest + 1 < s[0].msgid {
      FurtherIsFree(s, newest + 1);
      assert Distance(0, m.msgid) <= Distance(0, newest + 1);
    }
  }

  ghost predicate AllInFlight(s: seq<Message>, n: int) {
    forall id {:trigger id in IdsOf(s)} :: 1 <= id <= n ==> id in IdsOf(s)
  }
}
