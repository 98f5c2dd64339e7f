/** When a restored list is back in the order its messages were sent.

    Ids count round a circle of 65535, so a run of in-flight ids in send order may pass from 65535
    to 1.  The store forgets the order; inserting by id and rotating at the largest gap recovers it
    exactly when the gap from the last id sent round to the first is the one the rotation picks. */
module RestoreOrder {
  import opened Types
  import opened LinkedList
  import opened MessageIds
  import opened MessageOrder
  import opened MessageLists


  /** Each message's id is further round the circle from the first than its predecessor's. */
  ghost predicate SendOrder(s: seq<Message>) {
    && DistinctIds(s)
    && (forall i, j :: 0 <= i < j < |s| ==> Distance(s[0].msgid, s[i].msgid) < Distance(s[0].msgid, s[j].msgid))
  }

  ghost predicate Sorted(s: seq<Message>) {
    forall i, j :: 0 <= i < j < |s| ==> s[i].msgid < s[j].msgid
  }

  /** The gap in front of message i of a run in send order; in front of the first it is what the
      whole run leaves free. */
  function SendGap(s: seq<Message>, i: nat): int
    requires i < |s|
  {
    if i == 0 then MAX_MSG_ID - Distance(s[0].msgid, s[|s| - 1].msgid) else Distance(s[i - 1].msgid, s[i].msgid)
  }

  /** The rotation picks the first message of the run: no other gap is larger, and where one is
      equal the first message has the smaller id. */
  ghost predicate ClosingGapWins(s: seq<Message>) {
    forall i {:trigger SendGap(s, i)} :: 1 <= i < |s| ==>
      Beats(SendGap(s, 0), s[0].msgid, SendGap(s, i), s[i].msgid)
  }

  // ----- Insertion by id sorts -----

  lemma {:induction false} InsertAllSorts(t: seq<Message>)
    requires DistinctIds(t)
    ensures Sorted(InsertAll(t)) && multiset(InsertAll(t)) == multiset(t)
  {
    if t != [] {
      var s, m := t[..|t| - 1], t[|t| - 1];
      InsertAllSorts(s);
      InsertSorts(InsertAll(s), s, m, t);
    }
  }

  lemma InsertSorts(r: seq<Message>, s: seq<Message>, m: Message, t: seq<Message>)
    requires t == s + [m] && DistinctIds(t)
    requires Sorted(r) && multiset(r) == multiset(s)
    ensures Sorted(InsertInOrder(r, m)) && multiset(InsertInOrder(r, m)) == multiset(t)
  {
    forall i | 0 <= i < |r| ensures r[i].msgid != m.msgid {
      assert r[i] in multiset(s);
      var j :| 0 <= j < |s| && s[j] == r[i];
      assert t[j].msgid != t[|t| - 1].msgid;
    }
    InsertedMultiset(r, m, InsertionPoint(r, m.msgid));
  }

  lemma InsertedMultiset<T>(s: seq<T>, m: T, k: nat)
    requires k <= |s|
    ensures multiset(Inserted(s, m, k)) == multiset(s) + multiset{m}
  {
    assert Inserted(s, m, k) == s[..k] + [m] + s[k..];
    assert s == s[..k] + s[k..];
  }

  lemma {:induction false} SortedIsUnique(a: seq<Message>, b: seq<Message>)
    requires Sorted(a) && Sorted(b) && multiset(a) == multiset(b)
    ensures a == b
  {
    assert |a| == |multiset(a)| && |b| == |multiset(b)|;
    if a != [] {
      LeastComesFirst(a, b);
      LeastComesFirst(b, a);
      TailMultiset(a);
      TailMultiset(b);
      SortedIsUnique(a[1..], b[1..]);
      assert a == [a[0]] + a[1..] && b == [b[0]] + b[1..];
    }
  }

  lemma LeastComesFirst(a: seq<Message>, b: seq<Message>)
    requires Sorted(a) && multiset(a) == multiset(b) && a != [] && b != []
    ensures a[0].msgid <= b[0].msgid && (a[0].msgid == b[0].msgid ==> a[0] == b[0])
  {
    assert b[0] in multiset(a);
    var j :| 0 <= j < |a| && a[j] == b[0];
  }

  lemma TailMultiset(a: seq<Message>)
    requires a != []
    ensures multiset(a[1..]) == multiset(a) - multiset{a[0]}
  {
    assert a == [a[0]] + a[1..];
  }

  // ----- A run in send order is a rotation of its sorted form -----

  /** Where ids have gone round to 1, or the end. */
  function Turn(s: seq<Message>, n: nat): (p: nat)
    requires 0 < n <= |s|
    ensures 0 < p <= n
    ensures forall i :: 0 <= i < p ==> s[0].msgid <= s[i].msgid
    ensures p < n ==> s[p].msgid < s[0].msgid
  {
    if n == 1 then 1
    else
      var p := Turn(s, n - 1);
      if p < n - 1 then p else if s[n - 1].msgid < s[0].msgid then p else n
  }

  /** After the turn every id is below the first one. */
  lemma {:induction false} BelowAfterTurn(s: seq<Message>, i: nat)
    requires SendOrder(s) && s != [] && Turn(s, |s|) <= i < |s|
    ensures s[i].msgid < s[0].msgid
  {
    if i > Turn(s, |s|) {
      assert Distance(s[0].msgid, s[Turn(s, |s|)].msgid) < Distance(s[0].msgid, s[i].msgid);
    }
  }

  /** Ids go up from message to message, on either side of the turn. */
  lemma {:induction false} Ascending(s: seq<Message>, i: nat, j: nat)
    requires SendOrder(s) && i < j < |s| && (j < Turn(s, |s|) || Turn(s, |s|) <= i)
    ensures s[i].msgid < s[j].msgid
  {
    if Turn(s, |s|) <= i {
      BelowAfterTurn(s, i);
      BelowAfterTurn(s, j);
    }
    assert Distance(s[0].msgid, s[i].msgid) < Distance(s[0].msgid, s[j].msgid);
  }

  /** The message of a run of n that stands at position j once position p comes first. */
  function Source(n: nat, p: nat, j: nat): (i: nat)
    requires 0 < p <= n && j < n
    ensures i < n
  {
    if j + p < n then j + p else j + p - n
  }

  lemma {:induction false} SortedPair(s: seq<Message>, p: nat, i: nat, j: nat)
    requires SendOrder(s) && s != [] && p == Turn(s, |s|) && i < j < |s|
    ensures s[Source(|s|, p, i)].msgid < s[Source(|s|, p, j)].msgid
  {
    if i + p < |s| <= j + p {
      BelowAfterTurn(s, i + p);
      assert s[0].msgid <= s[j + p - |s|].msgid;
    } else {
      Ascending(s, Source(|s|, p, i), Source(|s|, p, j));
    }
  }

  lemma {:induction false} SortedForm(s: seq<Message>)
    requires SendOrder(s) && s != []
    ensures Sorted(Rotated(s, Turn(s, |s|)))
  {
    var p, q := Turn(s, |s|), Rotated(s, Turn(s, |s|));
    forall i: nat, j: nat | i < j < |q| ensures s[Source(|s|, p, i)].msgid < s[Source(|s|, p, j)].msgid {
      SortedPair(s, p, i, j);
    }
    assert forall i :: 0 <= i < |q| ==> q[i] == s[Source(|s|, p, i)];
  }

  /** A run whose ids go up everywhere except from the message before p to the one at p. */
  ghost predicate TurnsAt(s: seq<Message>, p: nat) {
    && 0 < p <= |s|
    && (forall i :: 1 <= i < |s| ==> Steps(s, p, i))
    && (p < |s| <==> s[|s| - 1].msgid < s[0].msgid)
  }

  ghost predicate Steps(s: seq<Message>, p: nat, i: nat)
    requires 1 <= i < |s|
  {
    if i == p then s[i].msgid < s[i - 1].msgid else s[i - 1].msgid < s[i].msgid
  }

  lemma {:induction false} SendOrderTurns(s: seq<Message>)
    requires SendOrder(s) && s != []
    ensures TurnsAt(s, Turn(s, |s|))
  {
    var p := Turn(s, |s|);
    forall i | 1 <= i < |s| ensures Steps(s, p, i) {
      if i == p {
        BelowAfterTurn(s, i);
      } else {
        Ascending(s, i - 1, i);
      }
    }
    if p < |s| {
      BelowAfterTurn(s, |s| - 1);
    }
  }

  /** q is s turned at p, gap for gap. */
  ghost predicate GapsMatch(s: seq<Message>, q: seq<Message>, p: nat) {
    && 0 < p <= |s| == |q|
    && (forall j {:trigger Gap(q, j)} :: 0 <= j < |s| ==>
         q[j] == s[Source(|s|, p, j)] && Gap(q, j) == SendGap(s, Source(|s|, p, j)))
  }

  /** In the turned form, the gap in front of every message is its send gap. */
  lemma TurnedGaps(s: seq<Message>, p: nat)
    requires TurnsAt(s, p)
    ensures GapsMatch(s, Rotated(s, p), p)
  {
    forall j: nat | j < |s| ensures Gap(Rotated(s, p), j) == SendGap(s, Source(|s|, p, j)) {
      TurnedGap(s, p, j);
    }
  }

  lemma TurnedGap(s: seq<Message>, p: nat, j: nat)
    requires TurnsAt(s, p) && j < |s|
    ensures Gap(Rotated(s, p), j) == SendGap(s, Source(|s|, p, j))
  {
    var q, i := Rotated(s, p), Source(|s|, p, j);
    assert q[j] == s[i] && (i > 0 ==> Steps(s, p, i));
    if j == 0 {
      assert q[|q| - 1] == s[p - 1];
    } else {
      assert q[j - 1] == if i == 0 then s[|s| - 1] else s[i - 1];
    }
  }

  lemma {:induction false} SortedRecords(s: seq<Message>, t: seq<Message>)
    requires SendOrder(s) && s != [] && multiset(t) == multiset(s)
    ensures InsertAll(t) == Rotated(s, Turn(s, |s|))
  {
    SameMultisetDistinct(s, t);
    InsertAllSorts(t);
    SortedForm(s);
    RotatedMultiset(s, Turn(s, |s|));
    SortedIsUnique(InsertAll(t), Rotated(s, Turn(s, |s|)));
  }

  /** Where the first message of the run stands in its sorted form. */
  function Head(s: seq<Message>): (h: nat)
    requires s != []
    ensures h < |s| && Source(|s|, Turn(s, |s|), h) == 0
    ensures Rotated(Rotated(s, Turn(s, |s|)), h) == s
  {
    var p := Turn(s, |s|);
    if p == |s| then 0 else |s| - p
  }

  /** The rotation picks h: no gap of the sorted list is larger, and equal ones are in front of
      larger ids. */
  ghost predicate GapWins(q: seq<Message>, h: nat)
    requires h < |q|
  {
    forall j {:trigger Gap(q, j)} :: 0 <= j < |q| && j != h ==>
      Beats(Gap(q, h), q[h].msgid, Gap(q, j), q[j].msgid)
  }

  predicate Beats(gap: int, id: int, otherGap: int, otherId: int) {
    otherGap < gap || (otherGap == gap && id < otherId)
  }

  lemma {:induction false} WrapStartIsWinner(q: seq<Message>, h: nat)
    requires Sorted(q) && h < |q|
    ensures WrapStart(q, |q|) == h <==> GapWins(q, h)
  {
    var w := WrapStart(q, |q|);
    assert w == h || Beats(Gap(q, w), q[w].msgid, Gap(q, h), q[h].msgid);
  }

  lemma WinnersMatch(s: seq<Message>, q: seq<Message>, p: nat, h: nat)
    requires GapsMatch(s, q, p) && h < |q| && Source(|s|, p, h) == 0
    ensures GapWins(q, h) <==> ClosingGapWins(s)
  {
    if GapWins(q, h) {
      forall i | 1 <= i < |s| ensures Beats(SendGap(s, 0), s[0].msgid, SendGap(s, i), s[i].msgid) {
        var j := if i >= p then i - p else i - p + |s|;
        assert Source(|s|, p, j) == i && j != h;
        assert Beats(Gap(q, h), q[h].msgid, Gap(q, j), q[j].msgid);
      }
    }
    if ClosingGapWins(s) {
      forall j | 0 <= j < |q| && j != h ensures Beats(Gap(q, h), q[h].msgid, Gap(q, j), q[j].msgid) {
        var i := Source(|s|, p, j);
        assert i >= 1 && Beats(SendGap(s, 0), s[0].msgid, SendGap(s, i), s[i].msgid);
      }
    }
  }

  lemma RotationsDiffer(q: seq<Message>, h: nat, w: nat)
    requires Sorted(q) && h < |q| && w < |q|
    ensures Rotated(q, h) == Rotated(q, w) <==> h == w
  {
    assert Rotated(q, w)[0] == q[w] && Rotated(q, h)[0] == q[h];
  }

  lemma {:induction false} PickedIsHead(s: seq<Message>)
    requires SendOrder(s) && s != []
    ensures WrapStart(Rotated(s, Turn(s, |s|)), |s|) == Head(s) <==> ClosingGapWins(s)
  {
    var p := Turn(s, |s|);
    SendOrderTurns(s);
    TurnedGaps(s, p);
    SortedForm(s);
    WinnersMatch(s, Rotated(s, p), p, Head(s));
    WrapStartIsWinner(Rotated(s, p), Head(s));
  }

  lemma {:induction false} RunRestored(s: seq<Message>, t: seq<Message>)
    requires SendOrder(s) && s != [] && multiset(t) == multiset(s)
    ensures Wrapped(InsertAll(t)) == s <==> ClosingGapWins(s)
  {
    var q := Rotated(s, Turn(s, |s|));
    SortedRecords(s, t);
    SortedForm(s);
    PickedIsHead(s);
    RotationsDiffer(q, Head(s), WrapStart(q, |s|));
  }

  /** A sorted list is in send order wherever it is made to start. */
  lemma RotatedInOrder(q: seq<Message>, k: nat)
    requires DistinctIds(q) && Sorted(q) && k < |q|
    ensures SendOrder(Rotated(q, k))
  {
    var r := Rotated(q, k);
    forall i: nat, j: nat | i < j < |r|
      ensures r[i].msgid != r[j].msgid && Distance(r[0].msgid, r[i].msgid) < Distance(r[0].msgid, r[j].msgid)
    {
      var i', j' := if i + k < |q| then i + k else i + k - |q|, if j + k < |q| then j + k else j + k - |q|;
      assert r[0] == q[k] && r[i] == q[i'] && r[j] == q[j'];
      assert k < i' ==> q[k].msgid < q[i'].msgid;
      assert i' < k ==> q[i'].msgid < q[k].msgid;
    }
  }

  lemma {:induction false} RestoredInOrder(s: seq<Message>, t: seq<Message>)
    requires DistinctIds(s) && s != [] && multiset(t) == multiset(s)
    ensures SendOrder(Wrapped(InsertAll(t)))
  {
    SameMultisetDistinct(s, t);
    InsertAllSorts(t);
    var q := InsertAll(t);
    SameMultisetDistinct(t, q);
    assert |multiset(q)| == |multiset(s)|;
    RotatedInOrder(q, WrapStart(q, |q|));
  }

  /** The list restored from the records of some messages, whatever order they are read in, is the list
      they stood in if and only if its ids go once round the circle and its closing gap is the one the
      rotation picks. */
  lemma {:induction false} RestoredOrder(s: seq<Message>, t: seq<Message>)
    requires DistinctIds(s) && s != [] && multiset(t) == multiset(s)
    ensures Wrapped(InsertAll(t)) == s <==> SendOrder(s) && ClosingGapWins(s)
  {
    RestoredInOrder(s, t);
    if SendOrder(s) {
      RunRestored(s, t);
    }
  }

  lemma RotatedMultiset<T>(s: seq<T>, k: nat)
    requires k <= |s|
    ensures multiset(Rotated(s, k)) == multiset(s)
  {
    assert s == s[..k] + s[k..];
    RotatedIsSwap(s[..k], s[k..]);
    assert Rotated(s, k) == s[k..] + s[..k];
  }

  lemma SameMultisetDistinct(s: seq<Message>, t: seq<Message>)
    requires DistinctIds(s) && multiset(t) == multiset(s)
    ensures DistinctIds(t)
  {
    forall i | 0 <= i < |t| ensures 1 <= t[i].msgid <= MAX_MSG_ID {
      assert t[i] in multiset(s);
    }
    forall i, j | 0 <= i < j < |t| ensures t[i].msgid != t[j].msgid {
      assert t[i] in multiset(s) && t[j] in multiset(s);
      if t[i] == t[j] {
        var x := t[i];
        assert t == t[..i] + [x] + t[i + 1..j] + [x] + t[j + 1..];
        assert multiset(t)[x] >= 2;
        MultiplicityOne(s, x);
      }
    }
  }

  lemma {:induction false} MultiplicityOne(s: seq<Message>, x: Message)
    requires DistinctIds(s)
    ensures multiset(s)[x] <= 1
  {
    if s != [] {
      assert s == [s[0]] + s[1..];
      MultiplicityOne(s[1..], x);
      assert forall k :: 0 <= k < |s[1..]| ==> s[1..][k].msgid != s[0].msgid;
    }
  }

  /** Of a run that spans less than half the circle the gap that closes it is the largest. */
  lemma ShortGap(s: seq<Message>, i: nat)
    requires SendOrder(s) && 1 <= i < |s| && 2 * Distance(s[0].msgid, s[|s| - 1].msgid) < MAX_MSG_ID
    ensures SendGap(s, i) < SendGap(s, 0)
  {
    assert Distance(s[0].msgid, s[i - 1].msgid) < Distance(s[0].msgid, s[i].msgid);
    assert i < |s| - 1 ==> Distance(s[0].msgid, s[i].msgid) < Distance(s[0].msgid, s[|s| - 1].msgid);
  }

  /** In particular a run that spans less than half the circle comes back in order. */
  lemma {:induction false} ShortRunRestored(s: seq<Message>, t: seq<Message>)
    requires SendOrder(s) && s != [] && multiset(t) == multiset(s)
    requires 2 * Distance(s[0].msgid, s[|s| - 1].msgid) < MAX_MSG_ID
    ensures Wrapped(InsertAll(t)) == s
  {
    assert ClosingGapWins(s) by {
      forall i | 1 <= i < |s| ensures Beats(SendGap(s, 0), s[0].msgid, SendGap(s, i), s[i].msgid) {
        ShortGap(s, i);
      }
    }
    RestoredOrder(s, t);
  }

  /** The records of some messages, read in any order: a sorted list of them. */
  lemma {:induction false} SortedRestored(t: seq<Message>, q: seq<Message>)
    requires DistinctIds(q) && Sorted(q) && multiset(t) == multiset(q)
    ensures InsertAll(t) == q
  {
    SameMultisetDistinct(q, t);
    InsertAllSorts(t);
    SortedIsUnique(InsertAll(t), q);
  }

  /** Two messages are enough for the wrong order when others between them have been completed: their
      ids are more than half the circle apart. */
  lemma {:induction false} FarApartMisordered(a: Message, b: Message, t: seq<Message>)
    requires a.msgid == 1 && b.msgid == 40000 && multiset(t) == multiset([a, b])
    ensures SendOrder([a, b]) && !ClosingGapWins([a, b]) && Wrapped(InsertAll(t)) == [b, a]
  {
    assert SendGap([a, b], 1) == 39999 && SendGap([a, b], 0) == 25536;
    SortedRestored(t, [a, b]);
    TwoTurned(a, b);
  }

  lemma TwoTurned(a: Message, b: Message)
    requires a.msgid == 1 && b.msgid == 40000
    ensures Wrapped([a, b]) == [b, a]
  {
    var s := [a, b];
    assert WrapStart(s, 1) == 0 && Gap(s, 0) == 25536 && Gap(s, 1) == 39999;
    assert Rotated(s, 1) == [b, a];
  }

  /** Two small ids and the largest come back with the largest first, whatever order they were sent in. */
  lemma {:induction false} LargestFirst(t: seq<Message>, a: Message, b: Message, c: Message)
    requires 1 <= a.msgid < b.msgid < 10 && c.msgid == MAX_MSG_ID && multiset(t) == multiset([a, b, c])
    ensures Wrapped(InsertAll(t)) == [c, a, b]
  {
    SortedRestored(t, [a, b, c]);
    ThreeTurned(a, b, c);
  }

  lemma ThreeTurned(a: Message, b: Message, c: Message)
    requires 1 <= a.msgid < b.msgid < 10 && c.msgid == MAX_MSG_ID
    ensures Wrapped([a, b, c]) == [c, a, b]
  {
    var s := [a, b, c];
    assert Gap(s, 0) < 10 && Gap(s, 1) < 10 && Gap(s, 2) > 10;
    assert WrapStart(s, 3) == 2;
    assert Rotated(s, 2) == [c, a, b];
  }
}
