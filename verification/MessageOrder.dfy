/** The order of restored messages, as src/MQTTPersistence.c keeps it: each record found in the store
    is inserted by message id, and the finished list is then rotated at its largest gap, so that a
    run of ids that wrapped past 65535 starts where sending started. */
module MessageOrder {
  import opened Types
  import opened LinkedList

  /** s turned so that position k comes first. */
  function Rotated<T>(s: seq<T>, k: nat): (r: seq<T>)
    requires k <= |s|
    ensures |r| == |s|
    ensures forall i {:trigger r[i]} :: 0 <= i < |r| ==> r[i] == if i + k < |s| then s[i + k] else s[i + k - |s|]
  {
    seq(|s|, i requires 0 <= i < |s| => if i + k < |s| then s[i + k] else s[i + k - |s|])
  }

  lemma {:induction false} UnturnedIsSame(s: seq<Message>)
    requires s != [] ==> WrapStart(s, |s|) == 0
    ensures Wrapped(s) == s
  {
    assert s != [] ==> Rotated(s, 0) == s;
  }

  lemma RotatedIsSwap<T>(a: seq<T>, b: seq<T>)
    ensures Rotated(a + b, |a|) == b + a
  {
  }

  /** Where a message of this id goes: before the first larger id, else at the end. */
  function InsertionPoint(s: seq<Message>, id: int): (k: nat)
    ensures k <= |s|
    ensures k < |s| ==> id < s[k].msgid
    ensures forall i :: 0 <= i < k ==> s[i].msgid <= id
  {
    if s == [] then 0
    else if id < s[0].msgid then 0
    else
      var k := InsertionPoint(s[1..], id);
      assert forall i :: 0 < i < k + 1 ==> s[i] == s[1..][i - 1];
      k + 1
  }

  function InsertInOrder(s: seq<Message>, m: Message): seq<Message> {
    Inserted(s, m, InsertionPoint(s, m.msgid))
  }

  /** The messages inserted one after the other into an empty list. */
  function InsertAll(t: seq<Message>): seq<Message> {
    if t == [] then [] else InsertInOrder(InsertAll(t[..|t| - 1]), t[|t| - 1])
  }

  /** The gap in front of position j of a list, going round from 65535 to 1 in front of the first. */
  function Gap(s: seq<Message>, j: nat): int
    requires j < |s|
  {
    if j == 0 then MAX_MSG_ID - s[|s| - 1].msgid + s[0].msgid else s[j].msgid - s[j - 1].msgid
  }

  /** The position in front of which the gap is largest among the first n, the earliest on a tie. */
  function WrapStart(s: seq<Message>, n: nat): (k: nat)
    requires 0 < n <= |s|
    ensures k < n
    ensures forall j :: 0 <= j < n ==> Gap(s, j) < Gap(s, k) || (Gap(s, j) == Gap(s, k) && k <= j)
  {
    if n == 1 then 0
    else
      var k := WrapStart(s, n - 1);
      if Gap(s, n - 1) > Gap(s, k) then n - 1 else k
  }

  function Wrapped(s: seq<Message>): seq<Message> {
    if s == [] then s else Rotated(s, WrapStart(s, |s|))
  }

  // ----- The code on the heap list -----

  method InsertInOrderImpl(list: List<Message>, content: Message, size: nat)
    requires list.Valid()
    modifies list, list.nodes
    ensures list.Valid() && list.contents == InsertInOrder(old(list.contents), content)
    ensures list.current == old(list.current)
    ensures forall e | e in list.nodes :: e in old(list.nodes) || fresh(e)
  {
    var index: ListElement?<Message> := null;
    var current := list.NextElement(null);
    ghost var k := 0;
    while current != null && index == null
      invariant k <= |list.nodes|
      invariant index == null ==> current == At(list.nodes, k)
      invariant index != null ==> k < |list.nodes| && index == list.nodes[k] && content.msgid < list.contents[k].msgid
      invariant current != null ==> current in list.nodes
      invariant forall i :: 0 <= i < k ==> list.contents[i].msgid <= content.msgid
      decreases |list.nodes| - k, index == null
    {
      assert current.content == list.contents[k];
      if content.msgid < current.content.msgid {
        index := current;
      } else {
        k := k + 1;
      }
      current := list.NextElement(current);
    }
    InsertionPointIs(list.contents, content.msgid, k);
    var newel := list.Insert(content, size, index, k);
  }

  lemma {:induction false} InsertionPointIs(s: seq<Message>, id: int, k: nat)
    requires k <= |s|
    requires k < |s| ==> id < s[k].msgid
    requires forall i :: 0 <= i < k ==> s[i].msgid <= id
    ensures InsertionPoint(s, id) == k
  {
  }

  lemma HoldsAfterRotation<T>(s: seq<ListElement<T>>, c: seq<T>, k: nat)
    requires Holds(s, c) && k <= |s|
    ensures Holds(Rotated(s, k), Rotated(c, k))
  {
  }

  lemma CursorAfterRotation<T>(s: seq<ListElement<T>>, cursor: nat, k: nat)
    requires 0 < k < |s| && cursor <= |s|
    ensures At(Rotated(s, k), TurnedCursor(|s|, cursor, k)) == At(s, cursor)
  {
  }

  /** The cursor's position after a rotation; n stands for no cursor. */
  ghost function TurnedCursor(n: nat, cursor: nat, k: nat): nat
    requires cursor <= n && k < n
  {
    if cursor == n then n else if cursor < k then cursor + n - k else cursor - k
  }

  lemma ChainAfterRotation<T>(s: seq<ListElement<T>>, k: nat)
    requires 0 < k < |s| && Distinct(s)
    requires forall i {:trigger s[i].next} :: 0 <= i < |s| ==>
      s[i].next == if i == k - 1 then null else if i == |s| - 1 then s[0] else s[i + 1]
    requires forall i {:trigger s[i].prev} :: 0 <= i < |s| ==>
      s[i].prev == if i == k then null else if i == 0 then s[|s| - 1] else s[i - 1]
    ensures Chain(Rotated(s, k))
  {
  }

  /** Rotates the list at its largest gap by rewiring its ends. */
  method WrapMsgID(list: List<Message>)
    requires list.Valid()
    modifies list, list.nodes
    ensures list.Valid() && list.contents == Wrapped(old(list.contents))
    ensures list.current == old(list.current) && list.size == old(list.size)
  {
    var wrapel, k := FindLargestGap(list);
    if wrapel != null {
      TurnTo(list, wrapel, k);
    } else {
      UnturnedIsSame(list.contents);
    }
  }

  method TurnTo(list: List<Message>, wrapel: ListElement<Message>, ghost k: nat)
    requires list.Valid() && 0 < k < |list.nodes| && wrapel == list.nodes[k]
    modifies list, list.nodes
    ensures list.Valid() && list.contents == Rotated(old(list.contents), k)
    ensures list.current == old(list.current) && list.size == old(list.size)
  {
    ghost var n, cursor := |list.nodes|, list.cursor;
    CursorAfterRotation(list.nodes, cursor, k);
    Rewire(list, wrapel, k);
    list.cursor := TurnedCursor(n, cursor, k);
  }

  /** The scan of WrapMsgID: NULL when the list already starts after its largest gap. */
  method FindLargestGap(list: List<Message>) returns (wrapel: ListElement?<Message>, ghost k: nat)
    requires list.Valid()
    ensures if list.contents == [] then k == 0 else k == WrapStart(list.contents, |list.contents|)
    ensures wrapel == if k == 0 then null else At(list.nodes, k)
  {
    wrapel, k := null, 0;
    if list.count > 0 {
      var firstMsgID := list.first.content.msgid;
      var lastMsgID := list.last.content.msgid;
      var gap := MAX_MSG_ID - lastMsgID + firstMsgID;
      var current := list.NextElement(null);
      current := list.NextElement(current);
      ghost var n := 1;
      while current != null
        invariant 0 < n <= |list.nodes| && current == At(list.nodes, n)
        invariant k == WrapStart(list.contents, n) && gap == Gap(list.contents, k)
        invariant wrapel == if k == 0 then null else At(list.nodes, k)
        decreases |list.nodes| - n
      {
        assert current.content == list.contents[n] && current.prev.content == list.contents[n - 1];
        var curMsgID := current.content.msgid;
        var curPrevMsgID := current.prev.content.msgid;
        var curgap := curMsgID - curPrevMsgID;
        if curgap > gap {
          gap := curgap;
          wrapel := current;
          k := n;
        }
        n := n + 1;
        current := list.NextElement(current);
      }
    }
  }

  /** The pointer surgery: the ends are joined into a ring, which is cut in front of wrapel. */
  method Rewire(list: List<Message>, wrapel: ListElement<Message>, ghost k: nat)
    requires Chain(list.nodes) && Holds(list.nodes, list.contents)
    requires list.first == At(list.nodes, 0) && list.last == At(list.nodes, |list.nodes| - 1)
    requires 0 < k < |list.nodes| && wrapel == list.nodes[k]
    modifies list`first, list`last, list`nodes, list`contents, list.nodes
    ensures list.nodes == Rotated(old(list.nodes), k) && list.contents == Rotated(old(list.contents), k)
    ensures Chain(list.nodes) && Holds(list.nodes, list.contents)
    ensures list.first == At(list.nodes, 0) && list.last == At(list.nodes, |list.nodes| - 1)
  {
    list.first.prev := list.last;
    list.last.next := list.first;
    list.first := wrapel;
    list.last := wrapel.prev;
    list.first.prev := null;
    list.last.next := null;
    ChainAfterRotation(list.nodes, k);
    HoldsAfterRotation(list.nodes, list.contents, k);
    list.contents := Rotated(list.contents, k);
    list.nodes := Rotated(list.nodes, k);
  }
}
