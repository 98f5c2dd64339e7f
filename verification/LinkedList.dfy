/** The doubly linked list of src/LinkedList.c: a chain of heap elements with a cached cursor.

    The abstract value of a list is the sequence of its elements' contents.  A comparison callback
    applied to the content being looked for is a predicate on contents; the source's NULL callback
    (compare by content pointer) is equality with that content. */
module LinkedList {
  import opened Wrappers

  class ListElement<T> {
    var prev: ListElement?<T>
    var next: ListElement?<T>
    var content: T

    constructor (c: T)
      ensures content == c && prev == null && next == null
    {
      content := c;
      prev, next := null, null;
    }
  }

  /** The position of the first element of s that satisfies p, or |s|. */
  function FirstMatch<T>(s: seq<T>, p: T -> bool): (k: nat)
    ensures k <= |s|
    ensures k < |s| ==> p(s[k])
    ensures forall i :: 0 <= i < k ==> !p(s[i])
  {
    if s == [] then 0
    else if p(s[0]) then 0
    else
      var k := FirstMatch(s[1..], p);
      assert forall i :: 0 < i < k + 1 ==> s[i] == s[1..][i - 1];
      k + 1
  }

  /** The position a lookup settles on: the cursor's when it matches, otherwise the first match.
      A cursor of |s| stands for "no cursor". */
  function Lookup<T>(s: seq<T>, cursor: nat, p: T -> bool): (k: nat)
    ensures k <= |s|
    ensures k < |s| ==> p(s[k])
    ensures k == |s| <==> forall i :: 0 <= i < |s| ==> !p(s[i])
  {
    if cursor < |s| && p(s[cursor]) then cursor else FirstMatch(s, p)
  }

  /** s with x put in at position k. */
  function Inserted<T>(s: seq<T>, x: T, k: nat): (r: seq<T>)
    requires k <= |s|
    ensures |r| == |s| + 1
    ensures forall i {:trigger r[i]} :: 0 <= i < |r| ==> r[i] == if i < k then s[i] else if i == k then x else s[i - 1]
  {
    seq(|s| + 1, i requires 0 <= i <= |s| => if i < k then s[i] else if i == k then x else s[i - 1])
  }

  /** s with position k taken out. */
  function Without<T>(s: seq<T>, k: nat): (r: seq<T>)
    requires k < |s|
    ensures |r| == |s| - 1
    ensures forall i {:trigger r[i]} :: 0 <= i < |r| ==> r[i] == if i < k then s[i] else s[i + 1]
  {
    seq(|s| - 1, i requires 0 <= i < |s| - 1 => if i < k then s[i] else s[i + 1])
  }

  /** The elements of s that fail p, in order. */
  function Remaining<T>(s: seq<T>, p: T -> bool): (r: seq<T>) {
    if s == [] then [] else if p(s[0]) then Remaining(s[1..], p) else [s[0]] + Remaining(s[1..], p)
  }

  ghost predicate AtMostOneMatch<T>(s: seq<T>, p: T -> bool) {
    forall i, j :: 0 <= i < j < |s| ==> !(p(s[i]) && p(s[j]))
  }

  /** With at most one match the cache is invisible: every cursor gives what a plain scan gives. */
  lemma {:induction false} CacheIsTransparent<T>(s: seq<T>, cursor: nat, p: T -> bool)
    requires AtMostOneMatch(s, p)
    ensures Lookup(s, cursor, p) == FirstMatch(s, p)
  {
    assert FirstMatch(s, p) < |s| ==> p(s[FirstMatch(s, p)]);
  }

  /** Taking out the only match leaves exactly the elements that do not match, in order. */
  lemma {:induction false} WithoutOnlyMatch<T>(s: seq<T>, k: nat, p: T -> bool)
    requires k < |s| && p(s[k]) && AtMostOneMatch(s, p)
    ensures Without(s, k) == Remaining(s, p)
  {
    if k == 0 {
      assert forall i :: 0 <= i < |s[1..]| ==> !p(s[1..][i]);
      RemainingOfNoMatch(s[1..], p);
    } else {
      assert !p(s[0]);
      WithoutOnlyMatch(s[1..], k - 1, p);
      assert Without(s, k) == [s[0]] + Without(s[1..], k - 1);
    }
  }

  lemma {:induction false} RemainingOfNoMatch<T>(s: seq<T>, p: T -> bool)
    requires forall i :: 0 <= i < |s| ==> !p(s[i])
    ensures Remaining(s, p) == s
  {
    if s != [] {
      RemainingOfNoMatch(s[1..], p);
    }
  }

  /** Removing in place: what is left of c when every match from k on has been taken out. */
  ghost function Sweep<T>(c: seq<T>, k: nat, p: T -> bool): seq<T>
    requires k <= |c|
    decreases |c| - k
  {
    if k == |c| then c else if p(c[k]) then Sweep(Without(c, k), k, p) else Sweep(c, k + 1, p)
  }

  lemma {:induction false} SweepIsRemaining<T>(c: seq<T>, k: nat, p: T -> bool)
    requires k <= |c|
    ensures Sweep(c, k, p) == c[..k] + Remaining(c[k..], p)
    decreases |c| - k
  {
    if k < |c| {
      assert c[k..] == [c[k]] + c[k + 1..];
      if p(c[k]) {
        SweepIsRemaining(Without(c, k), k, p);
        assert Without(c, k)[..k] == c[..k] && Without(c, k)[k..] == c[k + 1..];
      } else {
        SweepIsRemaining(c, k + 1, p);
        assert c[..k + 1] == c[..k] + [c[k]];
      }
    }
  }

  /** The element at a position, NULL off either end. */
  ghost function At<T>(s: seq<ListElement<T>>, i: int): ListElement?<T> {
    if 0 <= i < |s| then s[i] else null
  }

  ghost predicate Distinct<T>(s: seq<T>) {
    forall i, j :: 0 <= i < j < |s| ==> s[i] != s[j]
  }

  /** Distinct elements, each linked to its neighbours in the sequence, NULL off the ends. */
  ghost predicate Chain<T>(s: seq<ListElement<T>>)
    reads s
  {
    && Distinct(s)
    && (forall i {:trigger s[i].next} :: 0 <= i < |s| ==> s[i].next == At(s, i + 1))
    && (forall i {:trigger s[i].prev} :: 0 <= i < |s| ==> s[i].prev == At(s, i - 1))
  }

  /** Where the cursor is once the element at k is gone: on the same element, or on the next one. */
  lemma CursorAfterRemoval<T>(s: seq<ListElement<T>>, cursor: nat, k: nat)
    requires Distinct(s) && cursor <= |s| && k < |s|
    ensures At(Without(s, k), if cursor <= k then cursor else cursor - 1)
         == if At(s, cursor) == s[k] then At(s, k + 1) else At(s, cursor)
  {
  }

  lemma CursorAfterPop<T>(s: seq<ListElement<T>>, cursor: nat)
    requires Distinct(s) && cursor <= |s| && |s| > 0
    ensures At(Without(s, |s| - 1), if cursor == |s| - 1 > 0 then cursor - 1 else if cursor < |s| then cursor else |s| - 1)
         == if At(s, cursor) == s[|s| - 1] then At(s, |s| - 2) else At(s, cursor)
  {
  }

  lemma CursorAfterInsert<T>(s: seq<ListElement<T>>, cursor: nat, e: ListElement<T>, k: nat)
    requires cursor <= |s| && k <= |s|
    ensures At(Inserted(s, e, k), if cursor < k then cursor else cursor + 1) == At(s, cursor)
  {
  }

  ghost predicate Holds<T>(s: seq<ListElement<T>>, c: seq<T>)
    reads s
  {
    && |s| == |c|
    && (forall i {:trigger s[i].content} {:trigger c[i]} :: 0 <= i < |s| ==> s[i].content == c[i])
  }

  lemma HoldsAfterInsert<T>(s: seq<ListElement<T>>, c: seq<T>, e: ListElement<T>, k: nat)
    requires Holds(s, c) && k <= |s|
    ensures Holds(Inserted(s, e, k), Inserted(c, e.content, k))
  {
  }

  lemma HoldsAfterRemoval<T>(s: seq<ListElement<T>>, c: seq<T>, k: nat)
    requires Holds(s, c) && k < |s|
    ensures Holds(Without(s, k), Without(c, k))
  {
  }

  lemma ChainAfterAppend<T>(s: seq<ListElement<T>>, e: ListElement<T>)
    requires Distinct(s) && e !in s && e.next == null && e.prev == At(s, |s| - 1)
    requires forall i {:trigger s[i].next} :: 0 <= i < |s| ==> s[i].next == if i + 1 < |s| then s[i + 1] else e
    requires forall i {:trigger s[i].prev} :: 0 <= i < |s| ==> s[i].prev == At(s, i - 1)
    ensures Chain(s + [e])
  {
  }

  lemma HoldsAfterAppend<T>(s: seq<ListElement<T>>, c: seq<T>, e: ListElement<T>)
    requires Holds(s, c)
    ensures Holds(s + [e], c + [e.content])
  {
  }

  lemma EndsAfterAppend<T>(s: seq<ListElement<T>>, e: ListElement<T>)
    ensures At(s + [e], 0) == (if s == [] then e else At(s, 0)) && At(s + [e], |s + [e]| - 1) == e
  {
  }

  lemma CursorAfterAppend<T>(s: seq<ListElement<T>>, cursor: nat, e: ListElement<T>)
    requires cursor <= |s|
    ensures At(s + [e], if At(s, cursor) == null then cursor + 1 else cursor) == At(s, cursor)
  {
  }

  lemma ChainAfterHead<T>(s: seq<ListElement<T>>)
    requires Distinct(s) && |s| > 0
    requires forall i {:trigger s[i].next} :: 1 <= i < |s| ==> s[i].next == At(s, i + 1)
    requires forall i {:trigger s[i].prev} :: 1 <= i < |s| ==> s[i].prev == if i == 1 then null else At(s, i - 1)
    ensures Chain(Without(s, 0))
  {
  }

  lemma ChainAfterTail<T>(s: seq<ListElement<T>>)
    requires Distinct(s) && |s| > 0
    requires forall i {:trigger s[i].next} :: 0 <= i < |s| - 1 ==> s[i].next == if i == |s| - 2 then null else At(s, i + 1)
    requires forall i {:trigger s[i].prev} :: 0 <= i < |s| - 1 ==> s[i].prev == At(s, i - 1)
    ensures Chain(Without(s, |s| - 1))
  {
  }

  ghost predicate Within<T>(s: seq<ListElement<T>>, region: set<ListElement<T>>) {
    forall i :: 0 <= i < |s| ==> s[i] in region
  }

  lemma WithinAfterRemoval<T>(s: seq<ListElement<T>>, k: nat, region: set<ListElement<T>>)
    requires k < |s| && Within(s, region)
    ensures Within(Without(s, k), region)
  {
  }

  lemma ChainAfterInsert<T>(s: seq<ListElement<T>>, e: ListElement<T>, k: nat)
    requires k < |s| && e !in s
    requires Distinct(s)
    requires forall i {:trigger s[i].next} :: 0 <= i < |s| ==>
      s[i].next == if i == k - 1 then e else At(s, i + 1)
    requires forall i {:trigger s[i].prev} :: 0 <= i < |s| ==>
      s[i].prev == if i == k then e else At(s, i - 1)
    requires e.next == s[k] && e.prev == At(s, k - 1)
    ensures Chain(Inserted(s, e, k))
  {
  }

  /** Going forward, the elements other than k pass k by. */
  ghost predicate ForwardPast<T>(s: seq<ListElement<T>>, k: nat)
    reads s
  {
    forall i {:trigger s[i].next} :: 0 <= i < |s| && i != k ==> s[i].next == At(s, if i == k - 1 then k + 1 else i + 1)
  }

  ghost predicate BackwardPast<T>(s: seq<ListElement<T>>, k: nat)
    reads s
  {
    forall i {:trigger s[i].prev} :: 0 <= i < |s| && i != k ==> s[i].prev == At(s, if i == k + 1 then k - 1 else i - 1)
  }

  lemma ChainAfterRemoval<T>(s: seq<ListElement<T>>, k: nat)
    requires k < |s| && Distinct(s) && ForwardPast(s, k) && BackwardPast(s, k)
    ensures Chain(Without(s, k))
  {
  }

  lemma EndsAfterRemoval<T>(s: seq<ListElement<T>>, k: nat)
    requires k < |s|
    ensures At(Without(s, k), 0) == At(s, if k == 0 then 1 else 0)
    ensures At(Without(s, k), |s| - 2) == At(s, if k == |s| - 1 then k - 1 else |s| - 1)
  {
  }

  class List<T(==)> {
    var first: ListElement?<T>
    var last: ListElement?<T>
    var current: ListElement?<T>
    var count: int
    var size: nat
    /** The chain from first to last, what its elements hold, and the cursor's place in it
        (|nodes| when the cursor is NULL). */
    ghost var nodes: seq<ListElement<T>>
    ghost var contents: seq<T>
    ghost var cursor: nat

    ghost predicate Valid()
      reads this, nodes
    {
      && Linked()
      && cursor <= |nodes|
      && current == At(nodes, cursor)
    }

    /** The chain from first to last, counted. */
    ghost predicate Linked()
      reads this, nodes
    {
      Linkage() && count == |nodes|
    }

    ghost predicate Linkage()
      reads `first, `last, `nodes, `contents, nodes
    {
      && Chain(nodes)
      && first == At(nodes, 0)
      && last == At(nodes, |nodes| - 1)
      && Holds(nodes, contents)
    }

    constructor Initialize()
      ensures Valid() && contents == [] && nodes == [] && current == null && size == 0
    {
      first, last, current := null, null, null;
      count, size := 0, 0;
      nodes, contents, cursor := [], [], 0;
    }

    /** Appends an element that belongs to no list. */
    method AppendNoMalloc(c: T, newel: ListElement<T>, sz: nat)
      requires Valid() && newel !in nodes
      modifies this, nodes, newel
      ensures Valid() && nodes == old(nodes) + [newel] && contents == old(contents) + [c]
      ensures current == old(current) && size == old(size) + sz
    {
      CursorAfterAppend(nodes, cursor, newel);
      newel.content := c;
      cursor := if current == null then cursor + 1 else cursor;
      count := count + 1;
      size := size + sz;
      LinkLast(newel);
    }

    /** The pointer surgery of an append. */
    method LinkLast(newel: ListElement<T>)
      requires Linkage() && newel !in nodes
      modifies `first, `last, `nodes, `contents, nodes, newel
      ensures Linkage() && nodes == old(nodes) + [newel] && contents == old(contents) + [old(newel.content)]
    {
      newel.next := null;
      newel.prev := last;
      if first == null {
        first := newel;
      } else {
        last.next := newel;
      }
      last := newel;
      EndsAfterAppend(nodes, newel);
      ChainAfterAppend(nodes, newel);
      HoldsAfterAppend(nodes, contents, newel);
      contents := contents + [newel.content];
      nodes := nodes + [newel];
    }

    method Append(c: T, sz: nat) returns (newel: ListElement<T>)
      requires Valid()
      modifies this, nodes
      ensures Valid() && fresh(newel) && nodes == old(nodes) + [newel] && contents == old(contents) + [c]
      ensures current == old(current) && size == old(size) + sz
    {
      newel := new ListElement(c);
      AppendNoMalloc(c, newel, sz);
    }

    /** Inserts before index, which is at position k; a NULL index appends. */
    method Insert(c: T, sz: nat, index: ListElement?<T>, ghost k: nat) returns (newel: ListElement<T>)
      requires Valid() && k <= |nodes| && index == At(nodes, k)
      modifies this, nodes
      ensures Valid() && fresh(newel)
      ensures nodes == Inserted(old(nodes), newel, k) && contents == Inserted(old(contents), c, k)
      ensures current == old(current) && size == old(size) + sz
    {
      newel := new ListElement(c);
      if index == null {
        AppendNoMalloc(c, newel, sz);
      } else {
        InsertBefore(newel, sz, index, k);
      }
    }

    method InsertBefore(newel: ListElement<T>, sz: nat, index: ListElement<T>, ghost k: nat)
      requires Valid() && newel !in nodes && k < |nodes| && index == nodes[k]
      modifies this, nodes, newel
      ensures Valid() && current == old(current) && size == old(size) + sz
      ensures nodes == Inserted(old(nodes), newel, k)
      ensures contents == Inserted(old(contents), old(newel.content), k)
    {
      CursorAfterInsert(nodes, cursor, newel, k);
      cursor := if cursor < k then cursor else cursor + 1;
      count := count + 1;
      size := size + sz;
      LinkBefore(newel, index, k);
    }

    /** The pointer surgery of an insertion before index. */
    method LinkBefore(newel: ListElement<T>, index: ListElement<T>, ghost k: nat)
      requires Linkage()
      requires newel !in nodes && k < |nodes| && index == nodes[k]
      modifies `first, `nodes, `contents, nodes, newel
      ensures nodes == Inserted(old(nodes), newel, k) && contents == Inserted(old(contents), old(newel.content), k)
      ensures Linkage()
    {
      newel.next := index;
      newel.prev := index.prev;
      index.prev := newel;
      if newel.prev != null {
        newel.prev.next := newel;
      } else {
        first := newel;
      }
      ChainAfterInsert(nodes, newel, k);
      HoldsAfterInsert(nodes, contents, newel, k);
      contents := Inserted(contents, newel.content, k);
      nodes := Inserted(nodes, newel, k);
    }

    /** What a forward iteration relies on. */
    ghost predicate Walkable()
      reads `first, `nodes, `contents, nodes
    {
      && first == At(nodes, 0) && Holds(nodes, contents)
      && forall i {:trigger nodes[i].next} :: 0 <= i < |nodes| ==> nodes[i].next == At(nodes, i + 1)
    }

    /** Steps a forward iteration; NULL starts at the beginning. */
    function NextElement(pos: ListElement?<T>): (e: ListElement?<T>)
      requires Walkable() && (pos == null || pos in nodes)
      reads `first, `nodes, `contents, nodes
      ensures pos == null ==> e == At(nodes, 0)
      ensures forall k :: 0 <= k < |nodes| && nodes[k] == pos ==> e == At(nodes, k + 1)
    {
      if pos == null then first else pos.next
    }

    /** Steps a backward iteration; NULL starts at the end. */
    function PrevElement(pos: ListElement?<T>): (e: ListElement?<T>)
      requires Valid() && (pos == null || pos in nodes)
      reads this, nodes
      ensures pos == null ==> e == At(nodes, |nodes| - 1)
      ensures forall k :: 0 <= k < |nodes| && nodes[k] == pos ==> e == At(nodes, k - 1)
    {
      if pos == null then last else pos.prev
    }

    /** The cached lookup: answers the cursor's element when it matches, else scans from the front
        and moves the cursor to what it finds. */
    method FindItem(p: T -> bool) returns (rc: ListElement?<T>)
      requires Valid()
      modifies `current, `cursor
      ensures Valid()
      ensures rc == null <==> forall i :: 0 <= i < |contents| ==> !p(contents[i])
      ensures rc == At(nodes, Lookup(contents, old(cursor), p))
      ensures rc != null ==> current == rc && cursor == Lookup(contents, old(cursor), p)
      ensures rc == null ==> current == old(current) && cursor == old(cursor)
    {
      rc := null;
      if current != null && p(current.content) {
        rc := current;
      } else {
        var e := NextElement(null);
        ghost var k := 0;
        while e != null
          invariant 0 <= k <= |nodes| && e == At(nodes, k)
          invariant forall i :: 0 <= i < k ==> !p(contents[i])
          invariant rc == null
          decreases |nodes| - k
        {
          if p(e.content) {
            rc := e;
            break;
          }
          e := NextElement(e);
          k := k + 1;
        }
        assert FirstMatch(contents, p) == k;
        if rc != null {
          current, cursor := rc, k;
        }
      }
    }

    /** Takes out the element the lookup settles on.  The cursor stays where it was, or moves to the
        next element when its own was taken out. */
    method Unlink(p: T -> bool) returns (removed: bool)
      requires Valid()
      modifies this, nodes
      ensures Valid() && size == old(size)
      ensures var k := Lookup(old(contents), old(cursor), p);
              && removed == (k < |old(contents)|)
              && (!removed ==> nodes == old(nodes) && contents == old(contents) && cursor == old(cursor))
              && (removed ==>
                    && nodes == Without(old(nodes), k)
                    && contents == Without(old(contents), k)
                    && cursor == (if old(cursor) <= k then old(cursor) else old(cursor) - 1))
    {
      var saved := current;
      ghost var place := cursor;
      var found := FindItem(p);
      if found == null {
        return false;
      }
      RemoveCurrent(saved, place);
      removed := true;
    }

    /** The rest of Unlink, once the lookup has put the cursor on the element to take out. */
    method RemoveCurrent(saved: ListElement?<T>, ghost place: nat)
      requires Linked() && cursor < |nodes| && current == nodes[cursor]
      requires place <= |nodes| && saved == At(nodes, place)
      modifies this, nodes
      ensures Valid() && size == old(size)
      ensures nodes == Without(old(nodes), old(cursor)) && contents == Without(old(contents), old(cursor))
      ensures cursor == if place <= old(cursor) then place else place - 1
    {
      ghost var k := cursor;
      var element, next := current, current.next;
      CursorAfterRemoval(nodes, place, k);
      current := if saved == current then next else saved;
      cursor := if place <= k then place else place - 1;
      count := count - 1;
      Bypass(element, k);
    }

    /** The pointer surgery of a removal: the neighbours of the element skip it. */
    method Bypass(element: ListElement<T>, ghost k: nat)
      requires Linkage()
      requires k < |nodes| && element == nodes[k]
      modifies `first, `last, `nodes, `contents, nodes
      ensures nodes == Without(old(nodes), k) && contents == Without(old(contents), k)
      ensures Linkage()
    {
      SkipForward(element, k);
      SkipBackward(element, k);
      ChainAfterRemoval(nodes, k);
      HoldsAfterRemoval(nodes, contents, k);
      EndsAfterRemoval(nodes, k);
      contents := Without(contents, k);
      nodes := Without(nodes, k);
    }

    /** The element before, or the start of the list, skips it. */
    method SkipForward(element: ListElement<T>, ghost k: nat)
      requires Linkage() && k < |nodes| && element == nodes[k]
      modifies `first, nodes
      ensures Distinct(nodes) && Holds(nodes, contents) && ForwardPast(nodes, k)
      ensures forall i {:trigger nodes[i].prev} :: 0 <= i < |nodes| ==> nodes[i].prev == At(nodes, i - 1)
      ensures element.next == At(nodes, k + 1) && first == At(nodes, if k == 0 then 1 else 0)
    {
      if element.prev == null {
        first := element.next;
      } else {
        element.prev.next := element.next;
      }
    }

    /** The element after it, or the end of the list, skips it. */
    method SkipBackward(element: ListElement<T>, ghost k: nat)
      requires k < |nodes| && element == nodes[k] && Distinct(nodes) && Holds(nodes, contents) && ForwardPast(nodes, k)
      requires forall i {:trigger nodes[i].prev} :: 0 <= i < |nodes| ==> nodes[i].prev == At(nodes, i - 1)
      requires element.next == At(nodes, k + 1) && last == At(nodes, |nodes| - 1)
      modifies `last, nodes
      ensures Holds(nodes, contents) && ForwardPast(nodes, k) && BackwardPast(nodes, k)
      ensures last == At(nodes, if k == |nodes| - 1 then k - 1 else |nodes| - 1)
    {
      if element.next == null {
        last := element.prev;
      } else {
        element.next.prev := element.prev;
      }
    }

    /** Takes out the first element; NULL on an empty list. */
    method DetachHead() returns (content: Option<T>)
      requires Valid()
      modifies this, nodes
      ensures Valid() && size == old(size)
      ensures |old(nodes)| == 0 ==> content == None && nodes == [] && cursor == old(cursor)
      ensures |old(nodes)| > 0 ==>
                && content == Some(old(contents)[0])
                && nodes == Without(old(nodes), 0)
                && contents == Without(old(contents), 0)
                && cursor == (if old(cursor) == 0 then 0 else old(cursor) - 1)
    {
      content := None;
      if count > 0 {
        CursorAfterRemoval(nodes, cursor, 0);
        if current == first {
          current := first.next;
        }
        cursor := if cursor == 0 then 0 else cursor - 1;
        count := count - 1;
        content := Some(first.content);
        DropHead();
      }
    }

    /** The pointer surgery of DetachHead. */
    method DropHead()
      requires Linkage() && nodes != []
      modifies `first, `last, `nodes, `contents, nodes
      ensures nodes == Without(old(nodes), 0) && contents == Without(old(contents), 0)
      ensures Linkage()
    {
      if last == first {
        last := null;
      }
      first := first.next;
      if first != null {
        first.prev := null;
      }
      ChainAfterHead(nodes);
      HoldsAfterRemoval(nodes, contents, 0);
      contents := Without(contents, 0);
      nodes := Without(nodes, 0);
    }

    /** Takes out the last element; NULL on an empty list.  A cursor on it moves to its
        predecessor. */
    method PopTail() returns (content: Option<T>)
      requires Valid()
      modifies this, nodes
      ensures Valid() && size == old(size)
      ensures |old(nodes)| == 0 ==> content == None && nodes == [] && cursor == old(cursor)
      ensures |old(nodes)| > 0 ==>
                var n := |old(nodes)| - 1;
                && content == Some(old(contents)[n])
                && nodes == Without(old(nodes), n)
                && contents == Without(old(contents), n)
                && current == (if old(current) == old(last) then old(last.prev) else old(current))
    {
      content := None;
      if count > 0 {
        CursorAfterPop(nodes, cursor);
        cursor := if cursor == |nodes| - 1 > 0 then cursor - 1 else if cursor < |nodes| then cursor else |nodes| - 1;
        if current == last {
          current := last.prev;
        }
        count := count - 1;
        content := Some(last.content);
        DropTail();
      }
    }

    /** The pointer surgery of PopTail. */
    method DropTail()
      requires Linkage() && nodes != []
      modifies `first, `last, `nodes, `contents, nodes
      ensures var n := |old(nodes)| - 1;
              nodes == Without(old(nodes), n) && contents == Without(old(contents), n)
      ensures Linkage()
    {
      ghost var n := |nodes| - 1;
      CutTail();
      ChainAfterTail(nodes);
      HoldsAfterRemoval(nodes, contents, n);
      EndsAfterRemoval(nodes, n);
      contents := Without(contents, n);
      nodes := Without(nodes, n);
    }

    method CutTail()
      requires Linkage() && nodes != []
      modifies `first, `last, nodes
      ensures Distinct(nodes) && Holds(nodes, contents)
      ensures var n := |nodes| - 1;
              && (forall i {:trigger nodes[i].next} :: 0 <= i < n ==> nodes[i].next == if i == n - 1 then null else At(nodes, i + 1))
              && (forall i {:trigger nodes[i].prev} :: 0 <= i < n ==> nodes[i].prev == At(nodes, i - 1))
              && first == At(nodes, if n == 0 then 1 else 0) && last == At(nodes, n - 1)
    {
      if first == last {
        first := null;
      }
      last := last.prev;
      if last != null {
        last.next := null;
      }
    }

    /** Takes out every element from the front. */
    method Empty()
      requires Valid()
      modifies this
      ensures Valid() && nodes == [] && contents == [] && current == null && size == 0
    {
      ghost var k := 0;
      while first != null
        invariant 0 <= k <= |nodes| && nodes == old(nodes) && first == At(nodes, k)
        decreases |nodes| - k
      {
        first := first.next;
        k := k + 1;
      }
      count, size := 0, 0;
      current, first, last := null, null, null;
      nodes, contents, cursor := [], [], 0;
    }

    /** A change to what an element holds; the source makes it through the content pointer. */
    method SetContent(element: ListElement<T>, c: T, ghost k: nat)
      requires Valid() && k < |nodes| && element == nodes[k]
      modifies `contents, element`content
      ensures Valid() && nodes == old(nodes) && contents == old(contents)[k := c]
    {
      element.content := c;
      contents := contents[k := c];
    }

    /** Removes every element that is done while iterating: the cursor is put on the element, the
        removal by content then takes that very element and leaves the cursor on its successor. */
    method RemoveWhileIterating(done: T -> bool)
      requires Valid()
      modifies this, nodes
      ensures Valid() && contents == Remaining(old(contents), done)
    {
      ghost var region := set e | e in nodes;
      ghost var k := 0;
      SweepIsRemaining(contents, 0, done);
      var le := first;
      while le != null
        invariant Valid() && Within(nodes, region)
        invariant k <= |nodes| && le == At(nodes, k)
        invariant Sweep(contents, k, done) == Sweep(old(contents), 0, done)
        decreases |nodes| - k
      {
        assert nodes[k].content == contents[k];
        if done(le.content) {
          WithinAfterRemoval(nodes, k, region);
          RemoveElement(le, k);
          le := current;
        } else {
          le := NextElement(le);
          k := k + 1;
        }
      }
    }

    /** Inserts in front of the element the cursor is on, and says what that one holds. */
    method InsertAtCursor(c: T, sz: nat) returns (was: T, newel: ListElement<T>)
      requires Valid() && cursor < |nodes|
      modifies this, nodes
      ensures Valid() && contents == Inserted(old(contents), c, old(cursor))
      ensures cursor == old(cursor) + 1 && was == old(contents)[old(cursor)]
      ensures fresh(newel) && nodes == Inserted(old(nodes), newel, old(cursor))
    {
      ghost var k := cursor;
      was := current.content;
      newel := Insert(c, sz, current, k);
      assert nodes[k + 1] == current;
    }

    /** Removes the element the cursor is on, by its content. */
    method RemoveAtCursor(c: T)
      requires Valid() && cursor < |nodes| && contents[cursor] == c
      modifies this, nodes
      ensures Valid() && contents == Without(old(contents), old(cursor)) && nodes == Without(old(nodes), old(cursor))
    {
      var removed := Unlink(x => x == c);
    }

    /** Removes an element by its content, with the cursor put on it first. */
    method RemoveElement(le: ListElement<T>, ghost k: nat)
      requires Valid() && k < |nodes| && le == nodes[k]
      modifies this, nodes
      ensures Valid() && cursor == k && size == old(size)
      ensures nodes == Without(old(nodes), k) && contents == Without(old(contents), k)
    {
      current, cursor := le, k;
      var c := le.content;
      var removed := Unlink(x => x == c);
    }
  }

  /** A list whose elements nobody touched is as valid as it was. */
  twostate lemma UntouchedIsValid<T>(list: List<T>)
    requires old(list.Valid()) && unchanged(list)
    requires forall e {:trigger e in list.nodes} :: e in list.nodes ==> unchanged(e)
    ensures list.Valid()
  {
    forall i | 0 <= i < |list.nodes| ensures unchanged(list.nodes[i]) {
      assert list.nodes[i] in list.nodes;
    }
  }
}
