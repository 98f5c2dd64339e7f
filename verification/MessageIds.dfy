/** Message id assignment: ids are taken round a circle of 65535. */
module MessageIds {
  import opened Types

  /** Steps from id a up to id b, going round from 65535 to 1. */
  function Distance(a: int, b: int): (d: int) {
    if a <= b then b - a else b - a + MAX_MSG_ID
  }

  predicate IsId(id: int) {
    1 <= id <= MAX_MSG_ID
  }

  function Successor(id: int): int {
    if id == MAX_MSG_ID then 1 else id + 1
  }

  /** The id that assignment gives a client whose last one was start (0 before the first): the first
      free one after start going round, or 0 when every id other than start is in use. */
  ghost predicate IsFirstFree(inUse: set<int>, start: int, msgid: int) {
    && (msgid == 0 <==> forall id :: IsId(id) && id != start ==> id in inUse)
    && (msgid != 0 ==> IsId(msgid) && msgid != start && msgid !in inUse)
    && (msgid != 0 ==> AllInUseBefore(inUse, start, msgid))
  }

  ghost predicate AllInUseBefore(inUse: set<int>, start: int, msgid: int) {
    forall id :: IsId(id) && id != start && Distance(start, id) < Distance(start, msgid) ==> id in inUse
  }

  /** Stepping past an id in use: one further round, or all have been tried. */
  lemma PastUsed(inUse: set<int>, start: int, msgid: int)
    requires 0 <= start <= MAX_MSG_ID && IsId(msgid) && msgid != start && (start == 0 ==> msgid < MAX_MSG_ID)
    requires msgid in inUse && AllInUseBefore(inUse, start, msgid)
    ensures if Successor(msgid) == start then IsFirstFree(inUse, start, 0)
            else AllInUseBefore(inUse, start, Successor(msgid)) && Distance(start, Successor(msgid)) == Distance(start, msgid) + 1
  {
  }

  /** The assignment loop.  The starting id itself is never tried, and a start of 0 is never met
      again, so that case needs a free id to stop at all. */
  method FirstFreeId(inUse: set<int>, start: int) returns (msgid: int)
    requires 0 <= start <= MAX_MSG_ID
    requires start != 0 || exists id :: IsId(id) && id !in inUse
    ensures IsFirstFree(inUse, start, msgid)
  {
    msgid := Successor(start);
    ghost var free :| start == 0 ==> IsId(free) && free !in inUse;
    while msgid in inUse
      invariant IsId(msgid)
      invariant msgid != start && (start == 0 ==> msgid <= free)
      invariant AllInUseBefore(inUse, start, msgid)
      decreases MAX_MSG_ID - Distance(start, msgid)
    {
      msgid := Successor(msgid);
      if msgid == start {
        msgid := 0;
        break;
      }
    }
  }

  /** Why a start of 0 needs a free id: stepping round from 0 never gives 0 again. */
  function StepsFrom(id: int, n: nat): (r: int) {
    if n == 0 then id else Successor(StepsFrom(id, n - 1))
  }

  lemma {:induction false} ZeroIsNeverMetAgain(n: nat)
    requires n > 0
    ensures IsId(StepsFrom(0, n))
  {
    if n > 1 {
      ZeroIsNeverMetAgain(n - 1);
    }
  }
}
