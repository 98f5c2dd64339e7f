/** The protocol handlers as src/MQTTProtocolClient.c writes them, on the heap lists with their
    cached lookups, each proved to do what its function in Session says. */
module ProtocolClient {
  import opened Wrappers
  import opened Types
  import opened MessageIds
  import opened MessageLists
  import opened LinkedList
  import opened Packets
  import opened Session
  import opened SessionSync
  import opened Retries

  /** Whatever the cursor, looking an id up finds the one message that has it. */
  lemma {:induction false} LookupIsIndexOf(s: seq<Message>, cursor: nat, id: int, p: Message -> bool)
    requires DistinctIds(s) && forall m :: p(m) <==> m.msgid == id
    ensures Lookup(s, cursor, p) == IndexOf(s, id)
  {
    assert AtMostOneMatch(s, p) by {
      forall i, j | 0 <= i < j < |s| ensures !(p(s[i]) && p(s[j])) {
        assert s[i].msgid != s[j].msgid;
      }
    }
    CacheIsTransparent(s, cursor, p);
    assert FirstMatch(s, p) < |s| ==> p(s[FirstMatch(s, p)]);
    assert IndexOf(s, id) < |s| ==> p(s[IndexOf(s, id)]);
  }

  /** Looking a message up by itself finds its place. */
  lemma LookupOfMember(s: seq<Message>, cursor: nat, k: nat, p: Message -> bool)
    requires DistinctIds(s) && k < |s| && forall m :: p(m) <==> m == s[k]
    ensures Lookup(s, cursor, p) == k
  {
    assert p(s[k]);
    assert Lookup(s, cursor, p) < |s| && s[Lookup(s, cursor, p)] == s[k];
  }

  lemma ReplacedByInsertion(s: seq<Message>, m: Message, k: nat)
    requires DistinctIds(s) && k < |s| && m.msgid == s[k].msgid
    ensures LinkedList.Without(Inserted(s, m, k), k + 1) == s[k := m] && DistinctIds(s[k := m])
  {
    FindReplaced(s, k, m, 0);
  }

  class ProtocolClient {
    const v5: bool
    const outboundMsgs: List<Message>
    const inboundMsgs: List<Message>
    var store: Store
    var msgID: int
    var connectCount: int
    var connectSent: int

    ghost predicate Valid()
      reads `msgID, outboundMsgs, outboundMsgs.nodes, inboundMsgs, inboundMsgs.nodes
    {
      && outboundMsgs != inboundMsgs
      && outboundMsgs.Valid() && inboundMsgs.Valid()
      && (forall e :: e in outboundMsgs.nodes ==> e !in inboundMsgs.nodes)
      && DistinctIds(outboundMsgs.contents) && DistinctIds(inboundMsgs.contents)
      && 0 <= msgID <= MAX_MSG_ID
    }

    ghost function State(): Client
      reads `store, outboundMsgs`contents, inboundMsgs`contents
    {
      Client(v5, outboundMsgs.contents, inboundMsgs.contents, store)
    }

    constructor (v5: bool)
      ensures Valid() && State() == Client(v5, [], [], map[]) && msgID == 0
      ensures fresh(outboundMsgs) && fresh(inboundMsgs)
    {
      this.v5 := v5;
      outboundMsgs := new List<Message>.Initialize();
      inboundMsgs := new List<Message>.Initialize();
      store, msgID, connectCount, connectSent := map[], 0, 0, 0;
    }

    /** The next message id: found by stepping round from the last one assigned. */
    method AssignMsgId() returns (msgid: int)
      requires Valid()
      requires msgID != 0 || exists id :: IsId(id) && id !in IdsOf(outboundMsgs.contents)
      modifies `msgID, outboundMsgs`current, outboundMsgs`cursor
      ensures Valid() && State() == old(State())
      ensures IsFirstFree(IdsOf(outboundMsgs.contents), old(msgID), msgid)
      ensures msgID == if msgid != 0 then msgid else old(msgID)
    {
      msgid := SearchFrom(msgID);
      if msgid != 0 {
        msgID := msgid;
      }
    }

    method SearchFrom(start: int) returns (msgid: int)
      requires Valid() && 0 <= start <= MAX_MSG_ID
      requires start != 0 || exists id :: IsId(id) && id !in IdsOf(outboundMsgs.contents)
      modifies outboundMsgs`current, outboundMsgs`cursor
      ensures Valid() && IsFirstFree(IdsOf(outboundMsgs.contents), start, msgid)
    {
      ghost var ids := IdsOf(outboundMsgs.contents);
      ghost var free :| start == 0 ==> IsId(free) && free !in ids;
      msgid := Successor(start);
      var found := FindOutbound(msgid);
      while found
        invariant Valid() && IsId(msgid) && found == (msgid in ids)
        invariant msgid != start && (start == 0 ==> msgid <= free) && AllInUseBefore(ids, start, msgid)
        decreases MAX_MSG_ID - Distance(start, msgid), found
      {
        PastUsed(ids, start, msgid);
        msgid := Successor(msgid);
        if msgid == start {
          msgid := 0;
          break;
        }
        found := FindOutbound(msgid);
      }
    }

    method FindOutbound(id: int) returns (found: bool)
      requires Valid()
      modifies outboundMsgs`current, outboundMsgs`cursor
      ensures Valid()
      ensures found == (id in IdsOf(outboundMsgs.contents))
      ensures found == (IndexOf(outboundMsgs.contents, id) < |outboundMsgs.contents|)
      ensures found ==> outboundMsgs.cursor == IndexOf(outboundMsgs.contents, id)
    {
      var p := (m: Message) => m.msgid == id;
      LookupIsIndexOf(outboundMsgs.contents, outboundMsgs.cursor, id, p);
      var e := outboundMsgs.FindItem(p);
      found := e != null;
    }

    method FindInbound(id: int) returns (found: bool)
      requires Valid()
      modifies inboundMsgs`current, inboundMsgs`cursor
      ensures Valid()
      ensures found == (IndexOf(inboundMsgs.contents, id) < |inboundMsgs.contents|)
      ensures found ==> inboundMsgs.cursor == IndexOf(inboundMsgs.contents, id)
    {
      var p := (m: Message) => m.msgid == id;
      LookupIsIndexOf(inboundMsgs.contents, inboundMsgs.cursor, id, p);
      var e := inboundMsgs.FindItem(p);
      found := e != null;
    }

    method AppendOutbound(m: Message)
      requires Valid() && IsId(m.msgid) && m.msgid !in IdsOf(outboundMsgs.contents)
      modifies outboundMsgs, outboundMsgs.nodes
      ensures Valid() && outboundMsgs.contents == old(outboundMsgs.contents) + [m]
    {
      NotInUse(outboundMsgs.contents, m.msgid);
      FindAppend(outboundMsgs.contents, m, m.msgid);
      var element := outboundMsgs.Append(m, 1);
      UntouchedIsValid(inboundMsgs);
    }

    /** ListRemove of a message of the outbound list. */
    method RemoveOutbound(m: Message, ghost k: nat)
      requires Valid() && k < |outboundMsgs.contents| && m == outboundMsgs.contents[k]
      modifies outboundMsgs, outboundMsgs.nodes
      ensures Valid() && outboundMsgs.contents == MessageLists.Without(old(outboundMsgs.contents), k)
    {
      LookupOfMember(outboundMsgs.contents, outboundMsgs.cursor, k, x => x == m);
      FindWithout(outboundMsgs.contents, k, 0);
      var removed := outboundMsgs.Unlink(x => x == m);
      UntouchedIsValid(inboundMsgs);
    }

    /** A change to the message the cursor is on. */
    method SetOutbound(m: Message)
      requires Valid() && outboundMsgs.cursor < |outboundMsgs.contents|
      requires m.msgid == outboundMsgs.contents[outboundMsgs.cursor].msgid
      modifies outboundMsgs, outboundMsgs.nodes
      ensures Valid() && outboundMsgs.contents == old(outboundMsgs.contents)[old(outboundMsgs.cursor) := m]
    {
      FindReplaced(outboundMsgs.contents, outboundMsgs.cursor, m, 0);
      outboundMsgs.SetContent(outboundMsgs.current, m, outboundMsgs.cursor);
      UntouchedIsValid(inboundMsgs);
    }

    /** MQTTProtocol_startPublish for QoS 1 and 2. */
    method StartPublish(qos: int, id: nat, content: Content) returns (sent: seq<WirePacket>)
      requires Valid() && 1 <= qos <= 2 && IsId(id) && Encodable(v5, qos, id, content)
      requires id !in IdsOf(outboundMsgs.contents)
      modifies `store, outboundMsgs, outboundMsgs.nodes
      ensures Valid()
      ensures var e := Session.StartPublish(old(State()), qos, id, content); State() == e.client && sent == e.sent
    {
      var m := Message(id, qos, content, AwaitPubrec);
      AppendOutbound(m);
      store := PutSent(store, v5, false, m);
      sent := [Publish(false, qos, id, content)];
    }

    method HandlePuback(id: int)
      requires Valid() && id >= 0
      modifies `store, outboundMsgs, outboundMsgs.nodes
      ensures Valid() && State() == Session.HandlePuback(old(State()), id).client
    {
      var found := FindOutbound(id);
      if found {
        var m := outboundMsgs.current.content;
        if m.qos == 1 {
          store := RemoveSent(store, id);
          RemoveOutbound(m, IndexOf(outboundMsgs.contents, id));
        }
      }
    }

    method HandlePubrec(id: int, reason: Byte) returns (sent: seq<WirePacket>)
      requires Valid() && id >= 0
      modifies `store, outboundMsgs, outboundMsgs.nodes
      ensures Valid()
      ensures var e := Session.HandlePubrec(old(State()), id, reason); State() == e.client && sent == e.sent
    {
      outboundMsgs.current := null;
      outboundMsgs.cursor := |outboundMsgs.nodes|;
      var sendPubrel := EndOrAcknowledge(id, reason);
      sent := [];
      if sendPubrel {
        store := PutPubrel(store, v5, id);
        sent := [Pubrel(id)];
      }
    }

    /** What a PUBREC makes of the message it is for; all but an error lead to a PUBREL. */
    method EndOrAcknowledge(id: int, reason: Byte) returns (sendPubrel: bool)
      requires Valid() && id >= 0
      modifies `store, outboundMsgs, outboundMsgs.nodes
      ensures Valid()
      ensures var e := Session.HandlePubrec(old(State()), id, reason);
              && State().outbound == e.client.outbound && State().inbound == e.client.inbound
              && e.client.store == (if sendPubrel then PutPubrel(store, v5, id) else store)
              && e.sent == if sendPubrel then [Pubrel(id)] else []
    {
      sendPubrel := true;
      var found := FindOutbound(id);
      if found {
        var m := outboundMsgs.current.content;
        if m.qos == 2 && m.next == AwaitPubrec {
          sendPubrel := Acknowledge(m, reason);
        }
      }
    }

    /** The PUBREC of the message the cursor is on: an error ends the exchange. */
    method Acknowledge(m: Message, reason: Byte) returns (sendPubrel: bool)
      requires Valid() && outboundMsgs.cursor < |outboundMsgs.contents| && m == outboundMsgs.contents[outboundMsgs.cursor]
      modifies `store, outboundMsgs, outboundMsgs.nodes
      ensures Valid() && sendPubrel == !(v5 && reason >= UNSPECIFIED_ERROR)
      ensures store == if sendPubrel then old(store) else RemoveSent(old(store), m.msgid)
      ensures outboundMsgs.contents ==
              if sendPubrel then old(outboundMsgs.contents)[old(outboundMsgs.cursor) := m.(next := AwaitPubcomp)]
              else MessageLists.Without(old(outboundMsgs.contents), old(outboundMsgs.cursor))
    {
      if v5 && reason >= UNSPECIFIED_ERROR {
        store := RemoveSent(store, m.msgid);
        RemoveOutbound(m, outboundMsgs.cursor);
        sendPubrel := false;
      } else {
        SetOutbound(m.(next := AwaitPubcomp));
        sendPubrel := true;
      }
    }

    method HandlePubcomp(id: int)
      requires Valid() && id >= 0
      modifies `store, outboundMsgs, outboundMsgs.nodes
      ensures Valid() && State() == Session.HandlePubcomp(old(State()), id).client
    {
      var found := FindOutbound(id);
      if found {
        var m := outboundMsgs.current.content;
        if m.qos == 2 && m.next == AwaitPubcomp {
          store := RemoveSent(store, id);
          RemoveOutbound(m, IndexOf(outboundMsgs.contents, id));
        }
      }
    }

    ghost function Counts(): Counters
      reads `connectCount, `connectSent
    {
      Counters(connectCount, connectSent)
    }

    /** MQTTProtocol_retries: from the front, every message that is due is sent again, until a write
        does not complete; writable: the client is connected and good and no write is pending. */
    method Retries(regardless: bool, retryInterval: int, writable: bool, aged: Message -> bool, outcome: nat -> Outcome)
      returns (sent: seq<WirePacket>, closed: bool)
      requires Valid() && ValidOutbound(v5, outboundMsgs.contents)
      modifies `store, `connectCount, `connectSent
      ensures Valid() && outboundMsgs.contents == old(outboundMsgs.contents)
      ensures var c, s := old(Counts()), outboundMsgs.contents;
              && RetryDue(old(State()), All(c, regardless), aged, Reach(s, c, regardless, retryInterval, writable, aged, outcome))
                 == Effect(State(), sent, [])
              && Counts() == After(s, c, regardless, retryInterval, writable, aged, outcome)
      ensures var c := old(Counts());
              if writable && (regardless || retryInterval > 0 || c.sent != c.count)
              then ResentInTurn(sent, DueMessages(outboundMsgs.contents, regardless || c.sent < c.count, aged), outcome)
              else sent == []
      ensures connectCount == if regardless then |outboundMsgs.contents| else old(connectCount)
      ensures connectSent == old(connectSent) + (if regardless || old(connectSent) < old(connectCount) then |sent| else 0)
      ensures ClosedAfter(closed, sent, outcome)
    {
      CallResends(State(), Counts(), regardless, retryInterval, writable, aged, outcome);
      sent, closed := RetryUnlessOff(regardless, retryInterval, writable, aged, outcome);
    }

    method RetryUnlessOff(regardless: bool, retryInterval: int, writable: bool, aged: Message -> bool, outcome: nat -> Outcome)
      returns (sent: seq<WirePacket>, closed: bool)
      requires Valid() && ValidOutbound(v5, outboundMsgs.contents)
      modifies `store, `connectCount, `connectSent
      ensures Valid()
      ensures var c, s := old(Counts()), outboundMsgs.contents;
              && RetryDue(old(State()), All(c, regardless), aged, Reach(s, c, regardless, retryInterval, writable, aged, outcome))
                 == Effect(State(), sent, [])
              && Counts() == After(s, c, regardless, retryInterval, writable, aged, outcome)
      ensures connectCount == if regardless then |outboundMsgs.contents| else old(connectCount)
      ensures connectSent == old(connectSent) + (if regardless || old(connectSent) < old(connectCount) then |sent| else 0)
      ensures ClosedAfter(closed, sent, outcome)
    {
      sent, closed := [], false;
      if !regardless && retryInterval <= 0 && connectSent == connectCount {
        return;
      }
      var all := regardless;
      if regardless {
        connectCount := outboundMsgs.count;
      } else if connectSent < connectCount {
        all := true;
      }
      sent, closed := RetryLoop(all, writable, aged, outcome);
    }

    method RetryLoop(all: bool, writable: bool, aged: Message -> bool, outcome: nat -> Outcome)
      returns (sent: seq<WirePacket>, closed: bool)
      requires outboundMsgs.Walkable() && AllStorable(v5, outboundMsgs.contents)
      requires forall i :: 0 <= i < |outboundMsgs.contents| ==> outboundMsgs.contents[i].next != AwaitPubrel
      modifies `store, `connectSent
      ensures var s := outboundMsgs.contents;
              var n := if writable then Examined(s, all, aged, outcome, 0, 0) else 0;
              RetryDue(old(State()), all, aged, n) == Effect(State(), sent, []) && |sent| == Due(s, all, aged, n)
      ensures connectSent == old(connectSent) + (if all then |sent| else 0)
      ensures ClosedAfter(closed, sent, outcome)
    {
      ghost var before, k := State(), 0;
      sent, closed := [], false;
      var stop := !writable;
      ProgressStarts(before, writable, all, aged, outcome);
      var outcurrent := outboundMsgs.NextElement(null);
      while outcurrent != null && !stop
        invariant k <= |outboundMsgs.nodes| && outcurrent == At(outboundMsgs.nodes, k)
        invariant Progress(before, writable, all, aged, outcome, k, stop, store, sent)
        invariant connectSent == old(connectSent) + (if all then |sent| else 0)
        invariant (closed ==> stop) && ClosedAfter(closed, sent, outcome)
        decreases |outboundMsgs.nodes| - k
      {
        var m := outcurrent.content;
        assert m == before.outbound[k];
        outcurrent := outboundMsgs.NextElement(outcurrent);
        sent, closed, stop := RetryOne(m, all, aged, outcome, sent, closed, before, writable, k);
        k := k + 1;
      }
      ProgressEnds(before, writable, all, aged, outcome, k, stop, State(), sent);
    }

    /** One message of the list, sent again if it is due. */
    method RetryOne(m: Message, all: bool, aged: Message -> bool, outcome: nat -> Outcome, sent0: seq<WirePacket>, closed0: bool,
                    ghost before: Client, ghost writable: bool, ghost k: nat)
      returns (sent: seq<WirePacket>, closed: bool, stop: bool)
      requires before.v5 == v5 && AllStorable(v5, before.outbound) && k < |before.outbound| && m == before.outbound[k]
      requires m.next != AwaitPubrel
      requires Progress(before, writable, all, aged, outcome, k, false, store, sent0)
      requires !closed0 && ClosedAfter(closed0, sent0, outcome)
      modifies `store, `connectSent
      ensures Progress(before, writable, all, aged, outcome, k + 1, stop, store, sent)
      ensures connectSent - old(connectSent) == if all then |sent| - |sent0| else 0
      ensures (closed ==> stop) && ClosedAfter(closed, sent, outcome)
    {
      sent, closed, stop := sent0, closed0, false;
      if all || aged(m) {
        DueNext(before, writable, all, aged, outcome, k, store, sent);
        closed, stop := Resend(m, all, outcome(|sent|));
        sent := sent + [RetryPacket(m)];
      } else {
        NotDueNext(before, writable, all, aged, outcome, k, store, sent);
      }
    }

    /** One message sent again: stored first, then written with result rc. */
    method Resend(m: Message, all: bool, rc: Outcome) returns (closed: bool, stop: bool)
      requires Storable(v5, m) && m.next != AwaitPubrel
      modifies `store, `connectSent
      ensures store == RetryStore(old(store), v5, m) && connectSent == old(connectSent) + (if all then 1 else 0)
      ensures stop == (rc != Complete)
      ensures closed == (rc == Failed || (rc == Interrupted && RetryPacket(m).Pubrel?))
    {
      if all {
        connectSent := connectSent + 1;
      }
      if m.qos == 1 || (m.qos == 2 && m.next == AwaitPubrec) {
        store := PutSent(store, v5, true, m);
        closed := rc == Failed;
      } else {
        store := PutPubrel(store, v5, m.msgid);
        closed := rc != Complete;
      }
      stop := closed || rc == Interrupted;
    }

    /** The retry after a reconnect with no errors: exactly one packet per outbound message. */
    method Reconnect(outcome: nat -> Outcome) returns (sent: seq<WirePacket>)
      requires Valid() && ValidOutbound(v5, outboundMsgs.contents) && forall i :: outcome(i) == Complete
      modifies `store, `connectCount, `connectSent
      ensures Valid()
      ensures var e := RetryFrom(old(State()), 0); State() == e.client && sent == e.sent
      ensures |sent| == |outboundMsgs.contents|
      ensures connectCount == |outboundMsgs.contents| && connectSent == old(connectSent) + |outboundMsgs.contents|
    {
      var aged := m => false;
      var closed;
      ghost var s := outboundMsgs.contents;
      sent, closed := Retries(true, 0, true, aged, outcome);
      ExaminedAll(s, aged, outcome, 0, 0);
      AllDueIsReconnect(old(State()), aged, |s|);
      RetryFromSendsEach(old(State()), 0);
    }

    // ----- The receiving half -----

    method AppendInbound(m: Message)
      requires Valid() && IsId(m.msgid) && Find(inboundMsgs.contents, m.msgid) == None
      modifies inboundMsgs, inboundMsgs.nodes
      ensures Valid() && inboundMsgs.contents == old(inboundMsgs.contents) + [m]
    {
      FindAppend(inboundMsgs.contents, m, m.msgid);
      var element := inboundMsgs.Append(m, 1);
      UntouchedIsValid(outboundMsgs);
    }

    /** The message the cursor is on makes way for a new one: that one is inserted before it, and it
        is removed. */
    method ReplaceInbound(m: Message)
      requires Valid() && inboundMsgs.cursor < |inboundMsgs.contents|
      requires m.msgid == inboundMsgs.contents[inboundMsgs.cursor].msgid
      modifies inboundMsgs, inboundMsgs.nodes
      ensures Valid() && inboundMsgs.contents == old(inboundMsgs.contents)[old(inboundMsgs.cursor) := m]
    {
      ReplacedByInsertion(inboundMsgs.contents, m, inboundMsgs.cursor);
      var msg, newel := inboundMsgs.InsertAtCursor(m, 1);
      inboundMsgs.RemoveAtCursor(msg);
      UntouchedIsValid(outboundMsgs);
    }

    method RemoveInbound(m: Message, ghost k: nat)
      requires Valid() && k < |inboundMsgs.contents| && m == inboundMsgs.contents[k]
      modifies inboundMsgs, inboundMsgs.nodes
      ensures Valid() && inboundMsgs.contents == MessageLists.Without(old(inboundMsgs.contents), k)
    {
      LookupOfMember(inboundMsgs.contents, inboundMsgs.cursor, k, x => x == m);
      FindWithout(inboundMsgs.contents, k, 0);
      var removed := inboundMsgs.Unlink(x => x == m);
      UntouchedIsValid(outboundMsgs);
    }

    method HandlePublish(dup: bool, qos: int, id: nat, content: Content)
      returns (sent: seq<WirePacket>, delivered: seq<Delivery>)
      requires Valid() && 0 <= qos <= 2 && (qos == 2 ==> IsId(id)) && Encodable(v5, qos, id, content)
      modifies `store, inboundMsgs, inboundMsgs.nodes
      ensures Valid()
      ensures var e := Session.HandlePublish(old(State()), dup, qos, id, content);
              State() == e.client && sent == e.sent && delivered == e.delivered
    {
      sent, delivered := [], [];
      if qos == 0 {
        delivered := [Delivery(0, id, content)];
      } else if qos == 1 {
        delivered := [Delivery(1, id, content)];
        sent := [Puback(id)];
      } else {
        sent, delivered := KeepQos2(dup, id, content);
      }
    }

    /** A QoS 2 message is kept and stored; version 5 hands it on when it is new. */
    method KeepQos2(dup: bool, id: nat, content: Content) returns (sent: seq<WirePacket>, delivered: seq<Delivery>)
      requires Valid() && IsId(id) && Encodable(v5, 2, id, content)
      modifies `store, inboundMsgs, inboundMsgs.nodes
      ensures Valid()
      ensures var e := Session.HandlePublish(old(State()), dup, 2, id, content);
              State() == e.client && sent == e.sent && delivered == e.delivered
    {
      var m := Message(id, 2, content, AwaitPubrel);
      var alreadyReceived := KeepInbound(m);
      store := PutReceived(store, v5, dup, m);
      delivered := if v5 && !alreadyReceived then [Delivery(2, id, content)] else [];
      sent := [Pubrec(id, 0)];
    }

    /** A message takes the place of one of the same id, or the last one. */
    method KeepInbound(m: Message) returns (alreadyReceived: bool)
      requires Valid() && IsId(m.msgid)
      modifies inboundMsgs, inboundMsgs.nodes
      ensures Valid()
      ensures var k := IndexOf(old(inboundMsgs.contents), m.msgid);
              && alreadyReceived == (k < |old(inboundMsgs.contents)|)
              && inboundMsgs.contents == if alreadyReceived then old(inboundMsgs.contents)[k := m] else old(inboundMsgs.contents) + [m]
    {
      alreadyReceived := FindInbound(m.msgid);
      if alreadyReceived {
        ReplaceInbound(m);
      } else {
        AppendInbound(m);
      }
    }

    method HandlePubrel(id: nat) returns (sent: seq<WirePacket>, delivered: seq<Delivery>)
      requires Valid()
      modifies `store, inboundMsgs, inboundMsgs.nodes
      ensures Valid()
      ensures var e := Session.HandlePubrel(old(State()), id);
              State() == e.client && sent == e.sent && delivered == e.delivered
    {
      delivered := [];
      var found := FindInbound(id);
      if found {
        var m := inboundMsgs.current.content;
        if m.qos == 2 && m.next == AwaitPubrel {
          if !v5 {
            delivered := [Delivery(2, id, m.content)];
          }
          store := RemoveReceived(store, id);
          RemoveInbound(m, inboundMsgs.cursor);
        }
      }
      sent := [Pubcomp(id)];
    }
  }
}
