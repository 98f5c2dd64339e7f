/** Which messages a retry sends again: MQTTProtocol_retries (src/MQTTProtocolClient.c) and its
    counters connect_count and connect_sent. */
module Retries {
  import opened Types
  import opened Keys
  import opened Packets
  import opened Session
  import opened SessionSync

  /** What a write to the socket comes to: TCPSOCKET_COMPLETE, TCPSOCKET_INTERRUPTED (the rest of
      the packet stays pending) or SOCKET_ERROR. */
  datatype Outcome = Complete | Interrupted | Failed

  /** connect_count: how many messages the last reconnect had to retry; connect_sent: how many were
      sent by connect retries, ever. */
  datatype Counters = Counters(count: int, sent: int)

  // ----- One call -----

  /** Retries are turned off. */
  predicate Off(c: Counters, regardless: bool, retryInterval: int) {
    !regardless && retryInterval <= 0 && c.sent == c.count
  }

  /** Every message is due, whatever its age: after a reconnect, and to go on with one. */
  predicate All(c: Counters, regardless: bool) {
    regardless || c.sent < c.count
  }

  /** How many messages have been looked at when the loop ends, from message k on with so many packets
      written completely: it ends after the first write that is not complete. */
  function Examined(s: seq<Message>, all: bool, aged: Message -> bool, outcome: nat -> Outcome, k: nat, sent: nat): (n: nat)
    requires k <= |s|
    ensures k <= n <= |s|
    decreases |s| - k
  {
    if k == |s| then k
    else if !(all || aged(s[k])) then Examined(s, all, aged, outcome, k + 1, sent)
    else if outcome(sent) != Complete then k + 1
    else Examined(s, all, aged, outcome, k + 1, sent + 1)
  }

  /** How far one call gets; writable: the client is connected and good and no write is pending. */
  function Reach(s: seq<Message>, c: Counters, regardless: bool, retryInterval: int, writable: bool,
                 aged: Message -> bool, outcome: nat -> Outcome): (n: nat)
    ensures n <= |s|
  {
    if Off(c, regardless, retryInterval) || !writable then 0 else Examined(s, All(c, regardless), aged, outcome, 0, 0)
  }

  /** How many of the first n messages are due. */
  function Due(s: seq<Message>, all: bool, aged: Message -> bool, n: nat): nat
    requires n <= |s|
  {
    if n == 0 then 0 else Due(s, all, aged, n - 1) + (if all || aged(s[n - 1]) then 1 else 0)
  }

  /** How many packets one call sends. */
  function Sent(s: seq<Message>, c: Counters, regardless: bool, retryInterval: int, writable: bool,
                aged: Message -> bool, outcome: nat -> Outcome): nat
  {
    Due(s, All(c, regardless), aged, Reach(s, c, regardless, retryInterval, writable, aged, outcome))
  }

  /** The counters after it. */
  function After(s: seq<Message>, c: Counters, regardless: bool, retryInterval: int, writable: bool,
                 aged: Message -> bool, outcome: nat -> Outcome): Counters
  {
    Counters(if regardless then |s| else c.count,
             c.sent + (if All(c, regardless) then Sent(s, c, regardless, retryInterval, writable, aged, outcome) else 0))
  }

  /** One message more. */
  ghost function Also(e: Effect, all: bool, aged: Message -> bool, m: Message): Effect
    requires Storable(e.client.v5, m)
  {
    if all || aged(m) then Effect(e.client.(store := RetryStore(e.client.store, e.client.v5, m)), e.sent + [RetryPacket(m)], []) else e
  }

  /** The retry of those of the first n messages that are due. */
  ghost function RetryDue(c: Client, all: bool, aged: Message -> bool, n: nat): (e: Effect)
    requires n <= |c.outbound| && AllStorable(c.v5, c.outbound)
    ensures e.client == c.(store := e.client.store) && e.delivered == []
  {
    if n == 0 then Effect(c, [], []) else Also(RetryDue(c, all, aged, n - 1), all, aged, c.outbound[n - 1])
  }

  lemma {:induction false} DueCounts(c: Client, all: bool, aged: Message -> bool, n: nat)
    requires n <= |c.outbound| && AllStorable(c.v5, c.outbound)
    ensures |RetryDue(c, all, aged, n).sent| == Due(c.outbound, all, aged, n)
  {
    if n > 0 {
      DueCounts(c, all, aged, n - 1);
    }
  }

  /** Where the loop is after k messages: what it has stored and sent, and whether it has to stop. */
  ghost predicate Progress(before: Client, writable: bool, all: bool, aged: Message -> bool, outcome: nat -> Outcome,
                           k: nat, stop: bool, store: Store, sent: seq<WirePacket>)
    requires AllStorable(before.v5, before.outbound)
  {
    && k <= |before.outbound|
    && RetryDue(before, all, aged, k) == Effect(before.(store := store), sent, [])
    && if !writable then stop && k == 0
       else Examined(before.outbound, all, aged, outcome, 0, 0)
            == if stop then k else Examined(before.outbound, all, aged, outcome, k, |sent|)
  }

  lemma ProgressStarts(before: Client, writable: bool, all: bool, aged: Message -> bool, outcome: nat -> Outcome)
    requires AllStorable(before.v5, before.outbound)
    ensures Progress(before, writable, all, aged, outcome, 0, !writable, before.store, [])
  {
  }

  lemma NotDueNext(before: Client, writable: bool, all: bool, aged: Message -> bool, outcome: nat -> Outcome,
                   k: nat, store: Store, sent: seq<WirePacket>)
    requires AllStorable(before.v5, before.outbound) && k < |before.outbound|
    requires Progress(before, writable, all, aged, outcome, k, false, store, sent)
    requires !all && !aged(before.outbound[k])
    ensures Progress(before, writable, all, aged, outcome, k + 1, false, store, sent)
  {
  }

  lemma DueNext(before: Client, writable: bool, all: bool, aged: Message -> bool, outcome: nat -> Outcome,
                k: nat, store: Store, sent: seq<WirePacket>)
    requires AllStorable(before.v5, before.outbound) && k < |before.outbound|
    requires Progress(before, writable, all, aged, outcome, k, false, store, sent)
    requires all || aged(before.outbound[k])
    ensures var m := before.outbound[k];
            Progress(before, writable, all, aged, outcome, k + 1, outcome(|sent|) != Complete,
                     RetryStore(store, before.v5, m), sent + [RetryPacket(m)])
  {
  }

  lemma {:induction false} ProgressEnds(before: Client, writable: bool, all: bool, aged: Message -> bool, outcome: nat -> Outcome,
                     k: nat, stop: bool, after: Client, sent: seq<WirePacket>)
    requires AllStorable(before.v5, before.outbound) && (stop || k == |before.outbound|) && after == before.(store := after.store)
    requires Progress(before, writable, all, aged, outcome, k, stop, after.store, sent)
    ensures var n := if writable then Examined(before.outbound, all, aged, outcome, 0, 0) else 0;
            RetryDue(before, all, aged, n) == Effect(after, sent, []) && |sent| == Due(before.outbound, all, aged, n)
  {
    DueCounts(before, all, aged, k);
  }

  /** The connection is closed if and only if the last write failed, or was that of a PUBREL and has been
      interrupted. */
  predicate ClosedAfter(closed: bool, sent: seq<WirePacket>, outcome: nat -> Outcome) {
    closed <==> sent != [] && (outcome(|sent| - 1) == Failed || (outcome(|sent| - 1) == Interrupted && sent[|sent| - 1].Pubrel?))
  }

  // ----- What one call sends -----

  /** The messages of a list that are due, in list order: all, or those that are old enough. */
  function DueMessages(s: seq<Message>, all: bool, aged: Message -> bool): seq<Message> {
    if s == [] then []
    else
      var earlier, m := DueMessages(s[..|s| - 1], all, aged), s[|s| - 1];
      if all || aged(m) then earlier + [m] else earlier
  }

  /** The packet that sends a message again: the PUBREL of a QoS 2 message that waits for its PUBCOMP, or
      the PUBLISH of any other, with DUP set. */
  predicate Resends(p: WirePacket, m: Message) {
    if m.qos == 2 && m.next == AwaitPubcomp then p.Pubrel? && p.msgid == m.msgid
    else p.Publish? && p.dup && p.qos == m.qos && p.msgid == m.msgid && p.content == m.content
  }

  /** The packets resend these messages one by one, up to the first write that does not complete. */
  ghost predicate ResentInTurn(ps: seq<WirePacket>, ms: seq<Message>, outcome: nat -> Outcome) {
    && |ps| <= |ms| && (forall i {:trigger ps[i]} :: 0 <= i < |ps| ==> Resends(ps[i], ms[i]))
    && (forall i: nat {:trigger outcome(i)} :: i + 1 < |ps| ==> outcome(i) == Complete)
    && (|ps| < |ms| ==> ps != [] && outcome(|ps| - 1) != Complete)
  }

  /** The packets resend exactly these messages. */
  ghost predicate ResendEach(ps: seq<WirePacket>, ms: seq<Message>) {
    |ps| == |ms| && forall i {:trigger ps[i]} :: 0 <= i < |ps| ==> Resends(ps[i], ms[i])
  }

  lemma {:induction false} OneMoreDue(s: seq<Message>, all: bool, aged: Message -> bool, n: nat,
                                      ps: seq<WirePacket>, p: WirePacket, ps': seq<WirePacket>)
    requires 0 < n <= |s| && ResendEach(ps, DueMessages(s[..n - 1], all, aged)) && |ps| == Due(s, all, aged, n - 1)
    requires Resends(p, s[n - 1]) && ps' == if all || aged(s[n - 1]) then ps + [p] else ps
    ensures ResendEach(ps', DueMessages(s[..n], all, aged)) && |ps'| == Due(s, all, aged, n)
  {
    assert s[..n][..n - 1] == s[..n - 1] && s[..n][n - 1] == s[n - 1];
  }

  /** The first n messages: how many of them are due, and what the retry of those that are sends. */
  lemma {:induction false} DuePackets(c: Client, all: bool, aged: Message -> bool, n: nat)
    requires n <= |c.outbound| && ValidOutbound(c.v5, c.outbound)
    ensures var ps := RetryDue(c, all, aged, n).sent;
            ResendEach(ps, DueMessages(c.outbound[..n], all, aged)) && |ps| == Due(c.outbound, all, aged, n)
  {
    if n > 0 {
      DuePackets(c, all, aged, n - 1);
      assert Storable(c.v5, c.outbound[n - 1]);
      OneMoreDue(c.outbound, all, aged, n, RetryDue(c, all, aged, n - 1).sent, RetryPacket(c.outbound[n - 1]), RetryDue(c, all, aged, n).sent);
    }
  }

  lemma {:induction false} DueAppend(s: seq<Message>, n: nat, all: bool, aged: Message -> bool)
    requires n <= |s|
    ensures DueMessages(s[..n], all, aged) <= DueMessages(s, all, aged)
    decreases |s| - n
  {
    if n < |s| {
      DueAppend(s, n + 1, all, aged);
      assert s[..n + 1][..n] == s[..n];
    } else {
      assert s[..n] == s;
    }
  }

  ghost predicate AllComplete(outcome: nat -> Outcome, n: nat) {
    forall i: nat :: i < n ==> outcome(i) == Complete
  }

  /** Where the loop ends. */
  lemma {:induction false} ExaminedStops(s: seq<Message>, all: bool, aged: Message -> bool, outcome: nat -> Outcome, k: nat)
    requires k <= |s| && AllComplete(outcome, Due(s, all, aged, k))
    ensures var n := Examined(s, all, aged, outcome, k, Due(s, all, aged, k));
            && (n == |s| || (Due(s, all, aged, n) > 0 && outcome(Due(s, all, aged, n) - 1) != Complete))
            && forall i: nat {:trigger outcome(i)} :: i + 1 < Due(s, all, aged, n) ==> outcome(i) == Complete
    decreases |s| - k
  {
    if k < |s| {
      var sent := Due(s, all, aged, k);
      if !(all || aged(s[k])) || outcome(sent) == Complete {
        ExaminedStops(s, all, aged, outcome, k + 1);
      } else {
        assert Due(s, all, aged, k + 1) == sent + 1;
      }
    }
  }

  lemma {:induction false} LoopResends(c: Client, all: bool, aged: Message -> bool, outcome: nat -> Outcome, ps: seq<WirePacket>)
    requires ValidOutbound(c.v5, c.outbound)
    requires ps == RetryDue(c, all, aged, Examined(c.outbound, all, aged, outcome, 0, 0)).sent
    ensures ResentInTurn(ps, DueMessages(c.outbound, all, aged), outcome)
  {
    var s, n := c.outbound, Examined(c.outbound, all, aged, outcome, 0, 0);
    DuePackets(c, all, aged, n);
    DueAppend(s, n, all, aged);
    ExaminedStops(s, all, aged, outcome, 0);
    assert n == |s| ==> s[..n] == s;
  }

  /** One call, for every list, all counters, ages and outcomes: unless retries are turned off or nothing
      can be written, the messages that are old enough are sent again in list order -- all messages on a
      reconnect or while connect_sent is below connect_count -- up to the first write that does not
      complete. */
  lemma {:induction false} CallResends(c: Client, counters: Counters, regardless: bool, retryInterval: int, writable: bool,
                                       aged: Message -> bool, outcome: nat -> Outcome)
    requires ValidOutbound(c.v5, c.outbound)
    ensures var ps := RetryDue(c, All(counters, regardless), aged,
                               Reach(c.outbound, counters, regardless, retryInterval, writable, aged, outcome)).sent;
            if writable && (regardless || retryInterval > 0 || counters.sent != counters.count)
            then ResentInTurn(ps, DueMessages(c.outbound, regardless || counters.sent < counters.count, aged), outcome)
            else ps == []
  {
    if writable && !Off(counters, regardless, retryInterval) {
      LoopResends(c, All(counters, regardless), aged, outcome,
                  RetryDue(c, All(counters, regardless), aged, Examined(c.outbound, All(counters, regardless), aged, outcome, 0, 0)).sent);
    }
  }

  lemma {:induction false} NothingDue(s: seq<Message>, all: bool, aged: Message -> bool)
    ensures DueMessages(s, all, aged) == [] <==> forall i :: 0 <= i < |s| ==> !(all || aged(s[i]))
  {
    if s != [] {
      NothingDue(s[..|s| - 1], all, aged);
    }
  }

  /** With a positive interval, a socket that can be written and writes that complete: exactly the messages
      that are due are sent again, so nothing if and only if none is. */
  lemma {:induction false} IntervalResends(c: Client, counters: Counters, retryInterval: int, aged: Message -> bool, outcome: nat -> Outcome)
    requires ValidOutbound(c.v5, c.outbound) && retryInterval > 0 && forall i :: outcome(i) == Complete
    ensures var ps := RetryDue(c, All(counters, false), aged,
                               Reach(c.outbound, counters, false, retryInterval, true, aged, outcome)).sent;
            var ms := DueMessages(c.outbound, counters.sent < counters.count, aged);
            && |ps| == |ms| && (forall i {:trigger ps[i]} :: 0 <= i < |ps| ==> Resends(ps[i], ms[i]))
            && (ps == [] <==> forall i :: 0 <= i < |c.outbound| ==> !(counters.sent < counters.count || aged(c.outbound[i])))
  {
    CallResends(c, counters, false, retryInterval, true, aged, outcome);
    NothingDue(c.outbound, counters.sent < counters.count, aged);
  }

  /** The store has the packet that a retry of this message sends. */
  ghost predicate StoredAgain(v5: bool, store: Store, m: Message) {
    && Storable(v5, m)
    && if m.qos == 2 && m.next == AwaitPubcomp
       then var key := RecordKey(SentPubrel, v5, m.msgid); key in store && store[key] == PubrelRecord(m.msgid)
       else var key := RecordKey(SentPublish, v5, m.msgid);
            key in store && store[key] == PublishRecord(v5, true, m.qos, m.msgid, m.content)
  }

  lemma StoresIt(store: Store, v5: bool, m: Message)
    requires Storable(v5, m) && m.next != AwaitPubrel
    ensures StoredAgain(v5, RetryStore(store, v5, m), m)
  {
  }

  lemma StaysStored(store: Store, v5: bool, m: Message, other: Message)
    requires StoredAgain(v5, store, m) && Storable(v5, other) && other.msgid != m.msgid
    ensures StoredAgain(v5, RetryStore(store, v5, other), m)
  {
  }

  /** What a call stores: of each message sent again, the packet with its DUP flag. */
  lemma {:induction false} DueStored(c: Client, all: bool, aged: Message -> bool, n: nat, k: nat)
    requires ValidOutbound(c.v5, c.outbound) && k < n <= |c.outbound| && (all || aged(c.outbound[k]))
    ensures StoredAgain(c.v5, RetryDue(c, all, aged, n).client.store, c.outbound[k])
  {
    var before, m := RetryDue(c, all, aged, n - 1).client.store, c.outbound[n - 1];
    assert Storable(c.v5, m);
    if k == n - 1 {
      StoresIt(before, c.v5, m);
    } else {
      DueStored(c, all, aged, n - 1, k);
      StaysStored(before, c.v5, c.outbound[k], m);
    }
  }

  // ----- A reconnect -----

  lemma {:induction false} ExaminedAll(s: seq<Message>, aged: Message -> bool, outcome: nat -> Outcome, k: nat, sent: nat)
    requires k <= |s| && forall i :: outcome(i) == Complete
    ensures Examined(s, true, aged, outcome, k, sent) == |s|
    ensures Due(s, true, aged, k) == k
    ensures k == 0 ==> Due(s, true, aged, |s|) == |s|
    decreases |s| - k
  {
    AllDue(s, aged, k);
    AllDue(s, aged, |s|);
    if k < |s| {
      ExaminedAll(s, aged, outcome, k + 1, sent + 1);
    }
  }

  lemma {:induction false} AllDue(s: seq<Message>, aged: Message -> bool, n: nat)
    requires n <= |s|
    ensures Due(s, true, aged, n) == n
  {
    if n > 0 {
      AllDue(s, aged, n - 1);
    }
  }

  /** When every message is due, the retry is that of a reconnect: the first n messages, then the
      rest. */
  ghost predicate Joined(c: Client, aged: Message -> bool, n: nat)
    requires n <= |c.outbound| && AllStorable(c.v5, c.outbound)
  {
    var e := RetryDue(c, true, aged, n);
    && AllStorable(e.client.v5, e.client.outbound)
    && var rest := RetryFrom(e.client, n); RetryFrom(c, 0) == Effect(rest.client, e.sent + rest.sent, [])
  }

  lemma {:induction false} AllDueIsReconnect(c: Client, aged: Message -> bool, n: nat)
    requires n <= |c.outbound| && AllStorable(c.v5, c.outbound)
    ensures Joined(c, aged, n)
  {
    if n == 0 {
      JoinedFirst(c, aged);
    } else {
      AllDueIsReconnect(c, aged, n - 1);
      JoinedNext(c, aged, n);
    }
  }

  lemma JoinedFirst(c: Client, aged: Message -> bool)
    requires AllStorable(c.v5, c.outbound)
    ensures Joined(c, aged, 0)
  {
    RetryFromSendsEach(c, 0);
    NothingBefore(RetryFrom(c, 0));
  }

  lemma JoinedNext(c: Client, aged: Message -> bool, n: nat)
    requires 0 < n <= |c.outbound| && AllStorable(c.v5, c.outbound) && Joined(c, aged, n - 1)
    ensures Joined(c, aged, n)
  {
    var d, p := DueStep(c, aged, n);
    var e := RetryDue(c, true, aged, n - 1);
    Regroup(RetryFrom(c, 0), e.sent, p, RetryFrom(e.client, n - 1), RetryFrom(d, n));
  }

  /** One message is sent again: the packet goes from the rest to what has been sent. */
  lemma DueStep(c: Client, aged: Message -> bool, n: nat) returns (d: Client, p: WirePacket)
    requires 0 < n <= |c.outbound| && AllStorable(c.v5, c.outbound)
    ensures var e := RetryDue(c, true, aged, n - 1);
            && AllStorable(d.v5, d.outbound) && |d.outbound| == |c.outbound|
            && AllStorable(e.client.v5, e.client.outbound)
            && RetryDue(c, true, aged, n) == Effect(d, e.sent + [p], [])
            && RetryFrom(e.client, n - 1) == Effect(RetryFrom(d, n).client, [p] + RetryFrom(d, n).sent, [])
  {
    var e := RetryDue(c, true, aged, n - 1);
    StillStorable(c, e.client);
    d, p := Retry(e.client, n - 1).client, RetryPacket(e.client.outbound[n - 1]);
    StillStorable(c, d);
    RetryFromFirst(e.client, n - 1);
  }

  lemma NothingBefore(x: Effect)
    requires x.delivered == []
    ensures x == Effect(x.client, [] + x.sent, [])
  {
  }

  /** The first packet of the rest goes over to what has been sent. */
  lemma Regroup(whole: Effect, a: seq<WirePacket>, p: WirePacket, rest: Effect, after: Effect)
    requires whole == Effect(rest.client, a + rest.sent, []) && rest == Effect(after.client, [p] + after.sent, [])
    ensures whole == Effect(after.client, (a + [p]) + after.sent, [])
  {
    assert a + ([p] + after.sent) == (a + [p]) + after.sent;
  }

  // ----- What the counters lead to -----

  ghost predicate SilentFor(s: seq<Message>, c: Counters, retryInterval: int, aged: Message -> bool, outcome: nat -> Outcome) {
    Sent(s, c, false, retryInterval, true, aged, outcome) == 0
  }

  /** With a retry interval of 0 or less nothing is ever sent again between reconnects, whatever the
      ages and however the writes go, if and only if the counters are equal or there is nothing to
      send. */
  lemma ZeroIntervalIsOff(s: seq<Message>, c: Counters, retryInterval: int)
    requires retryInterval <= 0
    ensures (forall aged, outcome {:trigger SilentFor(s, c, retryInterval, aged, outcome)} :: SilentFor(s, c, retryInterval, aged, outcome))
            <==> c.sent == c.count || s == []
  {
    if c.sent != c.count && s != [] {
      var aged, outcome := (m: Message) => true, (i: nat) => Interrupted;
      assert Examined(s, All(c, false), aged, outcome, 0, 0) == 1;
      assert Due(s, All(c, false), aged, 1) == 1;
      assert !SilentFor(s, c, retryInterval, aged, outcome);
    }
  }

  /** The counters after a reconnect without errors. */
  lemma ReconnectCounts(s: seq<Message>, c: Counters, retryInterval: int, aged: Message -> bool, outcome: nat -> Outcome)
    requires forall i :: outcome(i) == Complete
    ensures After(s, c, true, retryInterval, true, aged, outcome) == Counters(|s|, c.sent + |s|)
  {
    ExaminedAll(s, aged, outcome, 0, 0);
  }

  /** A first reconnect leaves the counters equal if and only if it got through the whole list. */
  lemma FirstReconnectEqual(s: seq<Message>, retryInterval: int, writable: bool, aged: Message -> bool, outcome: nat -> Outcome)
    ensures var c := After(s, Counters(0, 0), true, retryInterval, writable, aged, outcome);
            c.sent == c.count <==> Reach(s, Counters(0, 0), true, retryInterval, writable, aged, outcome) == |s|
  {
    AllDue(s, aged, Reach(s, Counters(0, 0), true, retryInterval, writable, aged, outcome));
  }

  /** connect_sent is never set back: after a second reconnect without errors a retry interval of 0
      turns retries off if and only if the first one had nothing to send (or there is nothing now). */
  lemma SecondReconnectTurnsOn(s1: seq<Message>, s2: seq<Message>, retryInterval: int, aged: Message -> bool, outcome: nat -> Outcome)
    requires retryInterval <= 0 && forall i :: outcome(i) == Complete
    ensures var c1 := After(s1, Counters(0, 0), true, retryInterval, true, aged, outcome);
            var c2 := After(s2, c1, true, retryInterval, true, aged, outcome);
            (forall aged', outcome' {:trigger SilentFor(s2, c2, retryInterval, aged', outcome')} :: SilentFor(s2, c2, retryInterval, aged', outcome'))
            <==> s1 == [] || s2 == []
  {
    var c1 := After(s1, Counters(0, 0), true, retryInterval, true, aged, outcome);
    ReconnectCounts(s1, Counters(0, 0), retryInterval, aged, outcome);
    ReconnectCounts(s2, c1, retryInterval, aged, outcome);
    ZeroIntervalIsOff(s2, After(s2, c1, true, retryInterval, true, aged, outcome), retryInterval);
  }

  // ----- A connect retry that does not complete -----

  /** The counters before call j of a connect retry, the first call of which is the reconnect. */
  function Calls(s: seq<Message>, start: Counters, retryInterval: int, aged: nat -> Message -> bool,
                 outcomes: nat -> nat -> Outcome, j: nat): Counters
  {
    if j == 0 then start
    else
      var c := Calls(s, start, retryInterval, aged, outcomes, j - 1);
      After(s, c, j == 1, retryInterval, true, aged(j - 1), outcomes(j - 1))
  }

  /** Call j still has to do with the connect retry, and gets as far as message k. */
  ghost predicate Continues(s: seq<Message>, start: Counters, retryInterval: int, aged: nat -> Message -> bool,
                            outcomes: nat -> nat -> Outcome, j: nat, k: nat)
  {
    var c := Calls(s, start, retryInterval, aged, outcomes, j);
    All(c, j == 0) && Reach(s, c, j == 0, retryInterval, true, aged(j), outcomes(j)) > k
  }

  /** A call gets past the messages whose writes complete, from the front of the list on. */
  lemma {:induction false} ExaminedPast(s: seq<Message>, aged: Message -> bool, outcome: nat -> Outcome, a: nat, k: nat)
    requires a <= k < |s| && AllComplete(outcome, a)
    ensures Examined(s, true, aged, outcome, a, a) > k <==> AllComplete(outcome, k)
    decreases k - a
  {
    if a < k && outcome(a) == Complete {
      ExaminedPast(s, aged, outcome, a + 1, k);
    }
  }

  lemma {:induction false} CallsCount(s: seq<Message>, start: Counters, retryInterval: int, aged: nat -> Message -> bool,
                                      outcomes: nat -> nat -> Outcome, j: nat)
    requires j > 0
    ensures Calls(s, start, retryInterval, aged, outcomes, j).count == |s|
  {
    if j > 1 {
      CallsCount(s, start, retryInterval, aged, outcomes, j - 1);
    }
  }

  lemma {:induction false} ContinuesIff(s: seq<Message>, start: Counters, retryInterval: int, aged: nat -> Message -> bool,
                                        outcomes: nat -> nat -> Outcome, j: nat, k: nat)
    requires k < |s|
    ensures Continues(s, start, retryInterval, aged, outcomes, j, k) <==>
            (j == 0 || Calls(s, start, retryInterval, aged, outcomes, j).sent < |s|) && AllComplete(outcomes(j), k)
  {
    if j > 0 {
      CallsCount(s, start, retryInterval, aged, outcomes, j);
    }
    ExaminedPast(s, aged(j), outcomes(j), 0, k);
  }

  /** Some call of the connect retry reaches message k. */
  ghost predicate Reached(s: seq<Message>, start: Counters, retryInterval: int, aged: nat -> Message -> bool,
                          outcomes: nat -> nat -> Outcome, k: nat)
  {
    exists j: nat {:trigger Continues(s, start, retryInterval, aged, outcomes, j, k)} ::
      Continues(s, start, retryInterval, aged, outcomes, j, k)
  }

  /** Before call j fewer packets than connect_count have been counted, and it writes the first k
      completely. */
  ghost predicate GetsPast(s: seq<Message>, start: Counters, retryInterval: int, aged: nat -> Message -> bool,
                           outcomes: nat -> nat -> Outcome, j: nat, k: nat)
  {
    (j == 0 || Calls(s, start, retryInterval, aged, outcomes, j).sent < |s|) && AllComplete(outcomes(j), k)
  }

  /** A connect retry that does not complete is described as being continued, but each call starts from
      the front of the list again: however the writes of each call go, message k is reached if and only if
      one single call completes all writes in front of it, before the packets counted by connect_sent, of
      which many may have gone to the same messages, are as many as connect_count. */
  lemma ConnectRetryReaches(s: seq<Message>, start: Counters, retryInterval: int, aged: nat -> Message -> bool,
                            outcomes: nat -> nat -> Outcome, k: nat)
    requires k < |s|
    ensures Reached(s, start, retryInterval, aged, outcomes, k) <==>
            exists j: nat {:trigger GetsPast(s, start, retryInterval, aged, outcomes, j, k)} ::
              GetsPast(s, start, retryInterval, aged, outcomes, j, k)
  {
    forall j: nat ensures Continues(s, start, retryInterval, aged, outcomes, j, k)
                          <==> GetsPast(s, start, retryInterval, aged, outcomes, j, k) {
      ContinuesIff(s, start, retryInterval, aged, outcomes, j, k);
    }
  }

  /** So with every write interrupted all messages are reached if and only if there is at most one. */
  lemma ConnectRetryNotContinued(s: seq<Message>, start: Counters, retryInterval: int, aged: nat -> Message -> bool,
                                 outcomes: nat -> nat -> Outcome)
    requires forall j: nat, i: nat :: outcomes(j)(i) == Interrupted
    ensures (forall k: nat {:trigger Reached(s, start, retryInterval, aged, outcomes, k)} ::
              k < |s| ==> Reached(s, start, retryInterval, aged, outcomes, k)) <==> |s| <= 1
  {
    forall k: nat | k < |s| ensures Reached(s, start, retryInterval, aged, outcomes, k) <==> k == 0 {
      ConnectRetryReaches(s, start, retryInterval, aged, outcomes, k);
      forall j: nat ensures AllComplete(outcomes(j), k) <==> k == 0 {
        assert outcomes(j)(0) == Interrupted;
      }
      assert k == 0 ==> GetsPast(s, start, retryInterval, aged, outcomes, 0, k);
    }
    assert |s| > 1 ==> !Reached(s, start, retryInterval, aged, outcomes, 1);
  }
}
