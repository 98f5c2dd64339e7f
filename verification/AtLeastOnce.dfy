/** QoS 1 between two joined clients: exactly when a message that leaves the sender's list has been
    handed over (section 4.3.2 of MQTT 3.1.1). */
module AtLeastOnce {
  import opened Wrappers
  import opened Types
  import opened MessageIds
  import opened MessageLists
  import opened Packets
  import opened Session
  import opened CrashRestore
  import opened Exchange
  import opened Protocol
  import opened ProtocolRuns
  import opened ExactlyOnce

  predicate IsPublish1(p: WirePacket) {
    p.Publish? && p.qos == 1
  }

  /** The content of the first QoS 1 PUBLISH under way. */
  function FirstPublish1(requests: seq<WirePacket>): Option<Content> {
    if requests == [] then None
    else if IsPublish1(requests[0]) then Some(requests[0].content)
    else FirstPublish1(requests[1..])
  }

  ghost predicate NoPuback(answers: seq<WirePacket>) {
    forall i :: 0 <= i < |answers| ==> !answers[i].Puback?
  }

  /** Of earlier exchanges of this id neither a PUBACK is under way, nor a PUBLISH of something else
      that would be acknowledged first. */
  ghost predicate NothingMisleads(v: View, content: Content) {
    && NoPuback(v.answers)
    && (FirstPublish1(v.requests).Some? ==> FirstPublish1(v.requests).value == content)
  }

  /** Not acknowledged, and nothing can be taken for its acknowledgement. */
  ghost predicate Waiting(v: View, content: Content) {
    && v.sent.Some? && v.sent.value.qos == 1 && v.sent.value.content == content
    && NothingMisleads(v, content)
  }

  /** The message has been handed over since the log had n entries. */
  ghost predicate Handed(s: System, n: nat, id: nat, content: Content) {
    exists i :: n <= i < |s.fromLeft.delivered| && s.fromLeft.delivered[i] == Delivery(1, id, content)
  }

  // ----- One exchange -----

  lemma {:induction false} FirstPublish1Append(requests: seq<WirePacket>, p: WirePacket)
    ensures FirstPublish1(requests + [p]) ==
            if FirstPublish1(requests).Some? then FirstPublish1(requests)
            else if IsPublish1(p) then Some(p.content) else None
  {
    if requests == [] {
      assert [p][1..] == [];
    } else {
      assert (requests + [p])[1..] == requests[1..] + [p];
      FirstPublish1Append(requests[1..], p);
    }
  }

  lemma BegunWaits(v: View, m: Message)
    requires NothingMisleads(v, m.content) && m.qos == 1 && m.msgid >= 0
    ensures Waiting(Begun(v, m), m.content)
  {
    FirstPublish1Append(v.requests, Publish(false, m.qos, m.msgid, m.content));
  }

  lemma RepeatedWaits(v: View, content: Content)
    requires Waiting(v, content) && v.sent.value.msgid >= 0
    ensures Waiting(Repeated(v), content)
  {
    FirstPublish1Append(v.requests, RetryPacket(v.sent.value));
  }

  lemma AnsweredWaits(v: View, content: Content)
    requires Waiting(v, content) && v.answers != []
    ensures Waiting(Answered(v), content)
  {
    FirstPublish1Append(v.requests, Pubrel(v.answers[0].msgid));
    assert forall i :: 0 <= i < |v.answers[1..]| ==> v.answers[1..][i] == v.answers[i + 1];
  }

  /** Taking a request keeps it waiting, or is the hand-over. */
  lemma TakenWaits(v5: bool, v: View, content: Content)
    requires Waiting(v, content) && v.requests != []
    ensures if IsPublish1(v.requests[0]) then v.requests[0].content == content else Waiting(Taken(v5, v), content)
  {
  }

  // ----- Every step -----

  /** What was handed over stays handed over. */
  lemma DeliveredGrows(s: System, move: Move)
    ensures s.fromLeft.delivered <= Next(s, move).fromLeft.delivered
  {
  }

  lemma HandedStays(s: System, t: System, n: nat, id: nat, content: Content)
    requires Handed(s, n, id, content) && s.fromLeft.delivered <= t.fromLeft.delivered
    ensures Handed(t, n, id, content)
  {
    var i :| n <= i < |s.fromLeft.delivered| && s.fromLeft.delivered[i] == Delivery(1, id, content);
    assert t.fromLeft.delivered[i] == Delivery(1, id, content);
  }

  lemma LeftKeepsWaiting(s: System, step: Step, id: nat, content: Content)
    requires Inv(s) && Waiting(ViewOf(s, id), content)
    ensures Waiting(ViewOf(LeftStep(s, step), id), content)
  {
    if Enabled(s, step) {
      match step {
        case Send(qos, j, c) => SendViews(s, qos, j, c, id);
        case Resend(k) =>
          ResendViews(s, k, id);
          RepeatedWaits(ViewOf(s, id), content);
        case Receive =>
          if IsRequest(s.toLeft[0]) {
            RequestLeavesAnswers(s, id);
          } else {
            AnswerViews(s, id);
            if id == s.toLeft[0].msgid {
              AnsweredWaits(ViewOf(s, id), content);
            }
          }
        case Cut =>
        case Crash(keys) => RestoreBringsBack(s.left, keys, id);
      }
    }
  }

  /** The right side takes the packet at the front; s is seen from the right. */
  lemma RightTakesFront(s: System, n: nat, id: nat, content: Content)
    requires Inv(s) && Waiting(ViewOf(Flip(s), id), content) && n <= |s.fromRight.delivered| && Enabled(s, Receive)
    ensures Waiting(ViewOf(Flip(LeftStep(s, Receive)), id), content) || Handed(Flip(LeftStep(s, Receive)), n, id, content)
  {
    var p := s.toLeft[0];
    if IsRequest(p) {
      RequestViews(s, id);
      if id == p.msgid {
        assert ViewOf(Flip(s), id).requests[0] == p;
        TakenWaits(s.left.v5, ViewOf(Flip(s), id), content);
        if IsPublish1(p) {
          RequestEffect(s.left, p);
          assert LeftStep(s, Receive).fromRight.delivered[|s.fromRight.delivered|] == Delivery(1, id, content);
        }
      }
    } else {
      AnswerViews(s, id);
    }
  }

  /** The right side's steps; s is seen from the right. */
  lemma RightKeepsWaiting(s: System, step: Step, n: nat, id: nat, content: Content)
    requires Inv(s) && Waiting(ViewOf(Flip(s), id), content) && n <= |s.fromRight.delivered|
    ensures Waiting(ViewOf(Flip(LeftStep(s, step)), id), content) || Handed(Flip(LeftStep(s, step)), n, id, content)
  {
    if Enabled(s, step) {
      match step {
        case Send(qos, j, c) => SendViews(s, qos, j, c, id);
        case Resend(k) => ResendViews(s, k, id);
        case Receive => RightTakesFront(s, n, id, content);
        case Cut =>
        case Crash(keys) => RestoreBringsBack(s.left, keys, id);
      }
    }
  }

  /** Whatever happens next, the message is waiting or has been handed over. */
  ghost predicate Accounted(s: System, n: nat, id: nat, content: Content) {
    Waiting(ViewOf(s, id), content) || Handed(s, n, id, content)
  }

  lemma StepKeepsAccounted(s: System, move: Move, n: nat, id: nat, content: Content)
    requires Inv(s) && n <= |s.fromLeft.delivered| && Accounted(s, n, id, content)
    ensures Accounted(Next(s, move), n, id, content)
  {
    DeliveredGrows(s, move);
    if Handed(s, n, id, content) {
      HandedStays(s, Next(s, move), n, id, content);
    } else if move.onLeft {
      LeftKeepsWaiting(s, move.step, id, content);
    } else {
      FlipInv(s);
      RightKeepsWaiting(Flip(s), move.step, n, id, content);
    }
  }

  lemma {:induction false} RunKeepsAccounted(s: System, moves: seq<Move>, n: nat, id: nat, content: Content)
    requires Inv(s) && n <= |s.fromLeft.delivered| && Accounted(s, n, id, content)
    ensures Accounted(Run(s, moves), n, id, content) && s.fromLeft.delivered <= Run(s, moves).fromLeft.delivered
    decreases |moves|
  {
    if moves != [] {
      var earlier := moves[..|moves| - 1];
      RunKeepsAccounted(s, earlier, n, id, content);
      RunKeepsInv(s, earlier);
      StepKeepsAccounted(Run(s, earlier), moves[|moves| - 1], n, id, content);
      DeliveredGrows(Run(s, earlier), moves[|moves| - 1]);
    }
  }

  // ----- How a message gets lost -----

  function Receives(onLeft: bool, n: nat): (moves: seq<Move>)
    ensures |moves| == n
  {
    seq(n, _ => Move(onLeft, Receive))
  }

  lemma ReceivesFirst(onLeft: bool, n: nat)
    requires n > 0
    ensures Receives(onLeft, n) == [Move(onLeft, Receive)] + Receives(onLeft, n - 1)
  {
  }

  /** A QoS 1 message of this id is in flight. */
  ghost predicate InFlight1(s: System, id: nat) {
    Find(s.left.outbound, id).Some? && Find(s.left.outbound, id).value.qos == 1
  }

  /** The left side takes one packet; only a PUBACK ends the exchange. */
  lemma LeftTakesOne(s: System, id: nat)
    requires Inv(s) && InFlight1(s, id) && s.toLeft != []
    ensures var t := Next(s, Move(true, Receive));
            && Inv(t) && t.toLeft == s.toLeft[1..] && t.fromLeft == s.fromLeft
            && (if s.toLeft[0] == Puback(id) then Find(t.left.outbound, id) == None else InFlight1(t, id))
  {
    StepKeepsInv(s, Move(true, Receive));
    if IsRequest(s.toLeft[0]) {
      RequestEffect(s.left, s.toLeft[0]);
    } else {
      AnswerFinds(s.left, s.toLeft[0], id);
    }
  }

  /** A PUBACK under way arrives and ends the exchange, and nothing is handed over meanwhile. */
  lemma {:induction false} PubackArrives(s: System, id: nat, j: nat)
    requires Inv(s) && InFlight1(s, id) && j < |s.toLeft| && s.toLeft[j] == Puback(id)
    requires forall i :: 0 <= i < j ==> s.toLeft[i] != Puback(id)
    ensures var t := Run(s, Receives(true, j + 1));
            Find(t.left.outbound, id) == None && t.fromLeft == s.fromLeft
    decreases j
  {
    var t := Next(s, Move(true, Receive));
    LeftTakesOne(s, id);
    OneReceived(s, t, true, j);
    if j > 0 {
      PubackArrives(t, id, j - 1);
    }
  }

  lemma FirstPuback(ps: seq<WirePacket>, id: nat, k: nat) returns (j: nat)
    requires k < |ps| && ps[k] == Puback(id)
    ensures j <= k && ps[j] == Puback(id) && forall i :: 0 <= i < j ==> ps[i] != Puback(id)
  {
    j := 0;
    while ps[j] != Puback(id)
      invariant j <= k && forall i :: 0 <= i < j ==> ps[i] != Puback(id)
      decreases k - j
    {
      j := j + 1;
    }
  }

  ghost predicate Lost(s: System, moves: seq<Move>, n: nat, id: nat, content: Content) {
    Find(Run(s, moves).left.outbound, id) == None && !Handed(Run(s, moves), n, id, content)
  }

  /** So a message whose left-over PUBACK is under way can get lost. */
  lemma PubackLoses(s: System, n: nat, id: nat, content: Content, k: nat) returns (moves: seq<Move>)
    requires Inv(s) && InFlight1(s, id) && k < |s.toLeft| && s.toLeft[k] == Puback(id)
    requires !Handed(s, n, id, content)
    ensures Lost(s, moves, n, id, content)
  {
    var j := FirstPuback(s.toLeft, id, k);
    PubackArrives(s, id, j);
    moves := Receives(true, j + 1);
  }

  /** The right side takes one packet. */
  lemma RightTakesOne(s: System, id: nat)
    requires Inv(s) && s.toRight != []
    ensures var t, p := Next(s, Move(false, Receive)), s.toRight[0];
            && Inv(t) && t.toRight == s.toRight[1..] && t.left == s.left && t.left.v5 == s.left.v5
            && (IsPublish1(p) ==> t.toLeft == s.toLeft + [Puback(p.msgid)])
            && (IsPublish1(p) ==> t.fromLeft.delivered == s.fromLeft.delivered + [Delivery(1, p.msgid, p.content)])
            && (!IsPublish1(p) ==> exists more: seq<Delivery> {:trigger s.fromLeft.delivered + more} ::
                  t.fromLeft.delivered == s.fromLeft.delivered + more && forall i :: 0 <= i < |more| ==> more[i].qos == 2)
  {
    StepKeepsInv(s, Move(false, Receive));
    FlipInv(s);
    var p := s.toRight[0];
    if IsRequest(p) {
      RequestEffect(s.right, p);
    } else {
      AnswerEffect(s.right, p);
    }
    var e := Handle(s.right, p);
    assert Next(s, Move(false, Receive)).fromLeft.delivered == s.fromLeft.delivered + e.delivered;
  }

  ghost predicate OtherPublish1(p: WirePacket, id: nat, content: Content) {
    IsPublish1(p) ==> p.msgid != id || p.content != content
  }

  lemma RightTakesOther(s: System, n: nat, id: nat, content: Content)
    requires Inv(s) && s.toRight != [] && OtherPublish1(s.toRight[0], id, content) && !Handed(s, n, id, content)
    ensures !Handed(Next(s, Move(false, Receive)), n, id, content)
  {
    RightTakesOne(s, id);
    var d := s.fromLeft.delivered;
    if !IsPublish1(s.toRight[0]) {
      var more: seq<Delivery> :| Next(s, Move(false, Receive)).fromLeft.delivered == d + more
                                 && forall i :: 0 <= i < |more| ==> more[i].qos == 2;
      assert forall i :: |d| <= i < |d + more| ==> (d + more)[i] == more[i - |d|];
    }
  }

  /** The first PUBLISH of this id and content, if there is one, comes after message k, which is one of this
      id with another content. */
  ghost predicate OtherFirst(ps: seq<WirePacket>, id: nat, content: Content, k: nat) {
    && k < |ps| && IsPublish1(ps[k]) && ps[k].msgid == id && ps[k].content != content
    && forall i {:trigger OtherPublish1(ps[i], id, content)} :: 0 <= i < k ==> OtherPublish1(ps[i], id, content)
  }

  /** One packet in front of it is taken. */
  lemma OtherNearer(s: System, n: nat, id: nat, content: Content, k: nat) returns (t: System)
    requires Inv(s) && OtherFirst(s.toRight, id, content, k) && !Handed(s, n, id, content)
    ensures t == Next(s, Move(false, Receive)) && Inv(t) && t.left == s.left && !Handed(t, n, id, content)
    ensures if k > 0 then OtherFirst(t.toRight, id, content, k - 1)
            else t.toLeft != [] && t.toLeft[|t.toLeft| - 1] == Puback(id)
  {
    t := Next(s, Move(false, Receive));
    assert k > 0 ==> OtherPublish1(s.toRight[0], id, content);
    RightTakesOne(s, id);
    RightTakesOther(s, n, id, content);
    if k > 0 {
      assert forall i :: 0 <= i < k ==> t.toRight[i] == s.toRight[i + 1];
      forall i | 0 <= i < k - 1 ensures OtherPublish1(t.toRight[i], id, content) {
        assert OtherPublish1(s.toRight[i + 1], id, content);
      }
    }
  }

  /** A PUBLISH of something else arrives first: its PUBACK is then under way. */
  lemma {:induction false} OtherArrives(s: System, n: nat, id: nat, content: Content, k: nat) returns (t: System)
    requires Inv(s) && OtherFirst(s.toRight, id, content, k) && !Handed(s, n, id, content)
    ensures t == Run(s, Receives(false, k + 1)) && Inv(t) && t.left == s.left && !Handed(t, n, id, content)
    ensures t.toLeft != [] && t.toLeft[|t.toLeft| - 1] == Puback(id)
    decreases k
  {
    var s' := OtherNearer(s, n, id, content, k);
    OneReceived(s, s', false, k);
    if k > 0 {
      t := OtherArrives(s', n, id, content, k - 1);
    } else {
      t := s';
    }
  }

  lemma {:induction false} OneReceived(s: System, t: System, onLeft: bool, k: nat)
    requires t == Next(s, Move(onLeft, Receive))
    ensures Run(s, Receives(onLeft, k + 1)) == Run(t, Receives(onLeft, k)) && (k == 0 ==> Run(t, Receives(onLeft, k)) == t)
  {
    ReceivesFirst(onLeft, k + 1);
    RunSplit(s, Move(onLeft, Receive), Receives(onLeft, k));
  }

  lemma OtherLoses(s: System, n: nat, id: nat, content: Content, k: nat) returns (moves: seq<Move>)
    requires Inv(s) && InFlight1(s, id)
    requires OtherFirst(s.toRight, id, content, k) && !Handed(s, n, id, content)
    ensures Lost(s, moves, n, id, content)
  {
    var first := Receives(false, k + 1);
    var t := OtherArrives(s, n, id, content, k);
    var rest := LastPubackLoses(t, n, id, content);
    moves := first + rest;
    LostLater(s, first, t, rest, moves, n, id, content);
  }

  lemma LastPubackLoses(s: System, n: nat, id: nat, content: Content) returns (moves: seq<Move>)
    requires Inv(s) && InFlight1(s, id) && s.toLeft != [] && s.toLeft[|s.toLeft| - 1] == Puback(id) && !Handed(s, n, id, content)
    ensures Lost(s, moves, n, id, content)
  {
    moves := PubackLoses(s, n, id, content, |s.toLeft| - 1);
  }

  lemma {:induction false} LostLater(s: System, first: seq<Move>, t: System, rest: seq<Move>, moves: seq<Move>, n: nat, id: nat, content: Content)
    requires t == Run(s, first) && Lost(t, rest, n, id, content) && moves == first + rest
    ensures Lost(s, moves, n, id, content)
  {
    RunAppend(s, first, rest);
  }

  // ----- The left-overs, found among all packets -----

  lemma {:induction false} AboutPuback(ps: seq<WirePacket>, id: nat) returns (k: nat)
    requires !NoPuback(About(ps, id, false))
    ensures k < |ps| && ps[k] == Puback(id)
    decreases |ps|
  {
    if ps[0] == Puback(id) {
      k := 0;
    } else {
      var rest := About(ps[1..], id, false);
      assert About(ps, id, false) == rest || About(ps, id, false) == [ps[0]] + rest;
      k := AboutPuback(ps[1..], id);
      k := k + 1;
    }
  }

  /** The first QoS 1 PUBLISH of an id, and that none comes before it. */
  lemma {:induction false} AboutPublish1(ps: seq<WirePacket>, id: nat) returns (k: nat)
    requires FirstPublish1(About(ps, id, true)).Some?
    ensures k < |ps| && IsPublish1(ps[k]) && ps[k].msgid == id
    ensures ps[k].content == FirstPublish1(About(ps, id, true)).value
    ensures forall i :: 0 <= i < k ==> !(IsPublish1(ps[i]) && ps[i].msgid == id)
    decreases |ps|
  {
    var rest := About(ps[1..], id, true);
    if IsPublish1(ps[0]) && ps[0].msgid == id {
      assert About(ps, id, true) == [ps[0]] + rest;
      k := 0;
    } else {
      if ps[0].msgid == id && IsRequest(ps[0]) {
        assert About(ps, id, true) == [ps[0]] + rest && About(ps, id, true)[1..] == rest;
      }
      k := AboutPublish1(ps[1..], id);
      k := k + 1;
    }
  }

  // ----- Exactly when it is at least once -----

  /** Whatever happens after this state, once no message of the id is in flight any more, the message
      has been handed over. */
  ghost predicate SurelyHandedOver(s: System, n: nat, id: nat, content: Content) {
    forall moves {:trigger Run(s, moves)} :: Find(Run(s, moves).left.outbound, id) == None ==> Handed(Run(s, moves), n, id, content)
  }

  lemma SendSteps(s: System, id: nat, content: Content)
    requires Inv(s) && Enabled(s, Send(1, id, content))
    ensures var t := Next(s, Move(true, Send(1, id, content)));
            && Inv(t) && InFlight1(t, id) && t.toLeft == s.toLeft && t.fromLeft.delivered == s.fromLeft.delivered
            && t.toRight == s.toRight + [Publish(false, 1, id, content)]
            && ViewOf(t, id) == Begun(ViewOf(s, id), Message(id, 1, content, AwaitPubrec))
  {
    StepKeepsInv(s, Move(true, Send(1, id, content)));
    SendViews(s, 1, id, content, id);
  }

  lemma NothingMisleadsSuffices(s: System, id: nat, content: Content)
    requires Inv(s) && Enabled(s, Send(1, id, content)) && NothingMisleads(ViewOf(s, id), content)
    ensures SurelyHandedOver(Next(s, Move(true, Send(1, id, content))), |s.fromLeft.delivered|, id, content)
  {
    var t, n := Next(s, Move(true, Send(1, id, content))), |s.fromLeft.delivered|;
    SendSteps(s, id, content);
    BegunWaits(ViewOf(s, id), Message(id, 1, content, AwaitPubrec));
    forall moves | Find(Run(t, moves).left.outbound, id) == None ensures Handed(Run(t, moves), n, id, content) {
      RunKeepsAccounted(t, moves, n, id, content);
    }
  }

  lemma MisleadingLoses(s: System, id: nat, content: Content) returns (moves: seq<Move>)
    requires Inv(s) && Enabled(s, Send(1, id, content)) && !NothingMisleads(ViewOf(s, id), content)
    ensures Lost(Next(s, Move(true, Send(1, id, content))), moves, |s.fromLeft.delivered|, id, content)
  {
    var t, n := Next(s, Move(true, Send(1, id, content))), |s.fromLeft.delivered|;
    SendSteps(s, id, content);
    if !NoPuback(About(s.toLeft, id, false)) {
      var k := AboutPuback(s.toLeft, id);
      moves := PubackLoses(t, n, id, content, k);
    } else {
      var k := AboutPublish1(s.toRight, id);
      assert forall i :: 0 <= i <= k ==> t.toRight[i] == s.toRight[i];
      moves := OtherLoses(t, n, id, content, k);
    }
  }

  /** At least once, exactly: in every reachable state, a QoS 1 message sent now is sure to be handed
      over before it leaves the sender's list if and only if no PUBACK of its id is under way, and the
      first QoS 1 PUBLISH of its id under way, if there is one, has the same content. */
  lemma {:induction false} AtLeastOnceExactly(v5: bool, before: seq<Move>, id: nat, content: Content)
    requires Enabled(Run(Start(v5), before), Send(1, id, content))
    ensures var s := Run(Start(v5), before);
            SurelyHandedOver(Next(s, Move(true, Send(1, id, content))), |s.fromLeft.delivered|, id, content)
            <==> NothingMisleads(ViewOf(s, id), content)
  {
    StartInv(v5);
    RunKeepsInv(Start(v5), before);
    var s := Run(Start(v5), before);
    if NothingMisleads(ViewOf(s, id), content) {
      NothingMisleadsSuffices(s, id, content);
    } else {
      var moves := MisleadingLoses(s, id, content);
      assert Lost(Next(s, Move(true, Send(1, id, content))), moves, |s.fromLeft.delivered|, id, content);
    }
  }

  /** Of an id with nothing left over: no QoS 1 PUBLISH towards the receiver and no PUBACK back. */
  ghost predicate NothingLeftOver(v: View) {
    NoPuback(v.answers) && forall i :: 0 <= i < |v.requests| ==> !IsPublish1(v.requests[i])
  }

  lemma {:induction false} NoFirstPublish1(requests: seq<WirePacket>)
    ensures FirstPublish1(requests) == None <==> forall i :: 0 <= i < |requests| ==> !IsPublish1(requests[i])
  {
    if requests != [] {
      NoFirstPublish1(requests[1..]);
      assert forall i :: 0 < i < |requests| ==> requests[i] == requests[1..][i - 1];
    }
  }

  /** A content other than this one that can be sent wherever this one can. */
  function Another(c: Content): (d: Content)
    ensures d != c
  {
    c.(retain := !c.retain)
  }

  lemma AnotherEncodable(v5: bool, id: nat, c: Content)
    requires Encodable(v5, 1, id, c)
    ensures Encodable(v5, 1, id, Another(c))
  {
  }

  /** Whatever its content, a QoS 1 message sent now is sure to be handed over if and only if nothing of
      an earlier QoS 1 exchange of its id is under way. */
  lemma {:induction false} AtLeastOnceForAll(v5: bool, before: seq<Move>, id: nat, content: Content)
    requires Enabled(Run(Start(v5), before), Send(1, id, content))
    ensures var s := Run(Start(v5), before);
            (forall c: Content :: Enabled(s, Send(1, id, c)) ==>
              SurelyHandedOver(Next(s, Move(true, Send(1, id, c))), |s.fromLeft.delivered|, id, c))
            <==> NothingLeftOver(ViewOf(s, id))
  {
    var s := Run(Start(v5), before);
    var v := ViewOf(s, id);
    NoFirstPublish1(v.requests);
    forall c: Content | Enabled(s, Send(1, id, c))
      ensures SurelyHandedOver(Next(s, Move(true, Send(1, id, c))), |s.fromLeft.delivered|, id, c) <==> NothingMisleads(v, c)
    {
      AtLeastOnceExactly(v5, before, id, c);
    }
    if !NothingLeftOver(v) {
      AnotherEncodable(s.left.v5, id, content);
      assert Enabled(s, Send(1, id, Another(content)));
      assert !NothingMisleads(v, content) || !NothingMisleads(v, Another(content));
    }
  }

  // ----- A message that is lost -----

  /** The run: a message is sent and, within the connection, sent again; both copies arrive and are
      acknowledged, the first PUBACK frees the id, a second message takes it, and the second PUBACK is
      taken for its acknowledgement before the connection is cut. */
  function LosingRun(id: nat, first: Content, second: Content): seq<Move> {
    [Move(true, Send(1, id, first)), Move(true, Resend(0))]
    + [Move(false, Receive), Move(false, Receive)]
    + [Move(true, Receive), Move(true, Send(1, id, second))]
    + [Move(true, Receive), Move(true, Cut)]
  }

  /** What matters of a state on the way. */
  ghost predicate Situation(s: System, v5: bool, outbound: seq<Message>, toRight: seq<WirePacket>, toLeft: seq<WirePacket>, log: Log) {
    s.left.v5 == v5 && s.right.v5 == v5 && s.left.outbound == outbound && s.toRight == toRight && s.toLeft == toLeft && s.fromLeft == log
  }

  lemma Sends(s: System, v5: bool, id: nat, content: Content, toLeft: seq<WirePacket>, log: Log)
    requires Situation(s, v5, [], [], toLeft, log) && IsId(id) && Encodable(v5, 1, id, content)
    ensures Situation(Next(s, Move(true, Send(1, id, content))), v5, [Message(id, 1, content, AwaitPubrec)],
                      [Publish(false, 1, id, content)], toLeft, log.(published := log.published + [Delivery(1, id, content)]))
  {
  }

  lemma SendsAgain(s: System, v5: bool, id: nat, content: Content, log: Log)
    requires Situation(s, v5, [Message(id, 1, content, AwaitPubrec)], [Publish(false, 1, id, content)], [], log)
    requires IsId(id) && Encodable(v5, 1, id, content)
    ensures Situation(Next(s, Move(true, Resend(0))), v5, [Message(id, 1, content, AwaitPubrec)],
                      [Publish(false, 1, id, content), Publish(true, 1, id, content)], [], log)
  {
  }

  lemma RightTakesPublish(s: System, v5: bool, m: Message, dup: bool, id: nat, content: Content, more: seq<WirePacket>, toLeft: seq<WirePacket>, log: Log)
    requires Situation(s, v5, [m], [Publish(dup, 1, id, content)] + more, toLeft, log)
    requires IsId(id) && Encodable(v5, 1, id, content)
    ensures Situation(Next(s, Move(false, Receive)), v5, [m], more, toLeft + [Puback(id)],
                      log.(delivered := log.delivered + [Delivery(1, id, content)]))
  {
    assert s.toRight[1..] == more;
  }

  lemma LeftTakesPuback(s: System, v5: bool, id: nat, content: Content, toRight: seq<WirePacket>, more: seq<WirePacket>, log: Log)
    requires Situation(s, v5, [Message(id, 1, content, AwaitPubrec)], toRight, [Puback(id)] + more, log)
    ensures Situation(Next(s, Move(true, Receive)), v5, [], toRight, more, log)
  {
    assert s.toLeft[1..] == more;
    assert s.toRight + [] == s.toRight && s.fromRight.delivered + [] == s.fromRight.delivered;
  }

  /** The first message: sent and sent again. */
  lemma SentTwice(v5: bool, id: nat, content: Content)
    requires IsId(id) && Encodable(v5, 1, id, content)
    ensures Situation(Run(Start(v5), [Move(true, Send(1, id, content)), Move(true, Resend(0))]), v5, [Message(id, 1, content, AwaitPubrec)],
                      [Publish(false, 1, id, content), Publish(true, 1, id, content)], [], Log([Delivery(1, id, content)], []))
  {
    RunPair(Start(v5), Move(true, Send(1, id, content)), Move(true, Resend(0)));
    Sends(Start(v5), v5, id, content, [], Log([], []));
    SendsAgain(Next(Start(v5), Move(true, Send(1, id, content))), v5, id, content, Log([Delivery(1, id, content)], []));
  }

  /** Both copies are taken. */
  lemma {:induction false} TakenTwice(s: System, v5: bool, id: nat, content: Content)
    requires IsId(id) && Encodable(v5, 1, id, content)
    requires Situation(s, v5, [Message(id, 1, content, AwaitPubrec)], [Publish(false, 1, id, content), Publish(true, 1, id, content)], [],
                       Log([Delivery(1, id, content)], []))
    ensures var d := Delivery(1, id, content);
            Situation(Run(s, [Move(false, Receive), Move(false, Receive)]), v5, [Message(id, 1, content, AwaitPubrec)], [],
                      [Puback(id), Puback(id)], Log([d], [d, d]))
  {
    var d, m, b := Delivery(1, id, content), Message(id, 1, content, AwaitPubrec), Move(false, Receive);
    RunPair(s, b, b);
    FirstOfTwo(Publish(false, 1, id, content), Publish(true, 1, id, content));
    RightTakesPublish(s, v5, m, false, id, content, [Publish(true, 1, id, content)], [], Log([d], []));
    RightTakesPublish(Next(s, b), v5, m, true, id, content, [], [Puback(id)], Log([d], [d]));
  }

  lemma FirstOfTwo(first: WirePacket, second: WirePacket)
    ensures [first, second] == [first] + [second] && [second] == [second] + []
  {
  }

  /** The first PUBACK frees the id, and the second message takes it. */
  lemma {:induction false} SecondSent(s: System, v5: bool, id: nat, first: Content, second: Content)
    requires IsId(id) && Encodable(v5, 1, id, second)
    requires var d := Delivery(1, id, first);
             Situation(s, v5, [Message(id, 1, first, AwaitPubrec)], [], [Puback(id), Puback(id)], Log([d], [d, d]))
    ensures var d, e := Delivery(1, id, first), Delivery(1, id, second);
            Situation(Run(s, [Move(true, Receive), Move(true, Send(1, id, second))]), v5, [Message(id, 1, second, AwaitPubrec)],
                      [Publish(false, 1, id, second)], [Puback(id)], Log([d, e], [d, d]))
  {
    var d, e := Delivery(1, id, first), Delivery(1, id, second);
    FirstOfTwo(Puback(id), Puback(id));
    assert [d] + [e] == [d, e];
    LeftTakesPuback(s, v5, id, first, [], [Puback(id)], Log([d], [d, d]));
    Sends(Next(s, Move(true, Receive)), v5, id, second, [Puback(id)], Log([d], [d, d]));
    RunPair(s, Move(true, Receive), Move(true, Send(1, id, second)));
  }

  /** The second PUBACK is taken for its acknowledgement, and the connection is cut. */
  lemma {:induction false} SecondDropped(s: System, v5: bool, id: nat, second: Content, log: Log)
    requires Situation(s, v5, [Message(id, 1, second, AwaitPubrec)], [Publish(false, 1, id, second)], [Puback(id)], log)
    ensures Situation(Run(s, [Move(true, Receive), Move(true, Cut)]), v5, [], [], [], log)
  {
    FirstOfTwo(Puback(id), Puback(id));
    LeftTakesPuback(s, v5, id, second, [Publish(false, 1, id, second)], [], log);
    RunPair(s, Move(true, Receive), Move(true, Cut));
  }

  /** In every version it ends with nothing in flight, nothing under way, and the second message
      published but never handed over. */
  lemma SecondMessageLost(v5: bool, id: nat, first: Content, second: Content)
    requires IsId(id) && Encodable(v5, 1, id, first) && Encodable(v5, 1, id, second) && first != second
    ensures var s := Run(Start(v5), LosingRun(id, first, second));
            && s.left.outbound == [] && s.toLeft == [] && s.toRight == []
            && s.fromLeft.published == [Delivery(1, id, first), Delivery(1, id, second)]
            && s.fromLeft.delivered == [Delivery(1, id, first), Delivery(1, id, first)]
            && Delivery(1, id, second) !in s.fromLeft.delivered
  {
    var a, b := [Move(true, Send(1, id, first)), Move(true, Resend(0))], [Move(false, Receive), Move(false, Receive)];
    var c, d := [Move(true, Receive), Move(true, Send(1, id, second))], [Move(true, Receive), Move(true, Cut)];
    SentTwice(v5, id, first);
    TakenTwice(Run(Start(v5), a), v5, id, first);
    SecondSent(Run(Run(Start(v5), a), b), v5, id, first, second);
    SecondDropped(Run(Run(Run(Start(v5), a), b), c), v5, id, second, Run(Run(Run(Start(v5), a), b), c).fromLeft);
    RunAppend(Start(v5), a, b);
    RunAppend(Start(v5), a + b, c);
    RunAppend(Start(v5), a + b + c, d);
  }
}
