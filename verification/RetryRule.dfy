/** At-least-once delivery of QoS 1 for a client that sends a message again only when nothing of it is
    under way, as it is right after a cut (section 4.3.2 of MQTT 3.1.1). */
module RetryRule {
  import opened Wrappers
  import opened Types
  import opened Session
  import opened Exchange
  import opened Protocol
  import opened ProtocolRuns
  import opened ExactlyOnce
  import opened AtLeastOnce

  // ----- One exchange -----

  function Publishes1(requests: seq<WirePacket>): nat {
    if requests == [] then 0 else (if IsPublish1(requests[0]) then 1 else 0) + Publishes1(requests[1..])
  }

  function Pubacks(answers: seq<WirePacket>): nat {
    if answers == [] then 0 else (if answers[0].Puback? then 1 else 0) + Pubacks(answers[1..])
  }

  /** One packet at most is under way of a QoS 1 exchange, a PUBLISH there or a PUBACK back, and none
      without its message in flight. */
  ghost predicate AtMostOne(v: View) {
    Publishes1(v.requests) + Pubacks(v.answers) <= if v.sent.Some? && v.sent.value.qos == 1 then 1 else 0
  }

  lemma {:induction false} Publishes1Append(requests: seq<WirePacket>, p: WirePacket)
    ensures Publishes1(requests + [p]) == Publishes1(requests) + if IsPublish1(p) then 1 else 0
  {
    if requests == [] {
      assert requests + [p] == [p] && [p][1..] == [];
    } else {
      assert (requests + [p])[1..] == requests[1..] + [p];
      Publishes1Append(requests[1..], p);
    }
  }

  lemma {:induction false} PubacksAppend(answers: seq<WirePacket>, p: WirePacket)
    ensures Pubacks(answers + [p]) == Pubacks(answers) + if p.Puback? then 1 else 0
  {
    if answers == [] {
      assert answers + [p] == [p] && [p][1..] == [];
    } else {
      assert (answers + [p])[1..] == answers[1..] + [p];
      PubacksAppend(answers[1..], p);
    }
  }

  lemma {:induction false} NoPublishes1(requests: seq<WirePacket>)
    ensures Publishes1(requests) == 0 <==> forall i :: 0 <= i < |requests| ==> !IsPublish1(requests[i])
  {
    if requests != [] {
      NoPublishes1(requests[1..]);
      assert forall i :: 0 < i < |requests| ==> requests[i] == requests[1..][i - 1];
    }
  }

  lemma {:induction false} NoPubacks(answers: seq<WirePacket>)
    ensures Pubacks(answers) == 0 <==> NoPuback(answers)
  {
    if answers != [] {
      NoPubacks(answers[1..]);
      assert forall i :: 0 < i < |answers| ==> answers[i] == answers[1..][i - 1];
    }
  }

  lemma NothingMeansZero(v: View)
    ensures NothingLeftOver(v) <==> Publishes1(v.requests) + Pubacks(v.answers) == 0
  {
    NoPublishes1(v.requests);
    NoPubacks(v.answers);
  }

  lemma BegunOne(v: View, m: Message)
    requires AtMostOne(v) && v.sent == None && m.msgid >= 0
    ensures AtMostOne(Begun(v, m))
  {
    Publishes1Append(v.requests, Publish(false, m.qos, m.msgid, m.content));
  }

  lemma RepeatedOne(v: View)
    requires AtMostOne(v) && v.sent.Some? && v.sent.value.msgid >= 0
    requires v.sent.value.qos == 1 ==> NothingLeftOver(v)
    ensures AtMostOne(Repeated(v))
  {
    NothingMeansZero(v);
    Publishes1Append(v.requests, RetryPacket(v.sent.value));
  }

  lemma {:induction false} AnsweredOne(v: View)
    requires AtMostOne(v) && v.answers != []
    ensures AtMostOne(Answered(v))
  {
    Publishes1Append(v.requests, Pubrel(v.answers[0].msgid));
  }

  lemma {:induction false} TakenOne(v5: bool, v: View)
    requires AtMostOne(v) && v.requests != []
    ensures AtMostOne(Taken(v5, v))
  {
    var p := v.requests[0];
    PubacksAppend(v.answers, Puback(p.msgid));
    PubacksAppend(v.answers, Pubrec(p.msgid, 0));
    PubacksAppend(v.answers, Pubcomp(p.msgid));
  }

  // ----- Every step -----

  ghost predicate AllAtMostOne(s: System) {
    forall id: nat {:trigger ViewOf(s, id)} :: AtMostOne(ViewOf(s, id))
  }

  /** The rule: a QoS 1 message is sent again only when neither a PUBLISH of its id nor a PUBACK is under
      way. */
  ghost predicate KeepsRule(s: System, move: Move) {
    move.onLeft && move.step.Resend? && move.step.k < |s.left.outbound| && s.left.outbound[move.step.k].qos == 1 ==>
      s.left.outbound[move.step.k].msgid >= 0 && NothingLeftOver(ViewOf(s, s.left.outbound[move.step.k].msgid))
  }

  lemma LeftKeepsOne(s: System, step: Step, id: nat)
    requires Inv(s) && AtMostOne(ViewOf(s, id)) && KeepsRule(s, Move(true, step))
    ensures AtMostOne(ViewOf(LeftStep(s, step), id))
  {
    if Enabled(s, step) {
      match step {
        case Send(qos, j, content) =>
          SendViews(s, qos, j, content, id);
          if id == j {
            BegunOne(ViewOf(s, id), Message(id, qos, content, AwaitPubrec));
          }
        case Resend(k) =>
          ResendViews(s, k, id);
          if id == s.left.outbound[k].msgid {
            RepeatedOne(ViewOf(s, id));
          }
        case Receive =>
          if IsRequest(s.toLeft[0]) {
            RequestLeavesAnswers(s, id);
          } else {
            AnswerViews(s, id);
            if id == s.toLeft[0].msgid {
              AnsweredOne(ViewOf(s, id));
            }
          }
        case Cut =>
        case Crash(keys) =>
      }
    }
  }

  /** The right side's steps; s is seen from the right. */
  lemma RightKeepsOne(s: System, step: Step, id: nat)
    requires Inv(s) && AtMostOne(ViewOf(Flip(s), id))
    ensures AtMostOne(ViewOf(Flip(LeftStep(s, step)), id))
  {
    if Enabled(s, step) {
      match step {
        case Send(qos, j, content) => SendViews(s, qos, j, content, id);
        case Resend(k) => ResendViews(s, k, id);
        case Receive =>
          if IsRequest(s.toLeft[0]) {
            RequestViews(s, id);
            if id == s.toLeft[0].msgid {
              TakenOne(s.left.v5, ViewOf(Flip(s), id));
            }
          } else {
            AnswerViews(s, id);
          }
        case Cut =>
        case Crash(keys) =>
      }
    }
  }

  lemma StepKeepsOne(s: System, move: Move)
    requires Inv(s) && AllAtMostOne(s) && KeepsRule(s, move)
    ensures AllAtMostOne(Next(s, move))
  {
    FlipInv(s);
    forall id: nat ensures AtMostOne(ViewOf(Next(s, move), id)) {
      if move.onLeft {
        LeftKeepsOne(s, move.step, id);
      } else {
        RightKeepsOne(Flip(s), move.step, id);
      }
    }
  }

  // ----- Every run -----

  /** Every move of the run keeps the rule. */
  ghost predicate RuleKept(s: System, moves: seq<Move>)
    decreases |moves|
  {
    moves != [] ==>
      var earlier := moves[..|moves| - 1]; RuleKept(s, earlier) && KeepsRule(Run(s, earlier), moves[|moves| - 1])
  }

  lemma {:induction false} RunKeepsOne(s: System, moves: seq<Move>)
    requires Inv(s) && AllAtMostOne(s) && RuleKept(s, moves)
    ensures AllAtMostOne(Run(s, moves))
    decreases |moves|
  {
    if moves != [] {
      var earlier := moves[..|moves| - 1];
      RunKeepsOne(s, earlier);
      RunKeepsInv(s, earlier);
      StepKeepsOne(Run(s, earlier), moves[|moves| - 1]);
    }
  }

  /** So nothing is left over of an id that is free, and a QoS 1 message sent with it, whatever its content,
      is handed over before it leaves the list, whatever happens afterwards. */
  lemma {:induction false} AtLeastOnceUnderRule(v5: bool, before: seq<Move>, id: nat, content: Content)
    requires RuleKept(Start(v5), before) && Enabled(Run(Start(v5), before), Send(1, id, content))
    ensures var s := Run(Start(v5), before);
            && NothingLeftOver(ViewOf(s, id))
            && SurelyHandedOver(Next(s, Move(true, Send(1, id, content))), |s.fromLeft.delivered|, id, content)
  {
    StartInv(v5);
    RunKeepsOne(Start(v5), before);
    NothingMeansZero(ViewOf(Run(Start(v5), before), id));
    AtLeastOnceForAll(v5, before, id, content);
  }

  // ----- Retries only on reconnect -----

  /** A move that is no retry of the left side, or a reconnect of the left side: the connection is cut, and
      every message in flight is sent again. */
  datatype Stage = Single(move: Move) | Reconnect

  predicate NoRetry(move: Move) {
    !(move.onLeft && move.step.Resend?)
  }

  ghost predicate OnlyOnReconnect(stages: seq<Stage>) {
    forall i {:trigger stages[i]} :: 0 <= i < |stages| && stages[i].Single? ==> NoRetry(stages[i].move)
  }

  ghost function Reconnection(s: System): seq<Move> {
    [Move(true, Cut)] + ResendAll(0, |s.left.outbound|)
  }

  /** The moves of such a run. */
  ghost function MovesOf(s: System, stages: seq<Stage>): seq<Move>
    decreases |stages|
  {
    if stages == [] then []
    else
      var earlier := MovesOf(s, stages[..|stages| - 1]);
      match stages[|stages| - 1]
      case Single(move) => earlier + [move]
      case Reconnect => earlier + Reconnection(Run(s, earlier))
  }

  lemma {:induction false} RuleKeptNext(s: System, moves: seq<Move>, move: Move)
    requires RuleKept(s, moves) && KeepsRule(Run(s, moves), move)
    ensures RuleKept(s, moves + [move]) && Run(s, moves + [move]) == Next(Run(s, moves), move)
  {
    assert (moves + [move])[..|moves|] == moves;
  }

  /** After a cut and the first k messages sent again: nothing of the others is under way. */
  ghost predicate Resent(s: System, outbound: seq<Message>, k: nat) {
    && s.left.outbound == outbound && s.toLeft == []
    && forall i {:trigger outbound[i]} :: k <= i < |outbound| && outbound[i].msgid >= 0 ==>
         About(s.toRight, outbound[i].msgid, true) == []
  }

  lemma ResendsNext(s: System, outbound: seq<Message>, k: nat)
    requires Inv(s) && k < |outbound| && Resent(s, outbound, k)
    ensures KeepsRule(s, Move(true, Resend(k)))
    ensures Inv(Next(s, Move(true, Resend(k)))) && Resent(Next(s, Move(true, Resend(k))), outbound, k + 1)
  {
    var m, t := outbound[k], Next(s, Move(true, Resend(k)));
    StepKeepsInv(s, Move(true, Resend(k)));
    assert Storable(s.left.v5, outbound[k]);
    forall i | k + 1 <= i < |outbound| && outbound[i].msgid >= 0 ensures About(t.toRight, outbound[i].msgid, true) == [] {
      ResendViews(s, k, outbound[i].msgid);
      assert ViewOf(t, outbound[i].msgid).requests == ViewOf(s, outbound[i].msgid).requests;
    }
  }

  function ResendUpTo(k: nat): (moves: seq<Move>)
    ensures |moves| == k
  {
    seq(k, i requires 0 <= i < k => Move(true, Resend(i)))
  }

  /** The moves before a cut, the cut, and the first k messages sent again. */
  function Resending(earlier: seq<Move>, k: nat): seq<Move> {
    earlier + ([Move(true, Cut)] + ResendUpTo(k))
  }

  lemma ResendingFirst(earlier: seq<Move>)
    ensures Resending(earlier, 0) == earlier + [Move(true, Cut)]
  {
  }

  lemma ResendingNext(earlier: seq<Move>, k: nat)
    requires k > 0
    ensures Resending(earlier, k) == Resending(earlier, k - 1) + [Move(true, Resend(k - 1))]
  {
    assert ResendUpTo(k) == ResendUpTo(k - 1) + [Move(true, Resend(k - 1))];
  }

  /** The rule is kept so far, and goes on to be. */
  ghost predicate Underway(s: System, moves: seq<Move>, outbound: seq<Message>, k: nat) {
    RuleKept(s, moves) && Inv(Run(s, moves)) && Resent(Run(s, moves), outbound, k)
  }

  lemma {:induction false} CutKeepsRule(s: System, earlier: seq<Move>)
    requires Inv(s) && RuleKept(s, earlier)
    ensures Underway(s, earlier + [Move(true, Cut)], Run(s, earlier).left.outbound, 0)
  {
    RunKeepsInv(s, earlier);
    RuleKeptNext(s, earlier, Move(true, Cut));
    StepKeepsInv(Run(s, earlier), Move(true, Cut));
  }

  lemma {:induction false} ResendKeepsRule(s: System, before: seq<Move>, outbound: seq<Message>, k: nat, n: nat)
    requires Underway(s, before, outbound, k) && n == k + 1 <= |outbound|
    ensures Underway(s, before + [Move(true, Resend(k))], outbound, n)
  {
    ResendsNext(Run(s, before), outbound, k);
    RuleKeptNext(s, before, Move(true, Resend(k)));
  }

  lemma {:induction false} ResendsKeepRule(s: System, earlier: seq<Move>, k: nat)
    requires Inv(s) && RuleKept(s, earlier) && k <= |Run(s, earlier).left.outbound|
    ensures Underway(s, Resending(earlier, k), Run(s, earlier).left.outbound, k)
  {
    if k == 0 {
      ResendingFirst(earlier);
      CutKeepsRule(s, earlier);
    } else {
      ResendsKeepRule(s, earlier, k - 1);
      ResendingNext(earlier, k);
      ResendKeepsRule(s, Resending(earlier, k - 1), Run(s, earlier).left.outbound, k - 1, k);
    }
  }

  lemma {:induction false} StagesKeepRule(s: System, stages: seq<Stage>)
    requires Inv(s) && OnlyOnReconnect(stages)
    ensures RuleKept(s, MovesOf(s, stages))
    decreases |stages|
  {
    if stages != [] {
      var earlier := MovesOf(s, stages[..|stages| - 1]);
      StagesKeepRule(s, stages[..|stages| - 1]);
      match stages[|stages| - 1] {
        case Single(move) => RuleKeptNext(s, earlier, move);
        case Reconnect =>
          var n := |Run(s, earlier).left.outbound|;
          assert ResendAll(0, n) == ResendUpTo(n);
          ResendsKeepRule(s, earlier, n);
      }
    }
  }

  /** At least once: in every run whose retries come on reconnects only, every QoS 1 message is handed over
      before it leaves the list. */
  lemma {:induction false} AtLeastOnceOnReconnect(v5: bool, stages: seq<Stage>, id: nat, content: Content)
    requires OnlyOnReconnect(stages) && Enabled(Run(Start(v5), MovesOf(Start(v5), stages)), Send(1, id, content))
    ensures var s := Run(Start(v5), MovesOf(Start(v5), stages));
            SurelyHandedOver(Next(s, Move(true, Send(1, id, content))), |s.fromLeft.delivered|, id, content)
  {
    StartInv(v5);
    StagesKeepRule(Start(v5), stages);
    AtLeastOnceUnderRule(v5, MovesOf(Start(v5), stages), id, content);
  }
}
