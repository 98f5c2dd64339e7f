/** What holds in every run of two joined clients. */
module ProtocolRuns {
  import opened Wrappers
  import opened Types
  import opened MessageLists
  import opened Keys
  import opened Session
  import opened SessionSync
  import opened CrashRestore
  import opened Exchange
  import opened Protocol

  // ----- Each step, exchange by exchange -----

  lemma SendViews(s: System, qos: int, id: nat, content: Content, j: nat)
    requires Sound(s) && Enabled(s, Send(qos, id, content))
    ensures var s' := LeftStep(s, Send(qos, id, content));
            && ViewOf(s', j) == (if j == id then Begun(ViewOf(s, j), Message(id, qos, content, AwaitPubrec)) else ViewOf(s, j))
            && ViewOf(Flip(s'), j) == ViewOf(Flip(s), j)
  {
    var p := Publish(false, qos, id, content);
    FindAppend(s.left.outbound, Message(id, qos, content, AwaitPubrec), j);
    AboutAppend(s.toRight, p, j, true);
    AboutAppend(s.toRight, p, j, false);
    UnderAppend(s.fromLeft.published, Delivery(qos, id, content), j);
    assert s.fromRight.delivered + [] == s.fromRight.delivered;
  }

  lemma ResendViews(s: System, k: nat, j: nat)
    requires Sound(s) && Enabled(s, Resend(k))
    ensures var s', id := LeftStep(s, Resend(k)), s.left.outbound[k].msgid;
            && Find(s.left.outbound, id) == Some(s.left.outbound[k])
            && ViewOf(s', j) == (if j == id then Repeated(ViewOf(s, j)) else ViewOf(s, j))
            && ViewOf(Flip(s'), j) == ViewOf(Flip(s), j)
  {
    FindIs(s.left.outbound, k);
    AboutAppend(s.toRight, RetryPacket(s.left.outbound[k]), j, true);
    AboutAppend(s.toRight, RetryPacket(s.left.outbound[k]), j, false);
    assert s.fromRight.delivered + [] == s.fromRight.delivered;
  }

  /** The outbound list after an answer. */
  lemma AnswerFinds(c: Client, p: WirePacket, j: nat)
    requires Valid(c) && !IsRequest(p) && (p.Pubrec? ==> p.reason == 0)
    ensures var c', m := Handle(c, p).client, Find(c.outbound, j);
            Find(c'.outbound, j) ==
            if j != p.msgid || m == None then m
            else if p.Puback? && m.value.qos == 1 then None
            else if p.Pubcomp? && m.value.qos == 2 && m.value.next == AwaitPubcomp then None
            else if p.Pubrec? && m.value.qos == 2 && m.value.next == AwaitPubrec then Some(m.value.(next := AwaitPubcomp))
            else m
  {
    var k := IndexOf(c.outbound, p.msgid);
    if k < |c.outbound| {
      FindWithout(c.outbound, k, j);
      FindReplaced(c.outbound, k, c.outbound[k].(next := AwaitPubcomp), j);
    }
  }

  lemma AnswerEffect(c: Client, p: WirePacket)
    requires Valid(c) && !IsRequest(p) && (p.Pubrec? ==> p.reason == 0)
    ensures Handle(c, p).sent == if p.Pubrec? then [Pubrel(p.msgid)] else []
    ensures Handle(c, p).delivered == [] && Handle(c, p).client.inbound == c.inbound && Handle(c, p).client.v5 == c.v5
  {
  }

  lemma {:induction false} AboutAfterAnswer(ps: seq<WirePacket>, p: WirePacket, j: nat, request: bool)
    requires !IsRequest(p)
    ensures About(ps + (if p.Pubrec? then [Pubrel(p.msgid)] else []), j, request) ==
            if p.Pubrec? && p.msgid == j && request then About(ps, j, request) + [Pubrel(j)] else About(ps, j, request)
  {
    if p.Pubrec? {
      AboutAppend(ps, Pubrel(p.msgid), j, request);
    } else {
      assert ps + [] == ps;
    }
  }

  lemma AnswerViews(s: System, j: nat)
    requires Sound(s) && Enabled(s, Receive) && !IsRequest(s.toLeft[0])
    ensures var s', p := LeftStep(s, Receive), s.toLeft[0];
            && (j == p.msgid ==> ViewOf(s, j).answers != [] && ViewOf(s, j).answers[0] == p)
            && ViewOf(s', j) == (if j == p.msgid then Answered(ViewOf(s, j)) else ViewOf(s, j))
            && ViewOf(Flip(s'), j) == ViewOf(Flip(s), j)
  {
    var p := s.toLeft[0];
    AnswerEffect(s.left, p);
    AnswerFinds(s.left, p, j);
    AboutAfterAnswer(s.toRight, p, j, true);
    AboutAfterAnswer(s.toRight, p, j, false);
    assert s.fromRight.delivered + [] == s.fromRight.delivered;
    AnsweredFields(ViewOf(s, j), p, ViewOf(LeftStep(s, Receive), j), j);
  }

  /** The view after an answer, field by field. */
  lemma AnsweredFields(v: View, p: WirePacket, w: View, j: nat)
    requires !IsRequest(p)
    requires w.held == v.held && w.published == v.published && w.delivered == v.delivered
    requires v.answers == if j == p.msgid then [p] + w.answers else w.answers
    requires w.requests == if j == p.msgid && p.Pubrec? then v.requests + [Pubrel(j)] else v.requests
    requires w.sent ==
             if j != p.msgid || v.sent == None then v.sent
             else if p.Puback? && v.sent.value.qos == 1 then None
             else if p.Pubcomp? && v.sent.value.qos == 2 && v.sent.value.next == AwaitPubcomp then None
             else if p.Pubrec? && v.sent.value.qos == 2 && v.sent.value.next == AwaitPubrec
             then Some(v.sent.value.(next := AwaitPubcomp))
             else v.sent
    ensures j == p.msgid ==> v.answers != [] && v.answers[0] == p
    ensures w == if j == p.msgid then Answered(v) else v
  {
    if j == p.msgid {
      assert v.answers[0] == p && v.answers[1..] == w.answers;
    }
  }

  /** The inbound list after a request. */
  lemma RequestFinds(c: Client, p: WirePacket, j: nat)
    requires Valid(c) && Acceptable(c.v5, p) && IsRequest(p)
    ensures var c', m := Handle(c, p).client, Find(c.inbound, j);
            Find(c'.inbound, j) ==
            if j != p.msgid then m
            else if p.Pubrel? then None
            else if p.qos == 2 then Some(Message(j, 2, p.content, AwaitPubrel))
            else m
  {
    var k := IndexOf(c.inbound, p.msgid);
    if k < |c.inbound| {
      FindWithout(c.inbound, k, j);
    }
    if p.Publish? {
      var m := Message(p.msgid, 2, p.content, AwaitPubrel);
      if k < |c.inbound| {
        FindReplaced(c.inbound, k, m, j);
      } else {
        FindAppend(c.inbound, m, j);
      }
    }
  }

  function AnswerTo(p: WirePacket): WirePacket
    requires IsRequest(p)
  {
    if p.Pubrel? then Pubcomp(p.msgid) else if p.qos == 1 then Puback(p.msgid) else Pubrec(p.msgid, 0)
  }

  function HandedOn(v5: bool, held: Option<Message>, p: WirePacket): seq<Delivery>
    requires IsRequest(p)
  {
    if p.Pubrel? then if !v5 && held.Some? then [Delivery(2, p.msgid, held.value.content)] else []
    else if p.qos == 1 || (v5 && held == None) then [Delivery(p.qos, p.msgid, p.content)]
    else []
  }

  lemma RequestEffect(c: Client, p: WirePacket)
    requires Valid(c) && Acceptable(c.v5, p) && IsRequest(p)
    ensures Handle(c, p).sent == [AnswerTo(p)]
    ensures Handle(c, p).delivered == HandedOn(c.v5, Find(c.inbound, p.msgid), p)
    ensures Handle(c, p).client.outbound == c.outbound && Handle(c, p).client.v5 == c.v5
  {
  }

  lemma RequestLeavesAnswers(s: System, j: nat)
    requires Sound(s) && Enabled(s, Receive) && IsRequest(s.toLeft[0])
    ensures ViewOf(LeftStep(s, Receive), j) == ViewOf(s, j)
  {
    RequestEffect(s.left, s.toLeft[0]);
    AboutAppend(s.toRight, AnswerTo(s.toLeft[0]), j, true);
  }

  lemma {:induction false} UnderHandedOn(ds: seq<Delivery>, v5: bool, held: Option<Message>, p: WirePacket, j: nat)
    requires IsRequest(p) && (p.Publish? ==> 1 <= p.qos <= 2)
    ensures Under(ds + HandedOn(v5, held, p), j) ==
            if j != p.msgid then Under(ds, j)
            else if p.Pubrel? then if !v5 && held.Some? then Under(ds, j) + [held.value.content] else Under(ds, j)
            else if p.qos == 2 && v5 && held == None then Under(ds, j) + [p.content]
            else Under(ds, j)
  {
    var d := HandedOn(v5, held, p);
    if d == [] {
      assert ds + d == ds;
    } else {
      UnderAppend(ds, d[0], j);
    }
  }

  lemma RequestViews(s: System, j: nat)
    requires Sound(s) && Enabled(s, Receive) && IsRequest(s.toLeft[0])
    ensures var v, p := ViewOf(Flip(s), j), s.toLeft[0];
            && (j == p.msgid ==> v.requests != [])
            && ViewOf(Flip(LeftStep(s, Receive)), j) == (if j == p.msgid then Taken(s.left.v5, v) else v)
  {
    var p := s.toLeft[0];
    RequestEffect(s.left, p);
    RequestFinds(s.left, p, j);
    AboutAppend(s.toRight, AnswerTo(p), j, false);
    UnderHandedOn(s.fromRight.delivered, s.left.v5, Find(s.left.inbound, p.msgid), p, j);
    var v, w := ViewOf(Flip(s), j), ViewOf(Flip(LeftStep(s, Receive)), j);
    TakenFields(s.left.v5, v, p, w, j);
  }

  /** The view after a request, field by field. */
  lemma TakenFields(v5: bool, v: View, p: WirePacket, w: View, j: nat)
    requires IsRequest(p) && (p.Publish? ==> 1 <= p.qos <= 2)
    requires w.sent == v.sent && w.published == v.published
    requires v.requests == if j == p.msgid then [p] + w.requests else w.requests
    requires w.answers == if j == p.msgid then v.answers + [AnswerTo(p)] else v.answers
    requires w.held == if j != p.msgid then v.held else if p.Pubrel? then None
                       else if p.qos == 2 then Some(Message(j, 2, p.content, AwaitPubrel)) else v.held
    requires w.delivered ==
             if j != p.msgid then v.delivered
             else if p.Pubrel? then if !v5 && v.held.Some? then v.delivered + [v.held.value.content] else v.delivered
             else if p.qos == 2 && v5 && v.held == None then v.delivered + [p.content]
             else v.delivered
    ensures j == p.msgid ==> v.requests != []
    ensures w == if j == p.msgid then Taken(v5, v) else v
  {
    if j == p.msgid {
      assert v.requests[0] == p && v.requests[1..] == w.requests;
    }
  }

  lemma CrashViews(s: System, keys: seq<RecordKey>, j: nat)
    requires Sound(s) && Enabled(s, Crash(keys)) && AllInStep(s) && AllInStep(Flip(s))
    ensures var s' := LeftStep(s, Crash(keys));
            InStep(s.left.v5, ViewOf(s', j)) && InStep(s.left.v5, ViewOf(Flip(s'), j))
  {
    RestoreBringsBack(s.left, keys, j);
    if Find(s.left.outbound, j).Some? {
      RereadIsSame(s.left, j);
    }
    var s' := LeftStep(s, Crash(keys));
    CutInStep(s.left.v5, ViewOf(s, j), ViewOf(s', j));
    CutInStep(s.left.v5, ViewOf(Flip(s), j), ViewOf(Flip(s'), j));
  }

  // ----- The invariant -----

  lemma ReceiveKeepsInStep(s: System, j: nat)
    requires Inv(s) && Enabled(s, Receive)
    ensures var s' := LeftStep(s, Receive); InStep(s.left.v5, ViewOf(s', j)) && InStep(s.left.v5, ViewOf(Flip(s'), j))
  {
    if IsRequest(s.toLeft[0]) {
      RequestLeavesAnswers(s, j);
      RequestViews(s, j);
      if j == s.toLeft[0].msgid {
        TakenInStep(s.left.v5, ViewOf(Flip(s), j));
      }
    } else {
      AnswerViews(s, j);
      if j == s.toLeft[0].msgid {
        AnsweredInStep(s.left.v5, ViewOf(s, j));
      }
    }
  }

  lemma CutKeepsInStep(s: System, j: nat)
    requires Inv(s)
    ensures var s' := LeftStep(s, Cut); InStep(s.left.v5, ViewOf(s', j)) && InStep(s.left.v5, ViewOf(Flip(s'), j))
  {
    CutInStep(s.left.v5, ViewOf(s, j), ViewOf(LeftStep(s, Cut), j));
    CutInStep(s.left.v5, ViewOf(Flip(s), j), ViewOf(Flip(LeftStep(s, Cut)), j));
  }

  lemma StepKeepsInStep(s: System, step: Step, j: nat)
    requires Inv(s)
    ensures var s' := LeftStep(s, step); InStep(s.left.v5, ViewOf(s', j)) && InStep(s.left.v5, ViewOf(Flip(s'), j))
  {
    if Enabled(s, step) {
      match step {
        case Send(qos, id, content) =>
          SendViews(s, qos, id, content, j);
          if j == id {
            BegunInStep(s.left.v5, ViewOf(s, j), Message(id, qos, content, AwaitPubrec));
          }
        case Resend(k) =>
          ResendViews(s, k, j);
          if j == s.left.outbound[k].msgid {
            RepeatedInStep(s.left.v5, ViewOf(s, j));
          }
        case Receive => ReceiveKeepsInStep(s, j);
        case Cut => CutKeepsInStep(s, j);
        case Crash(keys) => CrashViews(s, keys, j);
      }
    }
  }

  /** No PUBREC ever arrives that its sender has not got in flight. */
  lemma PubrecsAreExpected(s: System)
    requires Inv(s) && s.toLeft != [] && s.toLeft[0].Pubrec?
    ensures Find(s.left.outbound, s.toLeft[0].msgid).Some?
  {
    var id := s.toLeft[0].msgid;
    assert About(s.toLeft, id, false)[0] == s.toLeft[0];
    PubrecExpected(s.left.v5, ViewOf(s, id));
  }

  lemma HandleKeepsSync(s: System)
    requires Inv(s) && Enabled(s, Receive)
    ensures Synced(Handle(s.left, s.toLeft[0]).client)
  {
    match s.toLeft[0]
    case Publish(dup, qos, id, content) => PublishKeepsSync(s.left, dup, qos, id, content);
    case Puback(id) => PubackKeepsSync(s.left, id);
    case Pubrec(id, reason) =>
      PubrecsAreExpected(s);
      PubrecKeepsSync(s.left, id, reason);
    case Pubrel(id) => PubrelKeepsSync(s.left, id);
    case Pubcomp(id) => PubcompKeepsSync(s.left, id);
  }

  lemma StepKeepsSync(s: System, step: Step)
    requires Inv(s)
    ensures Synced(LeftStep(s, step).left) && LeftStep(s, step).left.v5 == s.left.v5
  {
    if Enabled(s, step) {
      match step {
        case Send(qos, id, content) => StartPublishKeepsSync(s.left, qos, id, content);
        case Resend(k) => RetryKeepsSync(s.left, k);
        case Receive => HandleKeepsSync(s);
        case Cut =>
        case Crash(keys) =>
          RestoredIsSynced(s.left, keys);
          RestoreBringsBack(s.left, keys, 0);
      }
    }
  }

  lemma StepKeepsReadable(s: System, step: Step)
    requires Inv(s)
    ensures var s' := LeftStep(s, step);
            && AllAcceptable(s.left.v5, s'.toRight) && AllAcceptable(s.left.v5, s'.toLeft)
            && NoErrors(s'.toRight) && NoErrors(s'.toLeft) && s'.right == s.right
  {
    if Enabled(s, step) && step.Receive? {
      var p := s.toLeft[0];
      if IsRequest(p) {
        RequestEffect(s.left, p);
      } else {
        AnswerEffect(s.left, p);
      }
    }
  }

  lemma StepKeepsSound(s: System, step: Step)
    requires Inv(s)
    ensures Sound(LeftStep(s, step))
  {
    StepKeepsSync(s, step);
    StepKeepsReadable(s, step);
  }

  lemma LeftKeepsAllInStep(s: System, step: Step)
    requires Inv(s)
    ensures AllInStep(LeftStep(s, step))
  {
    StepKeepsSync(s, step);
    forall j: nat ensures InStep(s.left.v5, ViewOf(LeftStep(s, step), j)) {
      StepKeepsInStep(s, step, j);
    }
  }

  lemma RightKeepsAllInStep(s: System, step: Step)
    requires Inv(s)
    ensures AllInStep(Flip(LeftStep(s, step)))
  {
    StepKeepsSound(s, step);
    StepKeepsSync(s, step);
    forall j: nat ensures InStep(s.left.v5, ViewOf(Flip(LeftStep(s, step)), j)) {
      StepKeepsInStep(s, step, j);
    }
  }

  lemma FlipInv(s: System)
    requires Inv(s)
    ensures Flip(Flip(s)) == s && Inv(Flip(s))
  {
  }

  lemma StepKeepsInv(s: System, move: Move)
    requires Inv(s)
    ensures Inv(Next(s, move))
  {
    FlipInv(s);
    var t := if move.onLeft then s else Flip(s);
    StepKeepsSound(t, move.step);
    LeftKeepsAllInStep(t, move.step);
    RightKeepsAllInStep(t, move.step);
    if !move.onLeft {
      FlipInv(LeftStep(t, move.step));
    }
  }

  lemma {:induction false} RunKeepsInv(s: System, moves: seq<Move>)
    requires Inv(s)
    ensures Inv(Run(s, moves))
    decreases |moves|
  {
    if moves != [] {
      RunKeepsInv(s, moves[..|moves| - 1]);
      StepKeepsInv(Run(s, moves[..|moves| - 1]), moves[|moves| - 1]);
    }
  }

  lemma StartInv(v5: bool)
    ensures Inv(Start(v5))
  {
  }
}
