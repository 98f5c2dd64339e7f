/** One message id in one direction of a connection: the sender's message, the receiver's message,
    the packets of that id under way, and what was published and handed over under that id. */
module Exchange {
  import opened Wrappers
  import opened Types
  import opened Session

  /** held is the receiver's inbound message; requests travel towards it and answers come back. */
  datatype View = View(sent: Option<Message>, held: Option<Message>, requests: seq<WirePacket>, answers: seq<WirePacket>,
                       published: seq<Content>, delivered: seq<Content>)

  predicate IsRequest(p: WirePacket) {
    p.Publish? || p.Pubrel?
  }

  predicate IsPublish2(p: WirePacket) {
    p.Publish? && p.qos == 2
  }

  // ----- What the handlers do to one exchange -----

  /** A new message. */
  function Begun(v: View, m: Message): View
    requires m.msgid >= 0
  {
    v.(sent := Some(m), requests := v.requests + [Publish(false, m.qos, m.msgid, m.content)],
       published := if m.qos == 2 then v.published + [m.content] else v.published)
  }

  function Repeated(v: View): View
    requires v.sent.Some? && v.sent.value.msgid >= 0
  {
    v.(requests := v.requests + [RetryPacket(v.sent.value)])
  }

  /** The sender takes the next answer. */
  function Answered(v: View): View
    requires v.answers != []
  {
    var a, rest := v.answers[0], v.(answers := v.answers[1..]);
    match v.sent
    case None => if a.Pubrec? then rest.(requests := v.requests + [Pubrel(a.msgid)]) else rest
    case Some(m) =>
      if a.Puback? && m.qos == 1 then rest.(sent := None)
      else if a.Pubcomp? && m.qos == 2 && m.next == AwaitPubcomp then rest.(sent := None)
      else if a.Pubrec? then
        rest.(sent := if m.qos == 2 && m.next == AwaitPubrec then Some(m.(next := AwaitPubcomp)) else v.sent,
              requests := v.requests + [Pubrel(a.msgid)])
      else rest
  }

  /** The receiver takes the next request. */
  function Taken(v5: bool, v: View): View
    requires v.requests != []
  {
    var p, rest := v.requests[0], v.(requests := v.requests[1..]);
    match p
    case Publish(_, qos, id, content) =>
      if qos == 1 then rest.(answers := v.answers + [Puback(id)])
      else if qos == 2 then
        rest.(held := Some(Message(id, 2, content, AwaitPubrel)), answers := v.answers + [Pubrec(id, 0)],
              delivered := if v5 && v.held == None then v.delivered + [content] else v.delivered)
      else rest
    case Pubrel(id) =>
      rest.(held := None, answers := v.answers + [Pubcomp(id)],
            delivered := if !v5 && v.held.Some? then v.delivered + [v.held.value.content] else v.delivered)
    case _ => rest
  }

  // ----- The shapes of what is under way -----

  ghost predicate NoPublish2(requests: seq<WirePacket>) {
    forall i :: 0 <= i < |requests| ==> IsRequest(requests[i]) && !IsPublish2(requests[i])
  }

  ghost predicate NoPubrec(answers: seq<WirePacket>) {
    forall i :: 0 <= i < |answers| ==> !IsRequest(answers[i]) && !answers[i].Pubrec?
  }

  /** Left-overs of earlier exchanges first, then only the PUBLISH of this message. */
  ghost predicate ThenPublish(requests: seq<WirePacket>, content: Content) {
    && (forall i :: 0 <= i < |requests| ==>
         IsRequest(requests[i]) && (IsPublish2(requests[i]) ==> requests[i].content == content))
    && (forall i, j :: 0 <= i < j < |requests| && IsPublish2(requests[i]) ==> IsPublish2(requests[j]))
  }

  ghost predicate OnlyPublish(requests: seq<WirePacket>, content: Content) {
    forall i :: 0 <= i < |requests| ==> IsPublish2(requests[i]) && requests[i].content == content
  }

  ghost predicate ThenPubrec(answers: seq<WirePacket>) {
    && (forall i :: 0 <= i < |answers| ==> !IsRequest(answers[i]))
    && (forall i, j :: 0 <= i < j < |answers| && answers[i].Pubrec? ==> answers[j].Pubrec?)
  }

  /** The PUBLISH of this message first, then only its PUBREL. */
  ghost predicate PublishThenPubrel(requests: seq<WirePacket>, content: Content) {
    && (forall i :: 0 <= i < |requests| ==>
         requests[i].Pubrel? || (IsPublish2(requests[i]) && requests[i].content == content))
    && (forall i, j :: 0 <= i < j < |requests| && requests[i].Pubrel? ==> requests[j].Pubrel?)
  }

  ghost predicate OnlyPubrec(answers: seq<WirePacket>) {
    forall i :: 0 <= i < |answers| ==> answers[i].Pubrec?
  }

  ghost predicate OnlyPubrel(requests: seq<WirePacket>) {
    forall i :: 0 <= i < |requests| ==> requests[i].Pubrel?
  }

  ghost predicate PubrecThenPubcomp(answers: seq<WirePacket>) {
    && (forall i :: 0 <= i < |answers| ==> answers[i].Pubrec? || answers[i].Pubcomp?)
    && (forall i, j :: 0 <= i < j < |answers| && answers[i].Pubcomp? ==> answers[j].Pubcomp?)
  }

  // ----- The invariant -----

  /** The receiver still has to hand the message over: below version 5 until it takes the PUBREL, in
      version 5 only until it takes the first PUBLISH. */
  ghost predicate Outstanding(v5: bool, v: View, released: bool) {
    if v5 then !released && v.held == None else !released || v.held.Some?
  }

  /** The sender has a QoS 2 message in flight. */
  ghost predicate InFlight2(v: View) {
    v.sent.Some? && v.sent.value.qos == 2
  }

  ghost predicate Idle(v: View) {
    NoPublish2(v.requests) && NoPubrec(v.answers) && v.held == None && v.delivered == v.published
  }

  /** Waiting for PUBREC: before and after the receiver has the message. */
  ghost predicate Offering(v5: bool, v: View, content: Content) {
    && (if v.held == None then ThenPublish(v.requests, content) && NoPubrec(v.answers)
        else OnlyPublish(v.requests, content) && ThenPubrec(v.answers))
    && (!v5 && v.held.Some? ==> v.held.value.content == content)
    && v.published == v.delivered + (if Outstanding(v5, v, false) then [content] else [])
    && v.published != [] && v.published[|v.published| - 1] == content
  }

  /** Waiting for PUBCOMP: before and after the receiver has let the message go. */
  ghost predicate Releasing(v5: bool, v: View, content: Content) {
    && (if v.held.Some? then PublishThenPubrel(v.requests, content) && OnlyPubrec(v.answers)
        else OnlyPubrel(v.requests) && PubrecThenPubcomp(v.answers))
    && (!v5 && v.held.Some? ==> v.held.value.content == content)
    && v.published == v.delivered + (if Outstanding(v5, v, true) then [content] else [])
    && v.published != [] && v.published[|v.published| - 1] == content
  }

  ghost predicate InStep(v5: bool, v: View) {
    if !InFlight2(v) then Idle(v)
    else if v.sent.value.next == AwaitPubrec then Offering(v5, v, v.sent.value.content)
    else v.sent.value.next == AwaitPubcomp && Releasing(v5, v, v.sent.value.content)
  }

  // ----- Every step keeps it -----

  lemma BegunInStep(v5: bool, v: View, m: Message)
    requires InStep(v5, v) && v.sent == None && m.msgid >= 0 && 1 <= m.qos <= 2 && m.next == AwaitPubrec
    ensures InStep(v5, Begun(v, m))
  {
  }

  lemma RepeatedInStep(v5: bool, v: View)
    requires InStep(v5, v) && v.sent.Some? && v.sent.value.msgid >= 0 && 1 <= v.sent.value.qos <= 2
    ensures InStep(v5, Repeated(v))
  {
  }

  /** A PUBREC finds its message in flight. */
  lemma PubrecExpected(v5: bool, v: View)
    requires InStep(v5, v) && v.answers != [] && v.answers[0].Pubrec?
    ensures InFlight2(v)
  {
  }

  lemma AnsweredInStep(v5: bool, v: View)
    requires InStep(v5, v) && v.answers != []
    ensures InStep(v5, Answered(v))
  {
  }

  lemma PublishInStep(v5: bool, v: View)
    requires InStep(v5, v) && v.requests != [] && v.requests[0].Publish?
    ensures InStep(v5, Taken(v5, v))
  {
  }

  lemma PubrelInStep(v5: bool, v: View)
    requires InStep(v5, v) && v.requests != [] && v.requests[0].Pubrel?
    ensures InStep(v5, Taken(v5, v))
  {
  }

  lemma TakenInStep(v5: bool, v: View)
    requires InStep(v5, v) && v.requests != []
    ensures InStep(v5, Taken(v5, v))
  {
    if v.requests[0].Publish? {
      PublishInStep(v5, v);
    } else {
      PubrelInStep(v5, v);
    }
  }

  /** Nothing under way any more; either end may come from its store instead, which loses the stage
      of a QoS 1 message and, in version 5, the content of a received one. */
  lemma CutInStep(v5: bool, v: View, w: View)
    requires InStep(v5, v) && w.requests == [] && w.answers == []
    requires w.published == v.published && w.delivered == v.delivered
    requires w.sent == v.sent || (v.sent.Some? && w.sent.Some? && w.sent.value.qos == v.sent.value.qos != 2)
    requires w.held == v.held || (v5 && v.held.Some? && w.held.Some?)
    ensures InStep(v5, w)
  {
  }

  /** What it gives: nothing handed over twice or out of turn, everything but the message in flight
      handed over, and that one not twice. */
  lemma InStepMeans(v5: bool, v: View)
    requires InStep(v5, v)
    ensures v.delivered <= v.published && |v.published| <= |v.delivered| + 1
    ensures !InFlight2(v) ==> v.delivered == v.published
    ensures InFlight2(v) ==> v.published != [] && v.published[|v.published| - 1] == v.sent.value.content
    ensures InFlight2(v) && v.delivered != v.published ==> v.published == v.delivered + [v.sent.value.content]
  {
  }
}
