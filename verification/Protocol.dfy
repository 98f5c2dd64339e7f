/** Two clients of this code joined by a connection: each publishes to the other, packets travel in
    order, and at any moment the connection may be cut, losing what is under way, or either side may
    crash and restart from its store. */
module Protocol {
  import opened Wrappers
  import opened Types
  import opened MessageIds
  import opened MessageLists
  import opened Keys
  import opened Packets
  import opened Session
  import opened Restore
  import opened CrashRestore
  import opened Exchange

  /** What one side has published so far, and what the other has been handed of it. */
  datatype Log = Log(published: seq<Delivery>, delivered: seq<Delivery>)

  datatype System = System(left: Client, right: Client, toRight: seq<WirePacket>, toLeft: seq<WirePacket>,
                           fromLeft: Log, fromRight: Log)

  datatype Step =
    | Send(qos: int, id: nat, content: Content)
    | Resend(k: nat)
    | Receive
    | Cut
    | Crash(keys: seq<RecordKey>)

  datatype Move = Move(onLeft: bool, step: Step)

  function Start(v5: bool): System {
    System(Client(v5, [], [], map[]), Client(v5, [], [], map[]), [], [], Log([], []), Log([], []))
  }

  /** The same system seen from the other side. */
  function Flip(s: System): System {
    System(s.right, s.left, s.toLeft, s.toRight, s.fromRight, s.fromLeft)
  }

  /** A packet that can be read: it can be written, too. */
  ghost predicate Acceptable(v5: bool, p: WirePacket) {
    p.Publish? ==> 1 <= p.qos <= 2 && IsId(p.msgid) && Encodable(v5, p.qos, p.msgid, p.content)
  }

  function Handle(c: Client, p: WirePacket): Effect
    requires Acceptable(c.v5, p)
  {
    match p
    case Publish(dup, qos, id, content) => HandlePublish(c, dup, qos, id, content)
    case Puback(id) => HandlePuback(c, id)
    case Pubrec(id, reason) => HandlePubrec(c, id, reason)
    case Pubrel(id) => HandlePubrel(c, id)
    case Pubcomp(id) => HandlePubcomp(c, id)
  }

  /** The left side after a handler ran: its packets are on their way. */
  function After(s: System, e: Effect): System {
    s.(left := e.client, toRight := s.toRight + e.sent,
       fromRight := s.fromRight.(delivered := s.fromRight.delivered + e.delivered))
  }

  /** What the left side can do.  A message gets an id that is not in use, as assignMsgId sees to; a
      retry may come at any time. */
  ghost predicate Enabled(s: System, step: Step) {
    match step
    case Send(qos, id, content) =>
      1 <= qos <= 2 && IsId(id) && Encodable(s.left.v5, qos, id, content) && Find(s.left.outbound, id) == None
    case Resend(k) => k < |s.left.outbound| && Storable(s.left.v5, s.left.outbound[k])
    case Receive => s.toLeft != [] && Acceptable(s.left.v5, s.toLeft[0])
    case Cut => true
    case Crash(keys) => Enumerates(keys, s.left.store) && Restored(s.left.v5, s.left.store, keys).Some?
  }

  ghost function LeftStep(s: System, step: Step): System {
    if !Enabled(s, step) then s
    else
      match step
      case Send(qos, id, content) =>
        var s' := After(s, StartPublish(s.left, qos, id, content));
        s'.(fromLeft := s.fromLeft.(published := s.fromLeft.published + [Delivery(qos, id, content)]))
      case Resend(k) => After(s, Retry(s.left, k))
      case Receive => After(s.(toLeft := s.toLeft[1..]), Handle(s.left, s.toLeft[0]))
      case Cut => s.(toLeft := [], toRight := [])
      case Crash(keys) => s.(left := Restored(s.left.v5, s.left.store, keys).value, toLeft := [], toRight := [])
  }

  ghost function Next(s: System, move: Move): System {
    if move.onLeft then LeftStep(s, move.step) else Flip(LeftStep(Flip(s), move.step))
  }

  /** The system after a run of moves; a move that is not enabled changes nothing. */
  ghost function Run(s: System, moves: seq<Move>): System
    decreases |moves|
  {
    if moves == [] then s else Next(Run(s, moves[..|moves| - 1]), moves[|moves| - 1])
  }

  // ----- One exchange in the system -----

  /** The packets about one id, requests or answers. */
  function About(ps: seq<WirePacket>, id: nat, request: bool): seq<WirePacket> {
    if ps == [] then []
    else if ps[0].msgid == id && IsRequest(ps[0]) == request then [ps[0]] + About(ps[1..], id, request)
    else About(ps[1..], id, request)
  }

  /** The QoS 2 messages of one id in a log. */
  function Under(ds: seq<Delivery>, id: nat): seq<Content> {
    if ds == [] then []
    else
      var d, earlier := ds[|ds| - 1], Under(ds[..|ds| - 1], id);
      if d.qos == 2 && d.msgid == id then earlier + [d.content] else earlier
  }

  /** What the left side sends the right under one id. */
  function ViewOf(s: System, id: nat): View {
    View(Find(s.left.outbound, id), Find(s.right.inbound, id), About(s.toRight, id, true), About(s.toLeft, id, false),
         Under(s.fromLeft.published, id), Under(s.fromLeft.delivered, id))
  }

  lemma {:induction false} AboutAppend(ps: seq<WirePacket>, p: WirePacket, id: nat, request: bool)
    ensures About(ps + [p], id, request) ==
            if p.msgid == id && IsRequest(p) == request then About(ps, id, request) + [p] else About(ps, id, request)
  {
    if ps == [] {
      assert ps + [p] == [p];
    } else {
      assert (ps + [p])[1..] == ps[1..] + [p];
      AboutAppend(ps[1..], p, id, request);
    }
  }

  lemma {:induction false} UnderAppend(ds: seq<Delivery>, d: Delivery, id: nat)
    ensures Under(ds + [d], id) == if d.qos == 2 && d.msgid == id then Under(ds, id) + [d.content] else Under(ds, id)
  {
    assert (ds + [d])[..|ds|] == ds;
  }

  // ----- The invariant -----

  ghost predicate AllAcceptable(v5: bool, ps: seq<WirePacket>) {
    forall i :: 0 <= i < |ps| ==> Acceptable(v5, ps[i])
  }

  /** The receiving half never reports an error. */
  ghost predicate NoErrors(ps: seq<WirePacket>) {
    forall i :: 0 <= i < |ps| ==> ps[i].Pubrec? ==> ps[i].reason == 0
  }

  ghost predicate Sound(s: System) {
    && s.left.v5 == s.right.v5
    && Synced(s.left) && Synced(s.right)
    && AllAcceptable(s.left.v5, s.toRight) && AllAcceptable(s.left.v5, s.toLeft)
    && NoErrors(s.toRight) && NoErrors(s.toLeft)
  }

  ghost predicate AllInStep(s: System) {
    forall id: nat {:trigger ViewOf(s, id)} :: InStep(s.left.v5, ViewOf(s, id))
  }

  ghost predicate Inv(s: System) {
    Sound(s) && AllInStep(s) && AllInStep(Flip(s))
  }
}
