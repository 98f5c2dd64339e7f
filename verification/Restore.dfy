/** Rebuilding a session from its store after a restart: MQTTPersistence_restorePackets. */
module Restore {
  import opened Wrappers
  import opened Types
  import opened LinkedList
  import opened Keys
  import opened Packets
  import opened Session
  import opened MessageOrder

  /** failed: a version 5 record met by a client of an older version, which ends the restore. */
  datatype Restoring = Restoring(outbound: seq<Message>, inbound: seq<Message>, store: Store, failed: bool)

  function PacketContent(p: Packet): Content
    requires p.PublishPacket?
  {
    Content(HeaderRetain(p.header), p.topic, p.payload, p.properties)
  }

  /** A received message; version 5 has handed it on already and drops topic and payload. */
  function RestoredInbound(v5: bool, p: Packet): Message
    requires p.PublishPacket?
  {
    var content := PacketContent(p);
    Message(p.msgid, HeaderQos(p.header), if v5 then content.(topic := [], payload := []) else content, AwaitPubrel)
  }

  /** A sent message: past its PUBREL when the store has one of its id. */
  function RestoredOutbound(v5: bool, store: Store, p: Packet): Message
    requires p.PublishPacket?
  {
    Message(p.msgid, HeaderQos(p.header), PacketContent(p),
            if RecordKey(SentPubrel, v5, p.msgid) in store then AwaitPubcomp else AwaitPubrec)
  }

  datatype Finding =
    | Ignore
    | Fail
    | Drop
    | AddInbound(m: Message)
    | AddOutbound(m: Message)

  /** What one record leads to.  A record that does not parse is dropped, and so is a PUBREL without
      its PUBLISH. */
  function StepFor(v5: bool, store: Store, key: RecordKey): Finding
    requires key in store
  {
    if key.CommandOrQueueKey? then Ignore
    else if key.v5 && !v5 then Fail
    else
      match RestorePacket(key.v5, store[key])
      case None => Drop
      case Some(p) =>
        if p.PublishPacket? then
          match key.kind
          case ReceivedPublish => AddInbound(RestoredInbound(v5, p))
          case SentPublish => AddOutbound(RestoredOutbound(v5, store, p))
          case SentPubrel => Ignore
        else if key.kind == SentPubrel && RecordKey(SentPublish, v5, p.msgid) !in store then Drop
        else Ignore
  }

  function Apply(s: Restoring, key: RecordKey, step: Finding): Restoring {
    match step
    case Ignore => s
    case Fail => s.(failed := true)
    case Drop => s.(store := s.store - {key})
    case AddInbound(m) => s.(inbound := s.inbound + [m])
    case AddOutbound(m) => s.(outbound := InsertInOrder(s.outbound, m))
  }

  /** One key: what becomes of the state. */
  function AfterKey(v5: bool, s: Restoring, key: RecordKey): Restoring {
    if key !in s.store then s.(failed := true) else Apply(s, key, StepFor(v5, s.store, key))
  }

  /** The state after the first n keys; pget fails for a key that is gone. */
  function RestoreUpTo(v5: bool, store: Store, keys: seq<RecordKey>, n: nat): Restoring
    requires n <= |keys|
  {
    if n == 0 then Restoring([], [], store, false)
    else
      var s, key := RestoreUpTo(v5, store, keys, n - 1), keys[n - 1];
      if s.failed then s else AfterKey(v5, s, key)
  }

  /** The session after a restart; None when the restore reports an error. */
  function Restored(v5: bool, store: Store, keys: seq<RecordKey>): Option<Client> {
    var s := RestoreUpTo(v5, store, keys, |keys|);
    if s.failed then None else Some(Client(v5, Wrapped(s.outbound), s.inbound, s.store))
  }

  lemma {:induction false} RestoredIs(v5: bool, store: Store, keys: seq<RecordKey>, s: Restoring)
    requires s == RestoreUpTo(v5, store, keys, |keys|)
    ensures Restored(v5, store, keys) == if s.failed then None else Some(Client(v5, Wrapped(s.outbound), s.inbound, s.store))
  {
  }

  /** MQTTPersistence_restorePackets, with the outbound messages on their heap list. */
  method RestorePackets(v5: bool, store: Store, keys: seq<RecordKey>, outboundMsgs: List<Message>)
    returns (inboundMsgs: seq<Message>, left: Store, rc: bool)
    requires outboundMsgs.Valid() && outboundMsgs.contents == []
    modifies outboundMsgs, outboundMsgs.nodes
    ensures outboundMsgs.Valid()
    ensures Restored(v5, store, keys) ==
            if rc then Some(Client(v5, outboundMsgs.contents, inboundMsgs, left)) else None
  {
    inboundMsgs, left, rc := RestoreKeys(v5, store, keys, outboundMsgs);
    RestoredIs(v5, store, keys, RestoreUpTo(v5, store, keys, |keys|));
    if rc {
      WrapMsgID(outboundMsgs);
    }
  }

  /** The loop over the keys. */
  method RestoreKeys(v5: bool, store: Store, keys: seq<RecordKey>, outboundMsgs: List<Message>)
    returns (inboundMsgs: seq<Message>, left: Store, rc: bool)
    requires outboundMsgs.Valid() && outboundMsgs.contents == []
    modifies outboundMsgs, outboundMsgs.nodes
    ensures outboundMsgs.Valid() && fresh(set e | e in outboundMsgs.nodes)
    ensures rc ==> RestoreUpTo(v5, store, keys, |keys|) == Restoring(outboundMsgs.contents, inboundMsgs, left, false)
    ensures !rc ==> RestoreUpTo(v5, store, keys, |keys|).failed
  {
    inboundMsgs, left, rc := [], store, true;
    var i := 0;
    while rc && i < |keys|
      invariant 0 <= i <= |keys| && outboundMsgs.Valid() && fresh(set e | e in outboundMsgs.nodes)
      invariant rc ==> RestoreUpTo(v5, store, keys, i) == Restoring(outboundMsgs.contents, inboundMsgs, left, false)
      invariant !rc ==> RestoreUpTo(v5, store, keys, |keys|).failed
      decreases |keys| - i, rc
    {
      inboundMsgs, left, rc := RestoreNext(v5, store, keys, i, outboundMsgs, inboundMsgs, left);
      i := i + 1;
    }
  }

  /** One pass of the loop. */
  method RestoreNext(v5: bool, ghost store: Store, keys: seq<RecordKey>, i: nat, outboundMsgs: List<Message>, inboundMsgs: seq<Message>, left: Store)
    returns (inboundMsgs': seq<Message>, left': Store, rc: bool)
    requires outboundMsgs.Valid() && i < |keys|
    requires RestoreUpTo(v5, store, keys, i) == Restoring(outboundMsgs.contents, inboundMsgs, left, false)
    modifies outboundMsgs, outboundMsgs.nodes
    ensures outboundMsgs.Valid() && forall e | e in outboundMsgs.nodes :: e in old(outboundMsgs.nodes) || fresh(e)
    ensures rc ==> RestoreUpTo(v5, store, keys, i + 1) == Restoring(outboundMsgs.contents, inboundMsgs', left', false)
    ensures !rc ==> RestoreUpTo(v5, store, keys, |keys|).failed
  {
    inboundMsgs', left', rc := RestoreKey(v5, keys[i], outboundMsgs, inboundMsgs, left);
    if !rc {
      FailureStays(v5, store, keys, i + 1);
    }
  }

  method RestoreKey(v5: bool, key: RecordKey, outboundMsgs: List<Message>, inboundMsgs: seq<Message>, left: Store)
    returns (inboundMsgs': seq<Message>, left': Store, rc: bool)
    requires outboundMsgs.Valid()
    modifies outboundMsgs, outboundMsgs.nodes
    ensures outboundMsgs.Valid() && forall e | e in outboundMsgs.nodes :: e in old(outboundMsgs.nodes) || fresh(e)
    ensures AfterKey(v5, Restoring(old(outboundMsgs.contents), inboundMsgs, left, false), key) ==
            Restoring(outboundMsgs.contents, inboundMsgs', left', !rc)
  {
    inboundMsgs', left', rc := inboundMsgs, left, true;
    var step := if key in left then StepFor(v5, left, key) else Fail;
    match step {
      case Ignore =>
      case Fail => rc := false;
      case Drop => left' := left - {key};
      case AddInbound(m) => inboundMsgs' := inboundMsgs + [m];
      case AddOutbound(m) => InsertInOrderImpl(outboundMsgs, m, 1);
    }
  }

  lemma {:induction false} FailureStays(v5: bool, store: Store, keys: seq<RecordKey>, n: nat)
    requires n <= |keys| && RestoreUpTo(v5, store, keys, n).failed
    ensures RestoreUpTo(v5, store, keys, |keys|).failed
    decreases |keys| - n
  {
    if n < |keys| {
      FailureStays(v5, store, keys, n + 1);
    }
  }
}
