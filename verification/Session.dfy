/** One client's session: what each protocol handler of src/MQTTProtocolClient.c makes of the
    in-flight lists and of the persistent store, which packets it sends and what it hands to the
    application.  Writes to the store succeed and acknowledgements are sent directly. */
module Session {
  import opened Types
  import opened MessageIds
  import opened MessageLists
  import opened Keys
  import opened Packets

  datatype WirePacket =
    | Publish(dup: bool, qos: int, msgid: nat, content: Content)
    | Puback(msgid: nat)
    | Pubrec(msgid: nat, reason: Byte)
    | Pubrel(msgid: nat)
    | Pubcomp(msgid: nat)

  /** A call of Protocol_processPublication. */
  datatype Delivery = Delivery(qos: int, msgid: nat, content: Content)

  type Store = map<RecordKey, seq<Byte>>

  /** outbound and inbound are the lists of that name; v5 is MQTTVersion >= MQTTVERSION_5. */
  datatype Client = Client(v5: bool, outbound: seq<Message>, inbound: seq<Message>, store: Store)

  datatype Effect = Effect(client: Client, sent: seq<WirePacket>, delivered: seq<Delivery>)

  const UNSPECIFIED_ERROR := 128

  // ----- The store -----

  function PutSent(store: Store, v5: bool, dup: bool, m: Message): Store
    requires Storable(v5, m)
  {
    store[RecordKey(SentPublish, v5, m.msgid) := PublishRecord(v5, dup, m.qos, m.msgid, m.content)]
  }

  function PutPubrel(store: Store, v5: bool, id: nat): Store {
    store[RecordKey(SentPubrel, v5, id) := PubrelRecord(id)]
  }

  function PutReceived(store: Store, v5: bool, dup: bool, m: Message): Store
    requires Storable(v5, m)
  {
    store[RecordKey(ReceivedPublish, v5, m.msgid) := PublishRecord(v5, dup, m.qos, m.msgid, m.content)]
  }

  /** MQTTPersistence_remove for a sent PUBLISH: its record and its PUBREL, of either version. */
  function RemoveSent(store: Store, id: nat): Store {
    store - {RecordKey(SentPublish, true, id), RecordKey(SentPubrel, true, id),
             RecordKey(SentPublish, false, id), RecordKey(SentPubrel, false, id)}
  }

  function RemoveReceived(store: Store, id: nat): Store {
    store - {RecordKey(ReceivedPublish, true, id), RecordKey(ReceivedPublish, false, id)}
  }

  /** A message whose PUBLISH can be encoded and has an id of its own. */
  ghost predicate Storable(v5: bool, m: Message) {
    IsId(m.msgid) && 1 <= m.qos <= 2 && Encodable(v5, m.qos, m.msgid, m.content)
  }

  ghost predicate AllStorable(v5: bool, s: seq<Message>) {
    forall i {:trigger Storable(v5, s[i])} :: 0 <= i < |s| ==> Storable(v5, s[i])
  }

  // ----- The sending half -----

  /** MQTTProtocol_startPublish for QoS 1 and 2: the message is kept, stored and sent. */
  function StartPublish(c: Client, qos: int, id: nat, content: Content): Effect
    requires 1 <= qos <= 2 && IsId(id) && Encodable(c.v5, qos, id, content)
  {
    var m := Message(id, qos, content, AwaitPubrec);
    Effect(c.(outbound := c.outbound + [m], store := PutSent(c.store, c.v5, false, m)),
           [Publish(false, qos, id, content)], [])
  }

  /** MQTTProtocol_handlePubacks: only a QoS 1 message is completed by it. */
  function HandlePuback(c: Client, id: nat): Effect {
    var k := IndexOf(c.outbound, id);
    if k < |c.outbound| && c.outbound[k].qos == 1
    then Effect(c.(outbound := Without(c.outbound, k), store := RemoveSent(c.store, id)), [], [])
    else Effect(c, [], [])
  }

  /** MQTTProtocol_handlePubrecs: a PUBREL answers it, and is stored, even when no message of that
      id is waiting for it; only a version 5 error ends the exchange instead. */
  function HandlePubrec(c: Client, id: nat, reason: Byte): Effect {
    var k := IndexOf(c.outbound, id);
    var waiting := k < |c.outbound| && c.outbound[k].qos == 2 && c.outbound[k].next == AwaitPubrec;
    if waiting && c.v5 && reason >= UNSPECIFIED_ERROR
    then Effect(c.(outbound := Without(c.outbound, k), store := RemoveSent(c.store, id)), [], [])
    else
      var outbound := if waiting then c.outbound[k := c.outbound[k].(next := AwaitPubcomp)] else c.outbound;
      Effect(c.(outbound := outbound, store := PutPubrel(c.store, c.v5, id)), [Pubrel(id)], [])
  }

  /** MQTTProtocol_handlePubcomps: it completes a QoS 2 message whose PUBREL was sent. */
  function HandlePubcomp(c: Client, id: nat): Effect {
    var k := IndexOf(c.outbound, id);
    if k < |c.outbound| && c.outbound[k].qos == 2 && c.outbound[k].next == AwaitPubcomp
    then Effect(c.(outbound := Without(c.outbound, k), store := RemoveSent(c.store, id)), [], [])
    else Effect(c, [], [])
  }

  /** The packet a retry sends for a message: its PUBLISH again, or its PUBREL. */
  function RetryPacket(m: Message): WirePacket
    requires m.msgid >= 0
  {
    if m.qos == 1 || m.next == AwaitPubrec then Publish(true, m.qos, m.msgid, m.content) else Pubrel(m.msgid)
  }

  function RetryStore(store: Store, v5: bool, m: Message): Store
    requires Storable(v5, m)
  {
    if m.qos == 1 || m.next == AwaitPubrec then PutSent(store, v5, true, m) else PutPubrel(store, v5, m.msgid)
  }

  /** One iteration of MQTTProtocol_retries. */
  function Retry(c: Client, k: nat): Effect
    requires k < |c.outbound| && Storable(c.v5, c.outbound[k])
  {
    var m := c.outbound[k];
    Effect(c.(store := RetryStore(c.store, c.v5, m)), [RetryPacket(m)], [])
  }

  /** MQTTProtocol_retries after a reconnect, from message k on. */
  function RetryFrom(c: Client, k: nat): Effect
    requires k <= |c.outbound| && AllStorable(c.v5, c.outbound)
    decreases |c.outbound| - k
  {
    if k == |c.outbound| then Effect(c, [], [])
    else
      var e := Retry(c, k);
      var rest := RetryFrom(e.client, k + 1);
      Effect(rest.client, e.sent + rest.sent, [])
  }

  // ----- The receiving half -----

  /** Reading a PUBLISH and MQTTProtocol_handlePublishes.  QoS 2: the message is stored and kept,
      replacing one of the same id where it stood; version 5 hands it on when it is new. */
  function HandlePublish(c: Client, dup: bool, qos: int, id: nat, content: Content): Effect
    requires 0 <= qos <= 2 && (qos == 2 ==> IsId(id)) && Encodable(c.v5, qos, id, content)
  {
    if qos == 0 then Effect(c, [], [Delivery(0, id, content)])
    else if qos == 1 then Effect(c, [Puback(id)], [Delivery(1, id, content)])
    else
      var m := Message(id, 2, content, AwaitPubrel);
      var k := IndexOf(c.inbound, id);
      var known := k < |c.inbound|;
      Effect(c.(inbound := if known then c.inbound[k := m] else c.inbound + [m],
                store := PutReceived(c.store, c.v5, dup, m)),
             [Pubrec(id, 0)],
             if c.v5 && !known then [Delivery(2, id, content)] else [])
  }

  /** MQTTProtocol_handlePubrels: the exchange ends, below version 5 with the message handed on; a
      PUBCOMP answers even when the id is unknown. */
  function HandlePubrel(c: Client, id: nat): Effect {
    var k := IndexOf(c.inbound, id);
    if k < |c.inbound| && c.inbound[k].qos == 2 && c.inbound[k].next == AwaitPubrel
    then Effect(c.(inbound := Without(c.inbound, k), store := RemoveReceived(c.store, id)),
                [Pubcomp(id)],
                if c.v5 then [] else [Delivery(2, id, c.inbound[k].content)])
    else Effect(c, [Pubcomp(id)], [])
  }

  // ----- What holds of every session -----

  ghost predicate ValidOutbound(v5: bool, s: seq<Message>) {
    && DistinctIds(s) && AllStorable(v5, s)
    && forall i :: 0 <= i < |s| ==> s[i].next != AwaitPubrel
  }

  ghost predicate ValidInbound(s: seq<Message>) {
    && DistinctIds(s)
    && forall i :: 0 <= i < |s| ==> s[i].qos == 2 && s[i].next == AwaitPubrel
  }

  /** Ids are distinct and in range in both lists, and every message could be sent again. */
  ghost predicate Valid(c: Client) {
    ValidOutbound(c.v5, c.outbound) && ValidInbound(c.inbound)
  }

  /** A PUBLISH record of this message, with or without DUP. */
  ghost predicate IsRecordOf(v5: bool, qos: int, id: nat, content: Content, record: seq<Byte>) {
    && 1 <= qos <= 2 && Encodable(v5, qos, id, content)
    && exists dup :: record == PublishRecord(v5, dup, qos, id, content)
  }

  /** What the store holds under one message id agrees with the outbound list: a PUBLISH record
      just for a message in flight, and a PUBREL record only beside one -- for QoS 2 exactly when
      its PUBREL has been sent. */
  ghost predicate SentAgrees(c: Client, id: nat) {
    var s, r := RecordKey(SentPublish, c.v5, id), RecordKey(SentPubrel, c.v5, id);
    && (r in c.store ==> c.store[r] == PubrelRecord(id))
    && match Find(c.outbound, id)
       case None => s !in c.store && r !in c.store
       case Some(m) =>
         && s in c.store && IsRecordOf(c.v5, m.qos, id, m.content, c.store[s])
         && (m.qos == 2 ==> (r in c.store <==> m.next == AwaitPubcomp))
  }

  /** The same for the inbound list; in version 5 a message has been handed on already and its
      content no longer matters. */
  ghost predicate ReceivedAgrees(c: Client, id: nat) {
    var r := RecordKey(ReceivedPublish, c.v5, id);
    match Find(c.inbound, id)
    case None => r !in c.store
    case Some(m) =>
      && r in c.store
      && exists content :: IsRecordOf(c.v5, 2, id, content, c.store[r]) && (!c.v5 ==> content == m.content)
  }

  /** Session records are of this client's version and of proper ids. */
  ghost predicate OwnKeys(c: Client) {
    forall k :: k in c.store && k.RecordKey? ==> k.v5 == c.v5 && IsId(k.id)
  }

  /** The store is the session, written down. */
  ghost predicate Synced(c: Client) {
    && Valid(c) && OwnKeys(c)
    && (forall id: nat {:trigger SentAgrees(c, id)} {:trigger Find(c.outbound, id)} :: SentAgrees(c, id))
    && (forall id: nat {:trigger ReceivedAgrees(c, id)} {:trigger Find(c.inbound, id)} :: ReceivedAgrees(c, id))
  }

  lemma FreshIsSynced(v5: bool)
    ensures Synced(Client(v5, [], [], map[]))
  {
  }
}
