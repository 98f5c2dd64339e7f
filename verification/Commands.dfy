/** The command queue of the asynchronous client: MQTTAsync_addCommand and the selection in
    MQTTAsync_processCommand (src/MQTTAsyncUtils.c). */
module Commands {
  import opened Wrappers
  import opened Types
  import opened LinkedList

  datatype Kind = Connect | Disconnect(internal: bool) | Subscribe | Unsubscribe | Publish(qos: int)

  /** id stands for the address of the command. */
  datatype Command = Command(id: nat, client: int, kind: Kind, token: int)

  /** What the gate looks at in a client: connected, connect_state == NOT_IN_PROGRESS,
      Socket_noPendingWrites, the length of outboundMsgs and maxInflightMessages. */
  datatype ClientState = ClientState(connected: bool, idle: bool, noPendingWrites: bool, outbound: int, maxInflight: int)

  predicate ConnectOrDisconnect(c: Command) {
    c.kind.Connect? || c.kind.Disconnect?
  }

  /** Connects and internal disconnects go to the head of the queue. */
  predicate GoesFirst(c: Command) {
    c.kind.Connect? || (c.kind.Disconnect? && c.kind.internal)
  }

  /** The command may be started now. */
  predicate Gate(c: Command, st: ClientState) {
    && (ConnectOrDisconnect(c) || (st.connected && st.idle && st.noPendingWrites))
    && !((c.kind.Publish? || c.kind.Subscribe? || c.kind.Unsubscribe?) && st.outbound >= MAX_MSG_ID - 1)
    && !(((c.kind.Publish? && c.kind.qos > 0) || c.kind.Subscribe? || c.kind.Unsubscribe?) && st.outbound >= st.maxInflight)
  }

  // ----- Selection -----

  /** No earlier command is of the same client. */
  ghost predicate FirstOfClient(s: seq<Command>, k: nat)
    requires k < |s|
  {
    forall i :: 0 <= i < k ==> s[i].client != s[k].client
  }

  /** The place of the command that is started, or |s|. */
  ghost predicate Selects(s: seq<Command>, states: int -> ClientState, k: nat) {
    && k <= |s|
    && (k < |s| ==> FirstOfClient(s, k) && Gate(s[k], states(s[k].client)))
    && forall i {:trigger FirstOfClient(s, i)} :: 0 <= i < k && FirstOfClient(s, i) ==> !Gate(s[i], states(s[i].client))
  }

  /** Something is started if and only if some client's first command passes the gate. */
  lemma SelectsSomething(s: seq<Command>, states: int -> ClientState, k: nat)
    requires Selects(s, states, k)
    ensures k < |s| <==> exists i :: 0 <= i < |s| && FirstOfClient(s, i) && Gate(s[i], states(s[i].client))
  {
    if k < |s| {
      assert FirstOfClient(s, k);
    }
  }

  /** What holds a command back: below the limits of outbound messages, only connects and disconnects are
      started for a client that is not connected, is connecting, or has a write pending; an outbound list
      that is full stops what needs a message id, and one that has reached the receive maximum what is
      to be acknowledged. */
  predicate HeldBack(kind: Kind, connected: bool, idle: bool, noPendingWrites: bool, outbound: int, maxInflight: int) {
    match kind
    case Connect => false
    case Disconnect(_) => false
    case Publish(qos) => !connected || !idle || !noPendingWrites || outbound >= 65534 || (qos > 0 && outbound >= maxInflight)
    case Subscribe => !connected || !idle || !noPendingWrites || outbound >= 65534 || outbound >= maxInflight
    case Unsubscribe => !connected || !idle || !noPendingWrites || outbound >= 65534 || outbound >= maxInflight
  }

  /** As far as command k goes. */
  ghost predicate HeldBackAt(s: seq<Command>, states: int -> ClientState, k: nat)
    requires k < |s|
  {
    var st := states(s[k].client);
    HeldBack(s[k].kind, st.connected, st.idle, st.noPendingWrites, st.outbound, st.maxInflight)
  }

  /** The command that is started is the first of its client and not held back, and every client whose first
      command stands before it, or any client when none is started, has its first command held back. */
  lemma StartsWhatIsNotHeldBack(s: seq<Command>, states: int -> ClientState, s': seq<Command>, started: Option<Command>)
    requires ProcessesTo(s, states, s', started)
    ensures exists k: nat ::
              && k <= |s| && started == (if k < |s| then Some(s[k]) else None) && s' == (if k < |s| then Without(s, k) else s)
              && (k < |s| ==> FirstOfClient(s, k) && !HeldBackAt(s, states, k))
              && forall i: nat {:trigger HeldBackAt(s, states, i)} :: i < k && FirstOfClient(s, i) ==> HeldBackAt(s, states, i)
  {
    var k: nat :| Selects(s, states, k) && if k == |s| then started == None && s' == s else started == Some(s[k]) && s' == Without(s, k);
    forall i: nat | i < k && FirstOfClient(s, i) ensures HeldBackAt(s, states, i) {
      assert !Gate(s[i], states(s[i].client));
    }
  }

  // ----- Counting -----

  function PublishesOf(s: seq<Command>, client: int): nat {
    if s == [] then 0
    else PublishesOf(s[..|s| - 1], client) + (var c := s[|s| - 1]; if c.client == client && c.kind.Publish? then 1 else 0)
  }

  lemma {:induction false} PublishesSplit(a: seq<Command>, b: seq<Command>, client: int)
    ensures PublishesOf(a + b, client) == PublishesOf(a, client) + PublishesOf(b, client)
    decreases |b|
  {
    if b == [] {
      assert a + b == a;
    } else {
      assert (a + b)[..|a + b| - 1] == a + b[..|b| - 1];
      PublishesSplit(a, b[..|b| - 1], client);
    }
  }

  lemma PublishesAppend(s: seq<Command>, c: Command, t: seq<Command>)
    requires t == s + [c]
    ensures forall client :: PublishesOf(t, client) == PublishesOf(s, client) + (if c.client == client && c.kind.Publish? then 1 else 0)
  {
    assert t[..|s|] == s;
  }

  lemma SplitAtPosition(s: seq<Command>, k: nat)
    requires k < |s|
    ensures s == s[..k] + [s[k]] + s[k + 1..] && Without(s, k) == s[..k] + s[k + 1..]
  {
  }

  lemma {:induction false} PublishesWithout(s: seq<Command>, k: nat, client: int)
    requires k < |s|
    ensures PublishesOf(s, client) == PublishesOf(Without(s, k), client) +
            (if s[k].client == client && s[k].kind.Publish? then 1 else 0)
  {
    SplitAtPosition(s, k);
    PublishesSplit(s[..k] + [s[k]], s[k + 1..], client);
    PublishesSplit(s[..k], [s[k]], client);
    PublishesSplit(s[..k], s[k + 1..], client);
    assert [s[k]][..0] == [];
  }

  /** The oldest PUBLISH of a client, or |s|. */
  ghost predicate IsFirstPublish(s: seq<Command>, client: int, k: nat) {
    && k <= |s|
    && (k < |s| ==> s[k].client == client && s[k].kind.Publish?)
    && forall i :: 0 <= i < k ==> !(s[i].client == client && s[i].kind.Publish?)
  }

  // ----- The queue -----

  datatype Added = Ignored | Queued | Replaced(evicted: Command)

  /** Is a connect or internal disconnect a duplicate?  The search starts at the head but steps to
      the previous element, so it looks at the head only. */
  predicate Duplicate(s: seq<Command>, c: Command) {
    s != [] && ConnectOrDisconnect(s[0]) && s[0].client == c.client
  }

  /** The queue is full for a client's next message. */
  ghost predicate Full(s: seq<Command>, c: Command, limit: Option<int>) {
    c.kind.Publish? && limit.Some? && PublishesOf(s, c.client) >= limit.value
  }

  /** What adding a command makes of the queue: to the head unless it is a duplicate there; otherwise
      to the end, where a new message pushes out the client's oldest one if the queue is full. */
  ghost predicate AddsTo(s: seq<Command>, c: Command, limit: Option<int>, s': seq<Command>, rc: Added) {
    if GoesFirst(c) then rc == (if Duplicate(s, c) then Ignored else Queued) && s' == if rc == Ignored then s else [c] + s
    else if Full(s, c, limit) then
      exists k: nat :: k <= |s| && IsFirstPublish(s + [c], c.client, k)
                    && rc == Replaced((s + [c])[k]) && s' == Without(s + [c], k)
    else rc == Queued && s' == s + [c]
  }

  /** What processing makes of it: the selected command leaves. */
  ghost predicate ProcessesTo(s: seq<Command>, states: int -> ClientState, s': seq<Command>, started: Option<Command>) {
    exists k: nat :: Selects(s, states, k)
                  && if k == |s| then started == None && s' == s else started == Some(s[k]) && s' == Without(s, k)
  }

  /** What the search is described to find: a connect or disconnect of the client among the leading
      ones. */
  ghost predicate DescribedDuplicate(s: seq<Command>, c: Command) {
    exists k :: 0 <= k < |s| && s[k].client == c.client && forall i :: 0 <= i <= k ==> ConnectOrDisconnect(s[i])
  }

  /** It finds nothing else, and it finds what is described if and only if the head of the queue is
      not another client's connect or disconnect. */
  lemma DuplicateMissed(s: seq<Command>, c: Command)
    ensures Duplicate(s, c) ==> DescribedDuplicate(s, c)
    ensures DescribedDuplicate(s, c) ==> (Duplicate(s, c) <==> s[0].client == c.client)
  {
    if Duplicate(s, c) {
      assert s[0].client == c.client && forall i :: 0 <= i <= 0 ==> ConnectOrDisconnect(s[i]);
    }
  }

  /** A client's second connect is queued before its first when another client's connect is at the
      head. */
  lemma SecondConnectQueued(first: Command, other: Command, second: Command, limit: Option<int>)
    requires first.kind.Connect? && other.kind.Connect? && second.kind.Connect?
    requires first.client == second.client != other.client
    ensures DescribedDuplicate([other, first], second) && !Duplicate([other, first], second)
    ensures AddsTo([other, first], second, limit, [second, other, first], Queued)
  {
    var s := [other, first];
    assert s[1].client == second.client && forall i :: 0 <= i <= 1 ==> ConnectOrDisconnect(s[i]);
    assert [second] + s == [second, other, first];
  }

  /** A connect or an internal disconnect that is queued is the next command to be looked at, and pushes
      nothing out; any other stands behind all that are queued. */
  lemma {:induction false} WhereItGoes(s: seq<Command>, c: Command, limit: Option<int>, s': seq<Command>, rc: Added)
    requires AddsTo(s, c, limit, s', rc) && rc != Ignored
    ensures c.kind == Connect || c.kind == Disconnect(true) ==> rc == Queued && s' != [] && s'[0] == c && s'[1..] == s
    ensures c.kind != Connect && c.kind != Disconnect(true) && rc == Queued ==> s' != [] && s'[|s'| - 1] == c && s'[..|s'| - 1] == s
    ensures rc.Replaced? <==> c.kind.Publish? && limit.Some? && PublishesOf(s, c.client) >= limit.value
  {
    assert ([c] + s)[1..] == s && (s + [c])[..|s|] == s;
  }

  class CommandQueue {
    var commands: seq<Command>
    /** noBufferedMessages of each client. */
    var noBufferedMessages: map<int, int>

    function Buffered(client: int): int
      reads this
    {
      if client in noBufferedMessages then noBufferedMessages[client] else 0
    }

    /** The counters count the queued PUBLISH commands, and no command is queued twice. */
    ghost predicate Valid()
      reads this
    {
      && (forall client :: Buffered(client) == PublishesOf(commands, client))
      && (forall i, j :: 0 <= i < j < |commands| ==> commands[i].id != commands[j].id)
    }

    constructor ()
      ensures Valid() && commands == []
    {
      commands, noBufferedMessages := [], map[];
    }

    /** MQTTAsync_addCommand; limit is maxBufferedMessages when the client has create options. */
    method AddCommand(command: Command, limit: Option<int>) returns (rc: Added)
      requires Valid() && forall i :: 0 <= i < |commands| ==> commands[i].id != command.id
      modifies this
      ensures Valid() && AddsTo(old(commands), command, limit, commands, rc)
      ensures forall client :: client != command.client ==> Buffered(client) == old(Buffered(client))
      ensures Buffered(command.client) ==
              old(Buffered(command.client)) + (if command.kind.Publish? && rc == Queued then 1 else 0)
    {
      if GoesFirst(command) {
        rc := AddFirst(command);
      } else {
        rc := AddLast(command, limit);
      }
    }

    method AddFirst(command: Command) returns (rc: Added)
      requires Valid() && GoesFirst(command) && forall i :: 0 <= i < |commands| ==> commands[i].id != command.id
      modifies `commands
      ensures Valid() && AddsTo(old(commands), command, None, commands, rc)
    {
      var head := false;
      var current := if commands == [] then -1 else 0;
      while current >= 0
        invariant current <= 0 && current < |commands|
        invariant current == 0 ==> !head
        invariant current == -1 ==> head == Duplicate(commands, command)
        decreases current
      {
        var cur := commands[current];
        if !ConnectOrDisconnect(cur) {
          break;
        }
        if cur.client == command.client {
          head := true;
          break;
        }
        current := current - 1;
      }
      if head {
        rc := Ignored;
      } else {
        forall client ensures PublishesOf([command] + commands, client) == PublishesOf(commands, client) {
          PublishesSplit([command], commands, client);
          assert [command][..0] == [];
        }
        commands := [command] + commands;
        rc := Queued;
      }
    }

    method AddLast(command: Command, limit: Option<int>) returns (rc: Added)
      requires Valid() && !GoesFirst(command) && forall i :: 0 <= i < |commands| ==> commands[i].id != command.id
      modifies this
      ensures Valid() && AddsTo(old(commands), command, limit, commands, rc)
      ensures forall client :: client != command.client ==> Buffered(client) == old(Buffered(client))
      ensures Buffered(command.client) ==
              old(Buffered(command.client)) + (if command.kind.Publish? && rc == Queued then 1 else 0)
    {
      ghost var before := commands;
      commands := commands + [command];
      rc := Queued;
      PublishesAppend(before, command, commands);
      if command.kind.Publish? {
        if limit.Some? && Buffered(command.client) >= limit.value {
          rc := EvictOldest(command.client);
          assert Full(before, command, limit) && AddsTo(before, command, limit, commands, rc);
        } else {
          noBufferedMessages := noBufferedMessages[command.client := Buffered(command.client) + 1];
        }
      }
    }

    /** The client's oldest message leaves the queue. */
    method EvictOldest(client: int) returns (rc: Added)
      requires commands != [] && commands[|commands| - 1].client == client && commands[|commands| - 1].kind.Publish?
      modifies `commands
      ensures exists k: nat :: k < |old(commands)| && IsFirstPublish(old(commands), client, k)
                            && rc == Replaced(old(commands)[k]) && commands == Without(old(commands), k)
      ensures forall c :: PublishesOf(old(commands), c) == PublishesOf(commands, c) + (if c == client then 1 else 0)
    {
      var k := FindFirstPublish(client);
      forall c ensures PublishesOf(commands, c) == PublishesOf(Without(commands, k), c) + (if c == client then 1 else 0) {
        PublishesWithout(commands, k, c);
      }
      rc := Replaced(commands[k]);
      commands := Without(commands, k);
    }

    method FindFirstPublish(client: int) returns (k: nat)
      ensures IsFirstPublish(commands, client, k)
    {
      k := 0;
      while k < |commands| && !(commands[k].client == client && commands[k].kind.Publish?)
        invariant k <= |commands|
        invariant forall i :: 0 <= i < k ==> !(commands[i].client == client && commands[i].kind.Publish?)
      {
        k := k + 1;
      }
    }

    /** The selection of MQTTAsync_processCommand: clients whose first command has to wait are put on
        a list of ignored clients. */
    method Select(states: int -> ClientState) returns (k: nat)
      ensures Selects(commands, states, k)
    {
      var ignored: seq<int> := [];
      k := 0;
      while k < |commands|
        invariant k <= |commands|
        invariant forall i {:trigger FirstOfClient(commands, i)} :: 0 <= i < k && FirstOfClient(commands, i) ==>
                    !Gate(commands[i], states(commands[i].client))
        invariant forall i :: 0 <= i < k ==> commands[i].client in ignored
        invariant forall client :: client in ignored ==> exists i :: 0 <= i < k && commands[i].client == client
      {
        var cmd := commands[k];
        if cmd.client !in ignored {
          if Gate(cmd, states(cmd.client)) {
            return;
          }
          ignored := ignored + [cmd.client];
        }
        k := k + 1;
      }
    }

    /** MQTTAsync_processCommand up to the start of the command it has chosen. */
    method ProcessCommand(states: int -> ClientState) returns (command: Option<Command>)
      requires Valid()
      modifies this
      ensures Valid() && ProcessesTo(old(commands), states, commands, command)
      ensures forall client :: Buffered(client) == old(Buffered(client)) -
                (if command.Some? && command.value.client == client && command.value.kind.Publish? then 1 else 0)
    {
      var k := Select(states);
      command := None;
      if k < |commands| {
        var c := commands[k];
        command := Some(c);
        if c.kind.Publish? {
          noBufferedMessages := noBufferedMessages[c.client := Buffered(c.client) - 1];
        }
        forall client ensures PublishesOf(commands, client) == PublishesOf(Without(commands, k), client) +
                              (if c.client == client && c.kind.Publish? then 1 else 0) {
          PublishesWithout(commands, k, client);
        }
        commands := Without(commands, k);
      }
    }
  }
}
