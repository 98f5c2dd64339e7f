/** The command queue over whole runs: order, at most once, and the bound on buffered messages. */
module CommandRuns {
  import opened Wrappers
  import opened LinkedList
  import opened Commands

  /** added: everything accepted so far; processed: everything started; evicted: everything that made
      way for a newer message. */
  datatype History = History(commands: seq<Command>, added: seq<Command>, processed: seq<Command>, evicted: set<Command>)

  datatype Op = Add(command: Command, rc: Added) | Process(states: int -> ClientState, started: Option<Command>)

  ghost predicate FreshIn(c: Command, s: seq<Command>) {
    forall i :: 0 <= i < |s| ==> s[i].id != c.id
  }

  /** What AddCommand and ProcessCommand do, with maxBufferedMessages from limits. */
  ghost predicate Does(h: History, op: Op, h': History, limits: int -> Option<int>) {
    match op
    case Add(c, rc) =>
      && FreshIn(c, h.added) && AddsTo(h.commands, c, limits(c.client), h'.commands, rc)
      && h' == (match rc
                case Ignored => h
                case Queued => h.(commands := h'.commands, added := h.added + [c])
                case Replaced(x) => h.(commands := h'.commands, added := h.added + [c], evicted := h.evicted + {x}))
    case Process(states, started) =>
      && ProcessesTo(h.commands, states, h'.commands, started)
      && h' == h.(commands := h'.commands, processed := h.processed + (if started.Some? then [started.value] else []))
  }

  ghost predicate IsRun(hs: seq<History>, ops: seq<Op>, limits: int -> Option<int>) {
    && |hs| == |ops| + 1
    && hs[0] == History(hs[0].commands, hs[0].commands, [], {}) && Distinct(hs[0].commands)
    && forall i {:trigger ops[i]} :: 0 <= i < |ops| ==> Does(hs[i], ops[i], hs[i + 1], limits)
  }

  ghost predicate Distinct(s: seq<Command>) {
    forall i, j :: 0 <= i < j < |s| ==> s[i].id != s[j].id
  }

  // ----- One client's line -----

  /** A command that keeps its place: any but a connect or an internal disconnect. */
  predicate InLine(c: Command, client: int, gone: set<Command>) {
    c.client == client && !c.kind.Connect? && (c.kind.Disconnect? ==> !c.kind.internal) && c !in gone
  }

  /** The commands of one client that keep their order, without those that are gone. */
  function Line(s: seq<Command>, client: int, gone: set<Command>): seq<Command> {
    if s == [] then []
    else
      var earlier, c := Line(s[..|s| - 1], client, gone), s[|s| - 1];
      if InLine(c, client, gone) then earlier + [c] else earlier
  }

  lemma {:induction false} LineAppend(s: seq<Command>, c: Command, client: int, gone: set<Command>)
    ensures Line(s + [c], client, gone) == if InLine(c, client, gone) then Line(s, client, gone) + [c] else Line(s, client, gone)
  {
    assert (s + [c])[..|s|] == s;
  }

  lemma {:induction false} LineSplit(a: seq<Command>, b: seq<Command>, client: int, gone: set<Command>)
    ensures Line(a + b, client, gone) == Line(a, client, gone) + Line(b, client, gone)
    decreases |b|
  {
    if b == [] {
      assert a + b == a;
    } else {
      var b' := b[..|b| - 1];
      assert (a + b)[..|a + b| - 1] == a + b';
      LineSplit(a, b', client, gone);
      assert Line(a, client, gone) + (Line(b', client, gone) + [b[|b| - 1]]) == (Line(a, client, gone) + Line(b', client, gone)) + [b[|b| - 1]];
    }
  }

  lemma {:induction false} LineAround(s: seq<Command>, k: nat, client: int, gone: set<Command>)
    requires k < |s|
    ensures Line(Without(s, k), client, gone) == Line(s[..k], client, gone) + Line(s[k + 1..], client, gone)
    ensures Line(s, client, gone) ==
            Line(s[..k], client, gone) + (if InLine(s[k], client, gone) then [s[k]] else []) + Line(s[k + 1..], client, gone)
  {
    SplitAtPosition(s, k);
    LineSplit(s[..k] + [s[k]], s[k + 1..], client, gone);
    LineSplit(s[..k], s[k + 1..], client, gone);
    LineAppend(s[..k], s[k], client, gone);
    var a := Line(s[..k], client, gone);
    assert a + [] == a;
  }

  /** A sequence without every occurrence of one command. */
  function Dropped(t: seq<Command>, x: Command): seq<Command> {
    if t == [] then []
    else
      var earlier, c := Dropped(t[..|t| - 1], x), t[|t| - 1];
      if c == x then earlier else earlier + [c]
  }

  lemma {:induction false} LineDrops(s: seq<Command>, client: int, gone: set<Command>, x: Command)
    ensures Line(s, client, gone + {x}) == Dropped(Line(s, client, gone), x)
  {
    if s != [] {
      LineDrops(s[..|s| - 1], client, gone, x);
      var earlier := Line(s[..|s| - 1], client, gone);
      assert (earlier + [s[|s| - 1]])[..|earlier|] == earlier;
    }
  }

  lemma {:induction false} DroppedSplit(a: seq<Command>, b: seq<Command>, x: Command)
    ensures Dropped(a + b, x) == Dropped(a, x) + Dropped(b, x)
    decreases |b|
  {
    if b == [] {
      assert a + b == a;
    } else {
      var b' := b[..|b| - 1];
      assert (a + b)[..|a + b| - 1] == a + b';
      DroppedSplit(a, b', x);
      assert Dropped(a, x) + (Dropped(b', x) + [b[|b| - 1]]) == (Dropped(a, x) + Dropped(b', x)) + [b[|b| - 1]];
    }
  }

  lemma {:induction false} DroppedOther(t: seq<Command>, x: Command)
    requires x !in t
    ensures Dropped(t, x) == t
  {
    if t != [] {
      DroppedOther(t[..|t| - 1], x);
    }
  }

  lemma {:induction false} LineMembers(s: seq<Command>, client: int, gone: set<Command>, x: Command)
    requires x in Line(s, client, gone)
    ensures x in s && InLine(x, client, gone)
  {
    if s != [] && !(x == s[|s| - 1] && InLine(x, client, gone)) {
      LineMembers(s[..|s| - 1], client, gone, x);
    }
  }

  lemma {:induction false} LineDistinct(s: seq<Command>, client: int, gone: set<Command>)
    requires Distinct(s)
    ensures Distinct(Line(s, client, gone))
  {
    if s != [] {
      var earlier, c := s[..|s| - 1], s[|s| - 1];
      LineDistinct(earlier, client, gone);
      forall i | 0 <= i < |Line(earlier, client, gone)| ensures Line(earlier, client, gone)[i].id != c.id {
        LineMembers(earlier, client, gone, Line(earlier, client, gone)[i]);
      }
    }
  }

  lemma {:induction false} DroppedOnce(a: seq<Command>, x: Command, b: seq<Command>)
    requires Distinct(a + [x] + b)
    ensures Dropped(a + [x] + b, x) == a + b
  {
    var whole := a + [x] + b;
    forall i | 0 <= i < |a| ensures a[i] != x {
      assert whole[i].id != whole[|a|].id;
    }
    forall i | 0 <= i < |b| ensures b[i] != x {
      assert whole[|a|].id != whole[|a| + 1 + i].id;
    }
    DroppedSplit(a + [x], b, x);
    DroppedSplit(a, [x], x);
    assert [x][..0] == [];
    DroppedOther(a, x);
    DroppedOther(b, x);
    assert a + [] == a;
  }

  // ----- The invariant -----

  /** What was accepted of one client and not evicted is what was started followed by what is queued. */
  ghost predicate InOrder(h: History, client: int) {
    Line(h.added, client, h.evicted) == Line(h.processed, client, {}) + Line(h.commands, client, {})
  }

  ghost predicate Inv(h: History) {
    && Distinct(h.added)
    && (forall x :: x in h.evicted ==> x in h.added && x.kind.Publish?)
    && forall client :: InOrder(h, client)
  }

  lemma AppendInOrder(h: History, c: Command, client: int)
    requires Inv(h) && FreshIn(c, h.added)
    ensures InOrder(h.(commands := h.commands + [c], added := h.added + [c]), client)
  {
    assert InOrder(h, client);
    assert c !in h.added;
    AppendToLine(h.processed, h.commands, h.added, h.commands + [c], h.added + [c], c, client, h.evicted);
  }

  lemma {:induction false} AppendToLine(processed: seq<Command>, commands: seq<Command>, added: seq<Command>, commands': seq<Command>, added': seq<Command>,
                     c: Command, client: int, evicted: set<Command>)
    requires commands' == commands + [c] && added' == added + [c] && c !in evicted
    requires Line(added, client, evicted) == Line(processed, client, {}) + Line(commands, client, {})
    ensures Line(added', client, evicted) == Line(processed, client, {}) + Line(commands', client, {})
  {
    LineAppend(added, c, client, evicted);
    LineAppend(commands, c, client, {});
    OneMore(Line(processed, client, {}), Line(commands, client, {}), c);
  }

  lemma OneMore(p: seq<Command>, q: seq<Command>, c: Command)
    ensures p + (q + [c]) == (p + q) + [c]
  {
  }

  lemma PrependInOrder(h: History, c: Command, client: int)
    requires Inv(h) && FreshIn(c, h.added) && GoesFirst(c)
    ensures InOrder(h.(commands := [c] + h.commands, added := h.added + [c]), client)
  {
    assert InOrder(h, client);
    LineAppend(h.added, c, client, h.evicted);
    LineSplit([c], h.commands, client, {});
    LineAppend([], c, client, {});
    assert [] + [c] == [c] && [] + Line(h.commands, client, {}) == Line(h.commands, client, {});
  }

  lemma {:induction false} MiddleDropped(p: seq<Command>, a: seq<Command>, x: Command, b: seq<Command>)
    requires Distinct(p + (a + [x] + b))
    ensures Dropped(p + (a + [x] + b), x) == p + (a + b)
  {
    assert p + (a + [x] + b) == (p + a) + [x] + b;
    DroppedOnce(p + a, x, b);
    assert (p + a) + b == p + (a + b);
  }

  /** A queued message gives way. */
  lemma EvictInOrder(h: History, k: nat, client: int)
    requires Distinct(h.added) && InOrder(h, client) && k < |h.commands|
    requires !GoesFirst(h.commands[k])
    ensures InOrder(h.(commands := Without(h.commands, k), evicted := h.evicted + {h.commands[k]}), client)
  {
    var x := h.commands[k];
    LineDrops(h.added, client, h.evicted, x);
    LineAround(h.commands, k, client, {});
    var p, a, b := Line(h.processed, client, {}), Line(h.commands[..k], client, {}), Line(h.commands[k + 1..], client, {});
    if x.client == client && x !in h.evicted {
      LineDistinct(h.added, client, h.evicted);
      MiddleDropped(p, a, x, b);
    } else {
      if x in Line(h.added, client, h.evicted) {
        LineMembers(h.added, client, h.evicted, x);
      }
      DroppedOther(Line(h.added, client, h.evicted), x);
      assert a + [] == a;
    }
  }

  lemma {:induction false} NoneOfClient(s: seq<Command>, client: int)
    requires forall i :: 0 <= i < |s| ==> s[i].client != client
    ensures Line(s, client, {}) == []
  {
    if s != [] {
      NoneOfClient(s[..|s| - 1], client);
    }
  }

  lemma ProcessInOrder(h: History, k: nat, client: int)
    requires InOrder(h, client) && k < |h.commands| && FirstOfClient(h.commands, k)
    ensures InOrder(h.(commands := Without(h.commands, k), processed := h.processed + [h.commands[k]]), client)
  {
    var x := h.commands[k];
    LineAround(h.commands, k, client, {});
    LineAppend(h.processed, x, client, {});
    var p, a, b := Line(h.processed, client, {}), Line(h.commands[..k], client, {}), Line(h.commands[k + 1..], client, {});
    if InLine(x, client, {}) {
      NoneOfClient(h.commands[..k], client);
      FrontMoves(p, x, b);
    } else {
      assert a + [] == a;
    }
  }

  lemma FrontMoves(p: seq<Command>, x: Command, b: seq<Command>)
    ensures p + ([] + [x] + b) == (p + [x]) + ([] + b)
  {
  }

  lemma StepKeepsInv(h: History, op: Op, h': History, limits: int -> Option<int>)
    requires Inv(h) && Does(h, op, h', limits)
    ensures Inv(h')
  {
    forall client ensures InOrder(h', client) {
      assert InOrder(h, client);
      match op {
        case Add(c, rc) =>
          if GoesFirst(c) {
            if rc == Queued {
              PrependInOrder(h, c, client);
            }
          } else {
            AddKeepsOrder(h, c, rc, h', limits, client);
          }
        case Process(states, started) =>
          if started.Some? {
            var k: nat :| Selects(h.commands, states, k) && k < |h.commands| && started == Some(h.commands[k])
                          && h'.commands == Without(h.commands, k);
            ProcessInOrder(h, k, client);
          } else {
            assert h.processed + [] == h.processed;
          }
      }
    }
    if op.Add? {
      AddKeepsRest(h, op.command, op.rc, h', limits);
    }
  }

  lemma AddKeepsOrder(h: History, c: Command, rc: Added, h': History, limits: int -> Option<int>, client: int)
    requires Inv(h) && Does(h, Add(c, rc), h', limits) && !GoesFirst(c)
    ensures InOrder(h', client)
  {
    AppendInOrder(h, c, client);
    var g := h.(commands := h.commands + [c], added := h.added + [c]);
    if rc.Replaced? {
      var k: nat :| k <= |h.commands| && IsFirstPublish(g.commands, c.client, k)
        && rc == Replaced(g.commands[k]) && h'.commands == Without(g.commands, k);
      EvictInOrder(g, k, client);
    }
  }

  lemma QueuedWasAdded(h: History, k: nat)
    requires k < |h.commands| && InOrder(h, h.commands[k].client) && !GoesFirst(h.commands[k])
    ensures h.commands[k] in h.added
  {
    var x, p := h.commands[k], Line(h.processed, h.commands[k].client, {});
    LineAround(h.commands, k, x.client, {});
    var a := Line(h.commands[..k], x.client, {});
    assert (p + Line(h.commands, x.client, {}))[|p| + |a|] == x;
    LineMembers(h.added, x.client, h.evicted, x);
  }

  lemma AddKeepsRest(h: History, c: Command, rc: Added, h': History, limits: int -> Option<int>)
    requires Inv(h) && Does(h, Add(c, rc), h', limits)
    ensures Distinct(h'.added) && forall x :: x in h'.evicted ==> x in h'.added && x.kind.Publish?
  {
    if rc.Replaced? {
      var g := h.(commands := h.commands + [c], added := h.added + [c]);
      AppendInOrder(h, c, c.client);
      EvictedWasAdded(g, c, rc.evicted, h'.commands);
    }
  }

  lemma EvictedWasAdded(g: History, c: Command, x: Command, s': seq<Command>)
    requires g.commands != [] && InOrder(g, c.client)
    requires exists k: nat :: k <= |g.commands| - 1 && IsFirstPublish(g.commands, c.client, k) && x == g.commands[k] && s' == Without(g.commands, k)
    ensures x in g.added && x.kind.Publish?
  {
    var k: nat :| k <= |g.commands| - 1 && IsFirstPublish(g.commands, c.client, k) && x == g.commands[k] && s' == Without(g.commands, k);
    QueuedWasAdded(g, k);
  }

  lemma {:induction false} RunKeepsInv(hs: seq<History>, ops: seq<Op>, limits: int -> Option<int>, n: nat)
    requires IsRun(hs, ops, limits) && n <= |ops|
    ensures Inv(hs[n])
  {
    if n == 0 {
      forall client ensures InOrder(hs[0], client) {
        assert [] + Line(hs[0].commands, client, {}) == Line(hs[0].commands, client, {});
      }
    } else {
      RunKeepsInv(hs, ops, limits, n - 1);
      assert Does(hs[n - 1], ops[n - 1], hs[n], limits);
      StepKeepsInv(hs[n - 1], ops[n - 1], hs[n], limits);
    }
  }

  /** In every run, the commands of a client other than connects and internal disconnects are started
      in the order they were queued and each at most once; only PUBLISH commands are ever skipped,
      and only by eviction. */
  lemma {:induction false} StartedInOrder(hs: seq<History>, ops: seq<Op>, limits: int -> Option<int>, n: nat, client: int)
    requires IsRun(hs, ops, limits) && n <= |ops|
    ensures var h := hs[n];
            && Line(h.processed, client, {}) <= Line(h.added, client, h.evicted)
            && Line(h.added, client, h.evicted) == Line(h.processed, client, {}) + Line(h.commands, client, {})
            && Distinct(Line(h.added, client, h.evicted))
            && forall x :: x in h.evicted ==> x.kind.Publish?
  {
    RunKeepsInv(hs, ops, limits, n);
    assert InOrder(hs[n], client);
    LineDistinct(hs[n].added, client, hs[n].evicted);
  }

  lemma {:induction false} PublishesAfter(s: seq<Command>, c: Command, client: int)
    ensures PublishesOf(s + [c], client) == PublishesOf(s, client) + (if c.client == client && c.kind.Publish? then 1 else 0)
    ensures GoesFirst(c) ==> PublishesOf([c] + s, client) == PublishesOf(s, client)
  {
    assert (s + [c])[..|s|] == s;
    PublishesSplit([c], s, client);
    assert [c][..0] == [];
  }

  lemma {:induction false} StepKeepsBound(h: History, op: Op, h': History, limits: int -> Option<int>, client: int, bound: int)
    requires Does(h, op, h', limits) && limits(client).Some? && limits(client).value <= bound
    requires PublishesOf(h.commands, client) <= bound
    ensures PublishesOf(h'.commands, client) <= bound
  {
    match op {
      case Add(c, rc) =>
        PublishesAfter(h.commands, c, client);
        if rc.Replaced? {
          var k: nat :| k <= |h.commands| && IsFirstPublish(h.commands + [c], c.client, k)
            && rc == Replaced((h.commands + [c])[k]) && h'.commands == Without(h.commands + [c], k);
          PublishesWithout(h.commands + [c], k, client);
        }
      case Process(states, started) =>
        if started.Some? {
          var k: nat :| k < |h.commands| && h'.commands == Without(h.commands, k);
          PublishesWithout(h.commands, k, client);
        }
    }
  }

  /** With create options, the number of buffered messages never rises above the larger of what it was
      at the start and maxBufferedMessages. */
  lemma {:induction false} BufferBounded(hs: seq<History>, ops: seq<Op>, limits: int -> Option<int>, n: nat, client: int)
    requires IsRun(hs, ops, limits) && n <= |ops| && limits(client).Some?
    ensures var start, limit := PublishesOf(hs[0].commands, client), limits(client).value;
            PublishesOf(hs[n].commands, client) <= if start > limit then start else limit
  {
    if n > 0 {
      BufferBounded(hs, ops, limits, n - 1, client);
      assert Does(hs[n - 1], ops[n - 1], hs[n], limits);
      var start, limit := PublishesOf(hs[0].commands, client), limits(client).value;
      StepKeepsBound(hs[n - 1], ops[n - 1], hs[n], limits, client, if start > limit then start else limit);
    }
  }

  // ----- Messages in flight -----

  /** The command starts a message that is to be acknowledged. */
  predicate StartsMessage(op: Op, client: int) {
    op.Process? && op.started.Some? && op.started.value.client == client && op.started.value.kind.Publish? && op.started.value.kind.qos > 0
  }

  /** How many messages of a client are in flight from step to step: the selection looks at their number, a
      message that is started adds one, and any may be completed at any time. */
  ghost predicate Counted(ops: seq<Op>, client: int, inFlight: seq<int>, maxInflight: int) {
    && |inFlight| == |ops| + 1
    && forall i {:trigger ops[i]} :: 0 <= i < |ops| ==>
         && (ops[i].Process? ==> ops[i].states(client).outbound == inFlight[i] && ops[i].states(client).maxInflight == maxInflight)
         && inFlight[i + 1] <= inFlight[i] + (if StartsMessage(ops[i], client) then 1 else 0)
  }

  lemma StartsBelowLimit(h: History, op: Op, h': History, limits: int -> Option<int>, client: int)
    requires Does(h, op, h', limits) && StartsMessage(op, client)
    ensures op.states(client).outbound < op.states(client).maxInflight && op.states(client).outbound < 65534
  {
    StartsWhatIsNotHeldBack(h.commands, op.states, h'.commands, op.started);
  }

  /** Flow control: in every run the number of a client's messages in flight never rises above the larger of
      what it was at the start and maxInflightMessages, nor of that and the number of message ids that may
      be in use. */
  lemma {:induction false} InFlightBounded(hs: seq<History>, ops: seq<Op>, limits: int -> Option<int>, client: int,
                                           inFlight: seq<int>, maxInflight: int, n: nat)
    requires IsRun(hs, ops, limits) && Counted(ops, client, inFlight, maxInflight) && n <= |ops|
    ensures inFlight[n] <= if inFlight[0] > maxInflight then inFlight[0] else maxInflight
    ensures inFlight[n] <= if inFlight[0] > 65534 then inFlight[0] else 65534
  {
    if n > 0 {
      InFlightBounded(hs, ops, limits, client, inFlight, maxInflight, n - 1);
      assert Does(hs[n - 1], ops[n - 1], hs[n], limits);
      if StartsMessage(ops[n - 1], client) {
        StartsBelowLimit(hs[n - 1], ops[n - 1], hs[n], limits, client);
      }
    }
  }
}
