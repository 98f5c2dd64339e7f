/** Tokens of one asynchronous client: MQTTAsync_assignMsgId and where the requests that carry its
    tokens are kept (src/MQTTAsyncUtils.c, src/MQTTAsync.c).  Assigning a token and queueing the
    request with it is one step. */
module Tokens {
  import opened Types
  import opened MessageIds
  import opened LinkedList

  /** id stands for the address; answered: a QoS 1 or 2 PUBLISH, which becomes an outbound message.
      A QoS 0 PUBLISH has token 0. */
  datatype Request = Request(id: nat, token: int, answered: bool)

  /** queued: this client's commands in the command list; others: the tokens of the other commands in
      it; waiting: responses; inFlight: the requests behind outboundMsgs; last: msgID. */
  datatype Requests = Requests(queued: seq<Request>, others: set<int>, waiting: seq<Request>, inFlight: seq<Request>, last: int)

  datatype Op =
    | Ask(request: Request)
    | Begin(k: nat, kept: bool)
    | Evict(k: nat)
    | Respond(k: nat)
    | Acknowledge(k: nat)
    | OtherClients(others: set<int>)
    | Clean
    | Restart

  function TokensOf(s: seq<Request>): set<int> {
    set i | 0 <= i < |s| :: s[i].token
  }

  /** The tokens the search finds in use: of every queued command whatever its client, of the
      outbound messages and of the responses. */
  function InUse(r: Requests): set<int> {
    TokensOf(r.queued) + r.others + TokensOf(r.inFlight) + TokensOf(r.waiting)
  }

  ghost predicate Does(r: Requests, op: Op, r': Requests) {
    match op
    case Ask(q) =>
      if q.token == 0 then !q.answered && r' == r.(queued := r.queued + [q])
      else IsFirstFree(InUse(r), r.last, q.token) && r' == r.(queued := r.queued + [q], last := q.token)
    case Begin(k, kept) =>
      k < |r.queued| &&
      var q := r.queued[k];
      r' == r.(queued := Without(r.queued, k), waiting := if kept then r.waiting + [q] else r.waiting,
               inFlight := if q.answered then r.inFlight + [q] else r.inFlight)
    case Evict(k) => k < |r.queued| && r' == r.(queued := Without(r.queued, k))
    case Respond(k) => k < |r.waiting| && r' == r.(waiting := Without(r.waiting, k))
    case Acknowledge(k) => k < |r.inFlight| && r' == r.(inFlight := Without(r.inFlight, k))
    case OtherClients(others) => r' == r.(others := others)
    // cleanSession: the commands stay, everything else of the session goes
    case Clean => r' == r.(waiting := [], inFlight := [], last := 0)
    // a restart, when commands that were not stored have been evicted: the responses go
    case Restart => r' == r.(waiting := [], last := 0)
  }

  /** No two of a list share a token other than 0. */
  ghost predicate Distinct(s: seq<Request>) {
    forall i, j :: 0 <= i < j < |s| ==> s[i].token == 0 || s[i].token != s[j].token
  }

  /** No token other than 0 is in both lists. */
  ghost predicate Apart(s: seq<Request>, t: seq<Request>) {
    forall i, j :: 0 <= i < |s| && 0 <= j < |t| ==> s[i].token == 0 || s[i].token != t[j].token
  }

  /** The same token in both lists means the same request. */
  ghost predicate SameRequest(s: seq<Request>, t: seq<Request>) {
    forall i, j :: 0 <= i < |s| && 0 <= j < |t| && s[i].token != 0 && s[i].token == t[j].token ==> s[i] == t[j]
  }

  /** A token other than 0 belongs to one live request only; a PUBLISH can be both waiting for its
      response and in flight. */
  ghost predicate Unique(r: Requests) {
    && Distinct(r.queued) && Distinct(r.waiting) && Distinct(r.inFlight)
    && Apart(r.queued, r.waiting) && Apart(r.queued, r.inFlight) && SameRequest(r.waiting, r.inFlight)
    && (forall i :: 0 <= i < |r.inFlight| ==> r.inFlight[i].answered && IsId(r.inFlight[i].token))
    && (forall i :: 0 <= i < |r.queued| ==> if r.queued[i].token == 0 then !r.queued[i].answered else IsId(r.queued[i].token))
  }

  lemma AskKeepsUnique(r: Requests, q: Request, r': Requests)
    requires Unique(r) && Does(r, Ask(q), r')
    ensures Unique(r')
  {
    if q.token != 0 {
      assert forall i :: 0 <= i < |r.queued| ==> r.queued[i].token in TokensOf(r.queued);
      assert forall i :: 0 <= i < |r.inFlight| ==> r.inFlight[i].token in TokensOf(r.inFlight);
      assert forall i :: 0 <= i < |r.waiting| ==> r.waiting[i].token in TokensOf(r.waiting);
    }
  }

  lemma BeginKeepsUnique(r: Requests, k: nat, kept: bool, r': Requests)
    requires Unique(r) && Does(r, Begin(k, kept), r')
    ensures Unique(r')
  {
    var q := r.queued[k];
    forall i | 0 <= i < |r'.queued| ensures r'.queued[i].token == 0 || r'.queued[i].token != q.token {
      assert r'.queued[i] == r.queued[if i < k then i else i + 1];
    }
  }

  lemma StepKeepsUnique(r: Requests, op: Op, r': Requests)
    requires Unique(r) && Does(r, op, r')
    ensures Unique(r')
  {
    match op {
      case Ask(q) => AskKeepsUnique(r, q, r');
      case Begin(k, kept) => BeginKeepsUnique(r, k, kept, r');
      case Evict(k) =>
      case Respond(k) =>
      case Acknowledge(k) =>
      case OtherClients(others) =>
      case Clean =>
      case Restart =>
    }
  }

  ghost predicate IsRun(rs: seq<Requests>, ops: seq<Op>) {
    && |rs| == |ops| + 1
    && Unique(rs[0])
    && forall i {:trigger ops[i]} :: 0 <= i < |ops| ==> Does(rs[i], ops[i], rs[i + 1])
  }

  /** In every run, from any state with unique tokens, they stay unique. */
  lemma {:induction false} TokensStayUnique(rs: seq<Requests>, ops: seq<Op>, n: nat)
    requires IsRun(rs, ops) && n <= |ops|
    ensures Unique(rs[n])
  {
    if n > 0 {
      TokensStayUnique(rs, ops, n - 1);
      StepKeepsUnique(rs[n - 1], ops[n - 1], rs[n]);
    }
  }

  /** MQTTAsync_assignMsgId. */
  method AssignMsgId(r: Requests) returns (msgid: int, last: int)
    requires 0 <= r.last <= MAX_MSG_ID
    requires r.last != 0 || exists id :: IsId(id) && id !in InUse(r)
    ensures IsFirstFree(InUse(r), r.last, msgid)
    ensures msgid != 0 ==> msgid !in r.others && forall q :: q in r.queued || q in r.waiting || q in r.inFlight ==> q.token != msgid
    ensures last == if msgid != 0 then msgid else r.last
  {
    msgid := FirstFreeId(InUse(r), r.last);
    last := if msgid != 0 then msgid else r.last;
  }
}
