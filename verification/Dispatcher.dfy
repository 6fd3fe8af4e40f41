/** The request/response dispatcher (app/TUTA/mail/message_dispatched.ts): two peers send
    requests to each other over a channel that may reorder messages. Request ids are a
    prefix and a counter that wraps. */
module Dispatcher {
  import opened Text

  const MAX_SAFE_INTEGER: nat := 0x1f_ffff_ffff_ffff

  // ---------------------------------------------------------------- ids

  /** The id of the `n`-th request: the counter restarts after MAX_SAFE_INTEGER ids. */
  function IdOf(prefix: string, n: nat): string {
    prefix + Numeral(10, n % MAX_SAFE_INTEGER)
  }

  lemma SameId(prefix: string, m: nat, n: nat)
    ensures IdOf(prefix, m) == IdOf(prefix, n) <==> m % MAX_SAFE_INTEGER == n % MAX_SAFE_INTEGER
  {
    var a, b := Numeral(10, m % MAX_SAFE_INTEGER), Numeral(10, n % MAX_SAFE_INTEGER);
    if IdOf(prefix, m) == IdOf(prefix, n) {
      assert a == (prefix + a)[|prefix|..] && b == (prefix + b)[|prefix|..];
      NumeralInjective(10, m % MAX_SAFE_INTEGER, n % MAX_SAFE_INTEGER);
    }
  }

  lemma Wraps(m: nat)
    ensures (m + MAX_SAFE_INTEGER) % MAX_SAFE_INTEGER == m % MAX_SAFE_INTEGER
  {
  }

  /** Any MAX_SAFE_INTEGER consecutive ids are distinct, and no more than that. */
  lemma ConsecutiveIdsDistinct(prefix: string, m: nat, n: nat)
    requires m < n
    ensures n < m + MAX_SAFE_INTEGER ==> IdOf(prefix, m) != IdOf(prefix, n)
    ensures IdOf(prefix, m) == IdOf(prefix, m + MAX_SAFE_INTEGER)
  {
    hide IdOf;
    SameId(prefix, m, n);
    SameId(prefix, m, m + MAX_SAFE_INTEGER);
    Wraps(m);
    if n < m + MAX_SAFE_INTEGER {
      SmallGap(m, n);
    }
  }

  lemma SmallGap(m: nat, n: nat)
    requires m < n < m + MAX_SAFE_INTEGER
    ensures m % MAX_SAFE_INTEGER != n % MAX_SAFE_INTEGER
  {
    assert m == MAX_SAFE_INTEGER * (m / MAX_SAFE_INTEGER) + m % MAX_SAFE_INTEGER;
    assert n == MAX_SAFE_INTEGER * (n / MAX_SAFE_INTEGER) + n % MAX_SAFE_INTEGER;
  }

  /** `makeRequestIdGenerator`. */
  class IdGenerator {
    const prefix: string
    var requestId: nat
    ghost var calls: nat

    ghost predicate Valid()
      reads this
    {
      requestId <= MAX_SAFE_INTEGER && requestId % MAX_SAFE_INTEGER == calls % MAX_SAFE_INTEGER
    }

    constructor (prefix: string)
      ensures Valid() && this.prefix == prefix && calls == 0
    {
      this.prefix := prefix;
      requestId, calls := 0, 0;
    }

    method NextId() returns (id: string)
      requires Valid()
      modifies this
      ensures Valid() && calls == old(calls) + 1
      ensures id == IdOf(prefix, old(calls))
    {
      if requestId >= MAX_SAFE_INTEGER {
        requestId := 0;
      }
      id := prefix + Numeral(10, requestId);
      requestId := requestId + 1;
      calls := calls + 1;
      NextModulo(requestId - 1, calls - 1);
    }
  }

  lemma NextModulo(a: nat, b: nat)
    requires a < MAX_SAFE_INTEGER && a % MAX_SAFE_INTEGER == b % MAX_SAFE_INTEGER
    ensures (a + 1) % MAX_SAFE_INTEGER == (b + 1) % MAX_SAFE_INTEGER
    ensures a == b % MAX_SAFE_INTEGER
  {
  }

  // ---------------------------------------------------------------- the network

  /** What a promise ends with. `NotSent` is the rejection when posting itself throws. */
  datatype Outcome = Resolved(value: int) | Rejected(error: int) | NotSent

  /** A request on its way to the peer, its handler at work there, or the answer on its way
      back. `owner` is the side that posted it and `serial` which of its requests it is;
      the programs see only the id and the outcome. */
  datatype Stage = AsRequest | AsHandler | AsReply(outcome: Outcome)

  datatype Token = Token(owner: bool, serial: nat, id: string, stage: Stage)

  datatype Settlement = Settlement(owner: bool, serial: nat, outcome: Outcome)

  /** One dispatcher: how many requests it has posted, and the callbacks it keeps, each
      identified by the request they belong to. */
  datatype Peer = Peer(prefix: string, issued: nat, messages: map<string, nat>)

  datatype Network = Network(
    left: Peer, right: Peer, tokens: seq<Token>,
    settled: seq<Settlement>, produced: map<(bool, nat), Outcome>)

  function PeerOf(n: Network, side: bool): Peer {
    if side then n.right else n.left
  }

  function WithPeer(n: Network, side: bool, p: Peer): Network {
    if side then n.(right := p) else n.(left := p)
  }

  function Initial(left: string, right: string): Network {
    Network(Peer(left, 0, map[]), Peer(right, 0, map[]), [], [], map[])
  }

  /** How the peer takes a request: its command runs, answers an error at once because no
      such command exists, or throws and never answers. */
  datatype Reception = Runs | AnswersError(error: int) | Throws

  datatype Event =
    | Post(side: bool, transportThrows: bool)
    | ReceiveRequest(i: nat, reception: Reception)
    | HandlerDone(i: nat, result: Outcome)
    | ReceiveReply(i: nat)

  /** Any message in flight may be delivered next, and any running handler may finish next. */
  predicate Enabled(n: Network, e: Event) {
    match e
    case Post(_, _) => true
    case ReceiveRequest(i, _) => i < |n.tokens| && n.tokens[i].stage.AsRequest?
    case HandlerDone(i, result) => i < |n.tokens| && n.tokens[i].stage.AsHandler? && !result.NotSent?
    case ReceiveReply(i) => i < |n.tokens| && n.tokens[i].stage.AsReply?
  }

  function Without(ts: seq<Token>, i: nat): seq<Token>
    requires i < |ts|
  {
    ts[..i] + ts[i + 1..]
  }

  /** The callbacks of a new request are filed under its id. */
  function Filed(p: Peer): Peer {
    p.(issued := p.issued + 1, messages := p.messages[IdOf(p.prefix, p.issued) := p.issued])
  }

  /** The callbacks under an id are taken out. */
  function Unfiled(p: Peer, id: string): Peer {
    p.(messages := p.messages - {id})
  }

  /** `postRequest`. */
  function PostStep(n: Network, side: bool, transportThrows: bool): Network {
    var p := PeerOf(n, side);
    var id := IdOf(p.prefix, p.issued);
    var m := WithPeer(n, side, Filed(p));
    if transportThrows then m.(settled := n.settled + [Settlement(side, p.issued, NotSent)])
    else m.(tokens := n.tokens + [Token(side, p.issued, id, AsRequest)])
  }

  /** `handleMessage` for a response or an error: whoever is filed under the id is settled. */
  function ReplyStep(n: Network, i: nat): Network
    requires i < |n.tokens| && n.tokens[i].stage.AsReply?
  {
    var t := n.tokens[i];
    var p := PeerOf(n, t.owner);
    var m := n.(tokens := Without(n.tokens, i));
    if t.id in p.messages then
      WithPeer(m, t.owner, Unfiled(p, t.id))
        .(settled := n.settled + [Settlement(t.owner, p.messages[t.id], t.stage.outcome)])
    else m
  }

  /** The handler run of a token ends with an outcome. */
  function Answer(n: Network, i: nat, outcome: Outcome): Network
    requires i < |n.tokens|
  {
    var t := n.tokens[i];
    n.(tokens := n.tokens[i := t.(stage := AsReply(outcome))], produced := n.produced[(t.owner, t.serial) := outcome])
  }

  function Step(n: Network, e: Event): Network
    requires Enabled(n, e)
  {
    match e
    case Post(side, transportThrows) => PostStep(n, side, transportThrows)
    case ReceiveRequest(i, Runs) => n.(tokens := n.tokens[i := n.tokens[i].(stage := AsHandler)])
    case ReceiveRequest(i, AnswersError(error)) => Answer(n, i, Rejected(error))
    case ReceiveRequest(i, Throws) => n.(tokens := Without(n.tokens, i))
    case HandlerDone(i, result) => Answer(n, i, result)
    case ReceiveReply(i) => ReplyStep(n, i)
  }

  // ---------------------------------------------------------------- invariant

  ghost predicate IsSettled(n: Network, side: bool, serial: nat) {
    exists i :: 0 <= i < |n.settled| && n.settled[i].owner == side && n.settled[i].serial == serial
  }

  /** The assumption: a request is posted only when none that can still be answered has the
      id it will get. */
  ghost predicate Room(n: Network, side: bool) {
    var p := PeerOf(n, side);
    forall i :: 0 <= i < |n.tokens| && n.tokens[i].owner == side ==> n.tokens[i].id != IdOf(p.prefix, p.issued)
  }

  /** A token belongs to an unsettled request whose callbacks are filed under its id. */
  ghost predicate TokenOk(n: Network, t: Token) {
    var p := PeerOf(n, t.owner);
    && t.serial < p.issued && t.id == IdOf(p.prefix, t.serial)
    && !IsSettled(n, t.owner, t.serial)
    && t.id in p.messages && p.messages[t.id] == t.serial
    && (t.stage.AsReply? ==>
          !t.stage.outcome.NotSent?
          && (t.owner, t.serial) in n.produced && n.produced[(t.owner, t.serial)] == t.stage.outcome)
  }

  ghost predicate SettlementOk(n: Network, s: Settlement) {
    && s.serial < PeerOf(n, s.owner).issued
    && (s.outcome == NotSent
        || ((s.owner, s.serial) in n.produced && n.produced[(s.owner, s.serial)] == s.outcome))
  }

  ghost predicate Inv(n: Network) {
    && (forall i :: 0 <= i < |n.tokens| ==> TokenOk(n, n.tokens[i]))
    && (forall i, j :: 0 <= i < j < |n.tokens| ==>
          (n.tokens[i].owner, n.tokens[i].serial) != (n.tokens[j].owner, n.tokens[j].serial))
    && (forall i :: 0 <= i < |n.settled| ==> SettlementOk(n, n.settled[i]))
    && (forall i, j :: 0 <= i < j < |n.settled| ==>
          (n.settled[i].owner, n.settled[i].serial) != (n.settled[j].owner, n.settled[j].serial))
    && (forall side, k :: (side, k) in n.produced ==> k < PeerOf(n, side).issued)
  }

  lemma StillSettled(n: Network, m: Network, extra: seq<Settlement>)
    requires m.settled == n.settled + extra
    ensures forall side, k :: IsSettled(m, side, k) <==>
              IsSettled(n, side, k) || exists i :: 0 <= i < |extra| && extra[i].owner == side && extra[i].serial == k
  {
    forall side, k | IsSettled(n, side, k) ensures IsSettled(m, side, k) {
      var i :| 0 <= i < |n.settled| && n.settled[i].owner == side && n.settled[i].serial == k;
      assert m.settled[i] == n.settled[i];
    }
    forall side, k | exists i :: 0 <= i < |extra| && extra[i].owner == side && extra[i].serial == k
      ensures IsSettled(m, side, k)
    {
      var i :| 0 <= i < |extra| && extra[i].owner == side && extra[i].serial == k;
      assert m.settled[|n.settled| + i] == extra[i];
    }
  }

  /** A request that was just given a number is neither settled nor in flight. */
  lemma NewIsUnsettled(n: Network, side: bool)
    requires Inv(n)
    ensures !IsSettled(n, side, PeerOf(n, side).issued)
    ensures forall i :: 0 <= i < |n.tokens| && n.tokens[i].owner == side ==> n.tokens[i].serial < PeerOf(n, side).issued
  {
    forall i | 0 <= i < |n.settled| && n.settled[i].owner == side
      ensures n.settled[i].serial != PeerOf(n, side).issued
    {
      assert SettlementOk(n, n.settled[i]);
    }
    forall i | 0 <= i < |n.tokens| && n.tokens[i].owner == side
      ensures n.tokens[i].serial < PeerOf(n, side).issued
    {
      assert TokenOk(n, n.tokens[i]);
    }
  }

  /** Posting leaves every token in order: with room, the new id is not one that is waited for. */
  lemma PostKeepsToken(n: Network, side: bool, throws: bool, t: Token)
    requires Inv(n) && Room(n, side) && t in n.tokens
    ensures TokenOk(PostStep(n, side, throws), t)
  {
    var i :| 0 <= i < |n.tokens| && n.tokens[i] == t;
    assert TokenOk(n, t);
    var p, m := PeerOf(n, side), PostStep(n, side, throws);
    StillSettled(n, m, if throws then [Settlement(side, p.issued, NotSent)] else []);
  }

  lemma PostKeepsTokens(n: Network, side: bool, throws: bool)
    requires Inv(n) && Room(n, side)
    ensures var m := PostStep(n, side, throws);
            && (forall i :: 0 <= i < |m.tokens| ==> TokenOk(m, m.tokens[i]))
            && (forall i, j :: 0 <= i < j < |m.tokens| ==>
                  (m.tokens[i].owner, m.tokens[i].serial) != (m.tokens[j].owner, m.tokens[j].serial))
  {
    var p, m := PeerOf(n, side), PostStep(n, side, throws);
    var extra := if throws then [Settlement(side, p.issued, NotSent)] else [];
    assert m.settled == n.settled + extra;
    StillSettled(n, m, extra);
    NewIsUnsettled(n, side);
    forall i | 0 <= i < |m.tokens| ensures TokenOk(m, m.tokens[i]) {
      if i < |n.tokens| {
        PostKeepsToken(n, side, throws, n.tokens[i]);
      } else {
        assert m.tokens[i] == Token(side, p.issued, IdOf(p.prefix, p.issued), AsRequest);
      }
    }
    hide TokenOk, SettlementOk, IsSettled, IdOf;
  }

  lemma PostKeepsSettlements(n: Network, side: bool, throws: bool)
    requires Inv(n)
    ensures var m := PostStep(n, side, throws);
            && (forall i :: 0 <= i < |m.settled| ==> SettlementOk(m, m.settled[i]))
            && (forall i, j :: 0 <= i < j < |m.settled| ==>
                  (m.settled[i].owner, m.settled[i].serial) != (m.settled[j].owner, m.settled[j].serial))
            && (forall side, k :: (side, k) in m.produced ==> k < PeerOf(m, side).issued)
  {
    hide TokenOk, IsSettled, IdOf;
    var p, m := PeerOf(n, side), PostStep(n, side, throws);
    forall i | 0 <= i < |m.settled| ensures SettlementOk(m, m.settled[i]) {
      assert i < |n.settled| ==> SettlementOk(n, n.settled[i]);
    }
    forall i | 0 <= i < |n.settled| ensures (n.settled[i].owner, n.settled[i].serial) != (side, p.issued) {
      assert SettlementOk(n, n.settled[i]);
    }
  }

  lemma PostKeeps(n: Network, side: bool, throws: bool)
    requires Inv(n) && Room(n, side)
    ensures Inv(PostStep(n, side, throws))
  {
    PostKeepsTokens(n, side, throws);
    PostKeepsSettlements(n, side, throws);
    hide PostStep, TokenOk, SettlementOk;
  }

  /** An answer is recorded as what the request's own handler run produced. */
  lemma AnswerKeeps(n: Network, i: nat, outcome: Outcome)
    requires Inv(n) && i < |n.tokens| && !n.tokens[i].stage.AsReply? && !outcome.NotSent?
    ensures Inv(Answer(n, i, outcome))
  {
    var t, m := n.tokens[i], Answer(n, i, outcome);
    StillSettled(n, m, []);
    assert m.settled == n.settled + [];
    assert TokenOk(n, t);
    forall j | 0 <= j < |m.tokens| ensures TokenOk(m, m.tokens[j]) {
      assert TokenOk(n, n.tokens[j]);
    }
    forall j | 0 <= j < |m.settled| ensures SettlementOk(m, m.settled[j]) {
      assert SettlementOk(n, n.settled[j]);
      assert (n.settled[j].owner, n.settled[j].serial) != (t.owner, t.serial);
    }
  }

  lemma WithoutOther(ts: seq<Token>, i: nat, j: nat)
    requires i < |ts| && j < |Without(ts, i)|
    ensures Without(ts, i)[j] == ts[if j < i then j else j + 1]
  {
  }

  /** The reply finds its own request under its id, and settles it for the first time. */
  lemma ReplyKeeps(n: Network, i: nat)
    requires Inv(n) && i < |n.tokens| && n.tokens[i].stage.AsReply?
    ensures Inv(ReplyStep(n, i))
    ensures ReplyStep(n, i).settled ==
            n.settled + [Settlement(n.tokens[i].owner, n.tokens[i].serial, n.tokens[i].stage.outcome)]
  {
    var t, m := n.tokens[i], ReplyStep(n, i);
    assert TokenOk(n, t);
    StillSettled(n, m, [Settlement(t.owner, t.serial, t.stage.outcome)]);
    forall j | 0 <= j < |m.tokens| ensures TokenOk(m, m.tokens[j]) {
      WithoutOther(n.tokens, i, j);
      var k := if j < i then j else j + 1;
      assert TokenOk(n, n.tokens[k]);
      assert (n.tokens[k].owner, n.tokens[k].serial) != (t.owner, t.serial);
    }
    forall j, l | 0 <= j < l < |m.tokens|
      ensures (m.tokens[j].owner, m.tokens[j].serial) != (m.tokens[l].owner, m.tokens[l].serial)
    {
      WithoutOther(n.tokens, i, j);
      WithoutOther(n.tokens, i, l);
    }
    forall j | 0 <= j < |m.settled| ensures SettlementOk(m, m.settled[j]) {
      assert j < |n.settled| ==> SettlementOk(n, n.settled[j]);
    }
    forall j | 0 <= j < |n.settled| ensures (n.settled[j].owner, n.settled[j].serial) != (t.owner, t.serial) {
    }
  }

  lemma DropKeeps(n: Network, i: nat)
    requires Inv(n) && i < |n.tokens|
    ensures Inv(n.(tokens := Without(n.tokens, i)))
  {
    var m := n.(tokens := Without(n.tokens, i));
    StillSettled(n, m, []);
    assert m.settled == n.settled + [];
    forall j | 0 <= j < |m.tokens| ensures TokenOk(m, m.tokens[j]) {
      WithoutOther(n.tokens, i, j);
      assert TokenOk(n, n.tokens[if j < i then j else j + 1]);
    }
    forall j, l | 0 <= j < l < |m.tokens|
      ensures (m.tokens[j].owner, m.tokens[j].serial) != (m.tokens[l].owner, m.tokens[l].serial)
    {
      WithoutOther(n.tokens, i, j);
      WithoutOther(n.tokens, i, l);
    }
    forall j | 0 <= j < |m.settled| ensures SettlementOk(m, m.settled[j]) {
      assert SettlementOk(n, n.settled[j]);
    }
  }

  lemma RestageKeeps(n: Network, i: nat)
    requires Inv(n) && i < |n.tokens| && n.tokens[i].stage.AsRequest?
    ensures Inv(n.(tokens := n.tokens[i := n.tokens[i].(stage := AsHandler)]))
  {
    var m := n.(tokens := n.tokens[i := n.tokens[i].(stage := AsHandler)]);
    StillSettled(n, m, []);
    assert m.settled == n.settled + [];
    forall j | 0 <= j < |m.tokens| ensures TokenOk(m, m.tokens[j]) {
      assert TokenOk(n, n.tokens[j]);
    }
    forall j | 0 <= j < |m.settled| ensures SettlementOk(m, m.settled[j]) {
      assert SettlementOk(n, n.settled[j]);
    }
  }

  lemma StepKeeps(n: Network, e: Event)
    requires Inv(n) && Enabled(n, e) && (e.Post? ==> Room(n, e.side))
    ensures Inv(Step(n, e))
  {
    hide Inv;
    match e
    case Post(side, throws) => PostKeeps(n, side, throws);
    case ReceiveRequest(i, Runs) => RestageKeeps(n, i);
    case ReceiveRequest(i, AnswersError(error)) => AnswerKeeps(n, i, Rejected(error));
    case ReceiveRequest(i, Throws) => DropKeeps(n, i);
    case HandlerDone(i, result) => AnswerKeeps(n, i, result);
    case ReceiveReply(i) => ReplyKeeps(n, i);
  }

  // ---------------------------------------------------------------- whole runs

  ghost predicate AllEnabled(n: Network, events: seq<Event>)
    decreases |events|
  {
    events != [] ==>
      && Enabled(n, events[0])
      && AllEnabled(Step(n, events[0]), events[1..])
  }

  ghost function Run(n: Network, events: seq<Event>): Network
    requires AllEnabled(n, events)
    decreases |events|
  {
    if events == [] then n else Run(Step(n, events[0]), events[1..])
  }

  /** Every request of the run is posted with room. */
  ghost predicate Roomy(n: Network, events: seq<Event>)
    requires AllEnabled(n, events)
    decreases |events|
  {
    events != [] ==>
      (events[0].Post? ==> Room(n, events[0].side)) && Roomy(Step(n, events[0]), events[1..])
  }

  lemma {:induction false} RunKeeps(n: Network, events: seq<Event>)
    requires Inv(n) && AllEnabled(n, events) && Roomy(n, events)
    ensures Inv(Run(n, events))
    decreases |events|
  {
    if events != [] {
      StepKeeps(n, events[0]);
      RunKeeps(Step(n, events[0]), events[1..]);
    }
  }

  /** What the callers see: each request is settled at most once, and only with what its own
      handler run produced, or because it could not be posted. */
  ghost predicate Faithful(n: Network) {
    && (forall i, j :: 0 <= i < j < |n.settled| ==>
          (n.settled[i].owner, n.settled[i].serial) != (n.settled[j].owner, n.settled[j].serial))
    && (forall i :: 0 <= i < |n.settled| ==>
          var s := n.settled[i];
          s.outcome == NotSent
          || ((s.owner, s.serial) in n.produced && n.produced[(s.owner, s.serial)] == s.outcome))
  }

  lemma InvIsFaithful(n: Network)
    requires Inv(n)
    ensures Faithful(n)
  {
    forall i | 0 <= i < |n.settled| ensures SettlementOk(n, n.settled[i]) {
    }
  }

  /** However messages are reordered and handlers interleave. */
  lemma SettledOnceWithOwnResult(left: string, right: string, events: seq<Event>)
    requires AllEnabled(Initial(left, right), events) && Roomy(Initial(left, right), events)
    ensures Faithful(Run(Initial(left, right), events))
  {
    RunKeeps(Initial(left, right), events);
    InvIsFaithful(Run(Initial(left, right), events));
  }

  /** Every request of one side that can still be answered is fewer than MAX_SAFE_INTEGER
      requests old. */
  ghost predicate Young(n: Network, side: bool) {
    forall i :: 0 <= i < |n.tokens| && n.tokens[i].owner == side ==>
      PeerOf(n, side).issued < n.tokens[i].serial + MAX_SAFE_INTEGER
  }

  /** Room is never missing while requests are young. */
  lemma YoungRequestsLeaveRoom(n: Network, side: bool)
    requires Inv(n) && Young(n, side)
    ensures Room(n, side)
  {
    forall i | 0 <= i < |n.tokens| && n.tokens[i].owner == side
      ensures n.tokens[i].id != IdOf(PeerOf(n, side).prefix, PeerOf(n, side).issued)
    {
      assert TokenOk(n, n.tokens[i]);
      ConsecutiveIdsDistinct(PeerOf(n, side).prefix, n.tokens[i].serial, PeerOf(n, side).issued);
    }
  }

  /** At each post of the run the requests of that side are young. */
  ghost predicate AllYoung(n: Network, events: seq<Event>)
    requires AllEnabled(n, events)
    decreases |events|
  {
    events != [] ==>
      (events[0].Post? ==> Young(n, events[0].side)) && AllYoung(Step(n, events[0]), events[1..])
  }

  lemma {:induction false} AllYoungIsRoomy(n: Network, events: seq<Event>)
    requires Inv(n) && AllEnabled(n, events) && AllYoung(n, events)
    ensures Roomy(n, events)
    decreases |events|
  {
    hide Inv, Young, Room, Step, Enabled;
    if events != [] {
      if events[0].Post? {
        YoungRequestsLeaveRoom(n, events[0].side);
      }
      StepKeeps(n, events[0]);
      AllYoungIsRoomy(Step(n, events[0]), events[1..]);
    }
  }

  /** The promise: if fewer than MAX_SAFE_INTEGER requests are posted between a request and
      its answer, each request is settled at most once, and with its own result. */
  lemma YoungRunsAreFaithful(left: string, right: string, events: seq<Event>)
    requires AllEnabled(Initial(left, right), events) && AllYoung(Initial(left, right), events)
    ensures Faithful(Run(Initial(left, right), events))
  {
    AllYoungIsRoomy(Initial(left, right), events);
    SettledOnceWithOwnResult(left, right, events);
  }

  // ---------------------------------------------------------------- without room

  /** A message whose id another request, not yet answered, has taken over. */
  ghost predicate Crossed(n: Network, i: nat) {
    && i < |n.tokens|
    && n.tokens[i].id in PeerOf(n, n.tokens[i].owner).messages
    && PeerOf(n, n.tokens[i].owner).messages[n.tokens[i].id] != n.tokens[i].serial
    && (n.tokens[i].owner, PeerOf(n, n.tokens[i].owner).messages[n.tokens[i].id]) !in n.produced
    && (n.tokens[i].stage.AsReply? ==> !n.tokens[i].stage.outcome.NotSent?)
  }

  /** Once a message is crossed, its request only has to be answered for the wrong one to
      be settled. */
  lemma {:induction false} CrossedGoesWrong(n: Network, i: nat) returns (events: seq<Event>)
    requires Crossed(n, i)
    ensures AllEnabled(n, events) && NoPosts(events) && !Faithful(Run(n, events))
    decreases match n.tokens[i].stage case AsRequest => 2 case AsHandler => 1 case AsReply(_) => 0
  {
    var e := match n.tokens[i].stage
      case AsRequest => ReceiveRequest(i, Runs)
      case AsHandler => HandlerDone(i, Resolved(0))
      case AsReply(_) => ReceiveReply(i);
    var m := Step(n, e);
    if e.ReceiveReply? {
      events := [];
      assert m.settled[|m.settled| - 1].outcome == n.tokens[i].stage.outcome;
    } else {
      events := CrossedGoesWrong(m, i);
    }
    assert ([e] + events)[1..] == events;
    events := [e] + events;
  }

  predicate NoPosts(events: seq<Event>) {
    forall i :: 0 <= i < |events| ==> !events[i].Post?
  }

  lemma {:induction false} NoPostsIsRoomy(n: Network, events: seq<Event>)
    requires AllEnabled(n, events) && NoPosts(events)
    ensures Roomy(n, events)
    decreases |events|
  {
    if events != [] {
      NoPostsIsRoomy(Step(n, events[0]), events[1..]);
    }
  }

  lemma PostCrosses(n: Network, side: bool, i: nat)
    requires Inv(n) && i < |n.tokens| && n.tokens[i].owner == side
    requires n.tokens[i].id == IdOf(PeerOf(n, side).prefix, PeerOf(n, side).issued)
    ensures Crossed(PostStep(n, side, false), i)
  {
    assert TokenOk(n, n.tokens[i]);
  }

  /** The assumption is exact: a post is harmless, whatever is delivered and answered after
      it, if and only if it was made with room. */
  lemma RoomIsExact(n: Network, side: bool)
    requires Inv(n)
    ensures var m := PostStep(n, side, false);
            Room(n, side) <==>
            forall events :: AllEnabled(m, events) && NoPosts(events) ==> Faithful(Run(m, events))
  {
    hide Inv, PostStep, Crossed, AllEnabled, Run, Faithful;
    var m := PostStep(n, side, false);
    if Room(n, side) {
      PostKeeps(n, side, false);
      forall events | AllEnabled(m, events) && NoPosts(events) ensures Faithful(Run(m, events)) {
        NoPostsIsRoomy(m, events);
        RunKeeps(m, events);
        InvIsFaithful(Run(m, events));
      }
    } else {
      var i :| 0 <= i < |n.tokens| && n.tokens[i].owner == side
               && n.tokens[i].id == IdOf(PeerOf(n, side).prefix, PeerOf(n, side).issued);
      PostCrosses(n, side, i);
      var events := CrossedGoesWrong(m, i);
    }
  }

  /** Room does run out: the first request is still unanswered when the counter restarts. */
  lemma {:induction false} FillUp(n: Network, k: nat) returns (events: seq<Event>)
    requires Inv(n) && n.left.issued + k == MAX_SAFE_INTEGER
    requires n.left.issued > 0 ==> n.tokens != [] && !n.tokens[0].owner && n.tokens[0].serial == 0
    requires n.left.issued == 0 ==> n.tokens == []
    ensures AllEnabled(n, events) && Roomy(n, events) && !Room(Run(n, events), false)
    decreases k
  {
    if k == 0 {
      events := [];
      assert TokenOk(n, n.tokens[0]);
      Wraps(0);
    } else {
      YoungRequestsLeaveRoom(n, false);
      PostKeeps(n, false, false);
      var m := Step(n, Post(false, false));
      events := FillUp(m, k - 1);
      assert ([Post(false, false)] + events)[1..] == events;
      events := [Post(false, false)] + events;
    }
  }

  lemma RoomRunsOut(left: string, right: string) returns (events: seq<Event>)
    ensures AllEnabled(Initial(left, right), events) && Roomy(Initial(left, right), events)
    ensures !Room(Run(Initial(left, right), events), false)
  {
    events := FillUp(Initial(left, right), MAX_SAFE_INTEGER);
  }

  // ---------------------------------------------------------------- what happens to a request

  /** The ids written out: the counter starts at zero, and again after 2^53 - 1 ids. */
  lemma IdsAre(prefix: string, n: nat)
    ensures n < 9007199254740991 ==> IdOf(prefix, n) == prefix + Numeral(10, n)
    ensures IdOf(prefix, n + 9007199254740991) == IdOf(prefix, n)
    ensures IdOf(prefix, 0) == prefix + "0"
  {
    Wraps(n);
    DecimalText(0);
  }

  lemma RunOne(n: Network, e: Event, rest: seq<Event>)
    requires Enabled(n, e)
    ensures AllEnabled(n, [e] + rest) <==> AllEnabled(Step(n, e), rest)
    ensures AllEnabled(Step(n, e), rest) ==> Run(n, [e] + rest) == Run(Step(n, e), rest)
  {
    assert ([e] + rest)[1..] == rest;
  }

  lemma RunNothing(n: Network)
    ensures AllEnabled(n, []) && Run(n, []) == n
  {
  }

  /** The request posted last is settled by its own answer. */
  lemma AnswerSettles(n: Network, side: bool, outcome: Outcome)
    requires Inv(n) && Room(n, side) && !outcome.NotSent?
    ensures var i := |n.tokens|;
            var m := Answer(PostStep(n, side, false), i, outcome);
            ReplyStep(m, i).settled == n.settled + [Settlement(side, PeerOf(n, side).issued, outcome)]
  {
    var m := PostStep(n, side, false);
    PostKeeps(n, side, false);
    AnswerKeeps(m, |n.tokens|, outcome);
    ReplyKeeps(Answer(m, |n.tokens|, outcome), |n.tokens|);
  }

  /** A request that is posted with room, run and answered is settled with the handler's result. */
  lemma RequestIsServed(n: Network, side: bool, result: Outcome)
    requires Inv(n) && Room(n, side) && !result.NotSent?
    ensures var i := |n.tokens|;
            var events := [Post(side, false), ReceiveRequest(i, Runs), HandlerDone(i, result), ReceiveReply(i)];
            AllEnabled(n, events)
            && Run(n, events).settled == n.settled + [Settlement(side, PeerOf(n, side).issued, result)]
  {
    var i := |n.tokens|;
    AnswerSettles(n, side, result);
    var m := PostStep(n, side, false);
    var t := m.tokens[i];
    var m2 := Step(m, ReceiveRequest(i, Runs));
    var m3 := Step(m2, HandlerDone(i, result));
    assert m3.tokens == Answer(m, i, result).tokens;
    assert m3 == Answer(m, i, result);
    hide PostStep, Answer, ReplyStep, Run, AllEnabled, Inv, Room;
    RunOne(n, Post(side, false), [ReceiveRequest(i, Runs), HandlerDone(i, result), ReceiveReply(i)]);
    RunOne(m, ReceiveRequest(i, Runs), [HandlerDone(i, result), ReceiveReply(i)]);
    RunOne(m2, HandlerDone(i, result), [ReceiveReply(i)]);
    RunOne(m3, ReceiveReply(i), []);
    RunNothing(Step(m3, ReceiveReply(i)));
    assert [Post(side, false)] + [ReceiveRequest(i, Runs), HandlerDone(i, result), ReceiveReply(i)]
        == [Post(side, false), ReceiveRequest(i, Runs), HandlerDone(i, result), ReceiveReply(i)];
    assert [ReceiveRequest(i, Runs)] + [HandlerDone(i, result), ReceiveReply(i)]
        == [ReceiveRequest(i, Runs), HandlerDone(i, result), ReceiveReply(i)];
    assert [HandlerDone(i, result)] + [ReceiveReply(i)] == [HandlerDone(i, result), ReceiveReply(i)];
    assert [ReceiveReply(i)] + [] == [ReceiveReply(i)];
  }

  /** One for a command that is not there is rejected with the error the peer answers. */
  lemma UnknownCommandIsRejected(n: Network, side: bool, error: int)
    requires Inv(n) && Room(n, side)
    ensures var i := |n.tokens|;
            var events := [Post(side, false), ReceiveRequest(i, AnswersError(error)), ReceiveReply(i)];
            AllEnabled(n, events)
            && Run(n, events).settled == n.settled + [Settlement(side, PeerOf(n, side).issued, Rejected(error))]
  {
    var i := |n.tokens|;
    AnswerSettles(n, side, Rejected(error));
    var m := PostStep(n, side, false);
    var m2 := Step(m, ReceiveRequest(i, AnswersError(error)));
    assert m2 == Answer(m, i, Rejected(error)) && m2.tokens[i].stage.AsReply?;
    hide PostStep, Answer, ReplyStep, Run, AllEnabled, Inv, Room;
    RunOne(n, Post(side, false), [ReceiveRequest(i, AnswersError(error)), ReceiveReply(i)]);
    RunOne(m, ReceiveRequest(i, AnswersError(error)), [ReceiveReply(i)]);
    RunOne(m2, ReceiveReply(i), []);
    RunNothing(Step(m2, ReceiveReply(i)));
    assert [Post(side, false)] + [ReceiveRequest(i, AnswersError(error)), ReceiveReply(i)]
        == [Post(side, false), ReceiveRequest(i, AnswersError(error)), ReceiveReply(i)];
    assert [ReceiveRequest(i, AnswersError(error))] + [ReceiveReply(i)]
        == [ReceiveRequest(i, AnswersError(error)), ReceiveReply(i)];
    assert [ReceiveReply(i)] + [] == [ReceiveReply(i)];
  }

  /** An answer takes the callbacks filed under its id away, and touches no other's. */
  lemma AnswerUnfiles(n: Network, i: nat)
    requires i < |n.tokens| && n.tokens[i].stage.AsReply?
    ensures var t := n.tokens[i];
            var m := Step(n, ReceiveReply(i));
            && PeerOf(m, t.owner).messages == PeerOf(n, t.owner).messages - {t.id}
            && PeerOf(m, !t.owner) == PeerOf(n, !t.owner)
            && m.tokens == n.tokens[..i] + n.tokens[i + 1..]
            && (t.id !in PeerOf(n, t.owner).messages ==> m.settled == n.settled)
  {
  }

  /** A post files callbacks under the new id, and touches no others. */
  lemma PostFiles(n: Network, side: bool, throws: bool)
    ensures var p := PeerOf(n, side);
            var m := Step(n, Post(side, throws));
            && PeerOf(m, side) == Peer(p.prefix, p.issued + 1, p.messages[IdOf(p.prefix, p.issued) := p.issued])
            && PeerOf(m, !side) == PeerOf(n, !side) && m.produced == n.produced
  {
  }

  /** One whose posting throws is rejected at once and never travels; one whose handling throws
      is gone, unsettled. */
  lemma ThrowsEndIt(n: Network, side: bool)
    ensures var m := Step(n, Post(side, true));
            m.tokens == n.tokens && m.settled == n.settled + [Settlement(side, PeerOf(n, side).issued, NotSent)]
    ensures var m := Step(n, Post(side, false));
            m.settled == n.settled && |m.tokens| == |n.tokens| + 1
            && var i := |n.tokens|;
               Step(m, ReceiveRequest(i, Throws)).tokens == n.tokens
               && Step(m, ReceiveRequest(i, Throws)).settled == n.settled
  {
  }

  // ---------------------------------------------------------------- the class

  /** Messages a dispatcher hands to its transport. */
  datatype Message =
    | Request(id: string, requestType: string)
    | Response(id: string, value: int)
    | RequestError(id: string, error: int)

  /** What handling a message does besides settling: nothing more, start a handler that
      will answer under the request's id, post an answer at once, or throw. */
  datatype Handled = Done | Started(id: string) | Posted(message: Message) | Threw

  /** How a request meets the peer's commands. */
  datatype Command = Unknown | ReturnsPromise | ReturnsNoPromise

  /** One dispatcher object. Promises are numbered as they are created; the callbacks
      stored for a request are represented by its promise. */
  class MessageDispatcher {
    var messages: map<string, nat>
    var promises: nat
    var settled: seq<(nat, Outcome)>
    const ids: IdGenerator

    ghost predicate Valid()
      reads this, ids
    {
      ids.Valid() && ids.calls == promises
    }

    ghost function View(): Peer
      reads this
    {
      Peer(ids.prefix, promises, messages)
    }

    constructor (prefix: string)
      ensures Valid() && View() == Peer(prefix, 0, map[]) && settled == [] && fresh(ids)
    {
      ids := new IdGenerator(prefix);
      messages, promises, settled := map[], 0, [];
    }

    /** `postRequest`: if the transport throws, the new promise is rejected, but its
        callbacks stay filed. */
    method PostRequest(requestType: string, transportThrows: bool) returns (message: Message, promise: nat)
      requires Valid()
      modifies this, ids
      ensures Valid() && View() == Filed(old(View()))
      ensures promise == old(promises) && message == Request(IdOf(ids.prefix, promise), requestType)
      ensures messages == old(messages)[message.id := promise]
      ensures settled == old(settled) + (if transportThrows then [(promise, NotSent)] else [])
    {
      var id := ids.NextId();
      message := Request(id, requestType);
      promise := promises;
      promises := promises + 1;
      messages := messages[id := promise];
      if transportThrows {
        settled := settled + [(promise, NotSent)];
      }
    }

    method Settle(id: string, outcome: Outcome)
      modifies this`messages, this`settled
      ensures id in old(messages) ==>
                View() == Unfiled(old(View()), id) && settled == old(settled) + [(old(messages)[id], outcome)]
      ensures id !in old(messages) ==> View() == old(View()) && settled == old(settled)
      ensures messages == old(messages) - {id}
    {
      if id in messages {
        settled := settled + [(messages[id], outcome)];
        messages := messages - {id};
      }
    }

    /** `handleMessage`. */
    method HandleMessage(message: Message, command: Command, isWorker: bool, error: int) returns (r: Handled)
      requires Valid()
      modifies this`messages, this`settled
      ensures Valid()
      ensures message.Request? ==> View() == old(View()) && settled == old(settled)
      ensures !message.Request? ==> r == Done && messages == old(messages) - {message.id}
      ensures !message.Request? && message.id in old(messages) ==>
                && View() == Unfiled(old(View()), message.id)
                && settled == old(settled) + [(old(messages)[message.id],
                     if message.Response? then Resolved(message.value) else Rejected(message.error))]
      ensures !message.Request? && message.id !in old(messages) ==> View() == old(View()) && settled == old(settled)
      ensures message.Request? && command.ReturnsPromise? ==> r == Started(message.id)
      ensures message.Request? && command.Unknown? && isWorker ==> r == Posted(RequestError(message.id, error))
      ensures message.Request? && (command.ReturnsNoPromise? || (command.Unknown? && !isWorker)) ==> r == Threw
    {
      r := Done;
      match message
      case Response(id, value) => Settle(id, Resolved(value));
      case RequestError(id, e) => Settle(id, Rejected(e));
      case Request(id, _) =>
        match command {
          case ReturnsPromise => r := Started(id);
          case ReturnsNoPromise => r := Threw;
          case Unknown => r := if isWorker then Posted(RequestError(id, error)) else Threw;
        }
    }
  }
}
