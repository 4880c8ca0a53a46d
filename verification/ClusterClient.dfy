/** The cluster client itself: objects whose methods do, in place, what the events of the state machine
    say. Every state of every client is a state some run reaches. */
module ClusterClient {
  import opened Bytes
  import opened Sequences
  import opened Reduction
  import opened Decimal
  import opened Protocol
  import opened HashSlot
  import opened Coverage
  import opened RoutingTable
  import opened ClusterModel
  import opened ClusterProofs

  /** The commands of a request: one, or those of a transaction, all for the slot of the first. */
  type Commands = s: seq<Node> | |s| > 0 witness [Node(None, Null)]

  /** A user's callback, by what it does to the client: the requests it makes when it sees the response. */
  datatype NewRequest = NewRequest(commands: seq<Node>, callback: UserCallback)
  type UserCallback = Node -> seq<NewRequest>

  class ClusterRequest {
    const id: nat
    const requestDataArray: Commands
    const callback: UserCallback
    var state: Phase
    var redirectCount: nat
    var redirectAddress: Address
    ghost var hops: nat

    constructor (id: nat, commands: Commands, callback: UserCallback)
      ensures Value() == Request(id, CommandSlot(commands[0]), Unsent, 0, DEFAULT_ADDRESS, 0)
      ensures this.id == id && requestDataArray == commands
    {
      this.id, requestDataArray, this.callback := id, commands, callback;
      state, redirectCount, redirectAddress, hops := Unsent, 0, DEFAULT_ADDRESS, 0;
    }

    function Slot(): nat {
      CommandSlot(requestDataArray[0])
    }

    ghost function Value(): Request
      reads this
    {
      Request(id, Slot(), state, redirectCount, redirectAddress, hops)
    }
  }

  /** A callback given to a node's client, with the request it has captured. */
  datatype Callback =
    | QueryCallback
    | ResponseCallback(request: ClusterRequest)
    | AskingCallback(request: ClusterRequest)

  predicate Captures(c: Callback, r: ClusterRequest) {
    !c.QueryCallback? && c.request == r
  }

  function OwedBy(c: Callback): Owed {
    match c
    case QueryCallback => Query
    case ResponseCallback(r) => Response(r.id)
    case AskingCallback(r) => Asking(r.id)
  }

  function AllOwed(callbacks: seq<Callback>): (r: seq<Owed>)
    ensures |r| == |callbacks| && forall i :: 0 <= i < |r| ==> r[i] == OwedBy(callbacks[i])
  {
    seq(|callbacks|, i requires 0 <= i < |callbacks| => OwedBy(callbacks[i]))
  }

  lemma AllOwedOf(callbacks: seq<Callback>, c: Callback, i: nat)
    ensures AllOwed(callbacks + [c]) == AllOwed(callbacks) + [OwedBy(c)]
    ensures i < |callbacks| ==> AllOwed(WithoutIndex(callbacks, i)) == WithoutIndex(AllOwed(callbacks), i)
  {}

  ghost function Values(requests: seq<ClusterRequest>): (r: seq<Request>)
    reads requests
    ensures |r| == |requests| && forall i :: 0 <= i < |r| ==> r[i] == requests[i].Value()
  {
    seq(|requests|, i requires 0 <= i < |requests| reads requests => requests[i].Value())
  }

  lemma SubmitAppends(s: State, slot: nat)
    requires s.config != Crashed && slot < SLOTS
    ensures Next(s, Submit(slot)) ==
            Some(s.(requests := s.requests + [Request(s.nextId, slot, Unsent, 0, DEFAULT_ADDRESS, 0)],
              nextId := s.nextId + 1))
  {}

  predicate DistinctObjects(requests: seq<ClusterRequest>) {
    forall i, j :: 0 <= i < j < |requests| ==> requests[i] != requests[j]
  }

  /** Every request a callback has captured is still in the list. */
  ghost predicate CapturedAlive(callbacks: seq<Callback>, requests: seq<ClusterRequest>) {
    forall i :: 0 <= i < |callbacks| && !callbacks[i].QueryCallback? ==> callbacks[i].request in requests
  }

  lemma ValuesOf(requests: seq<ClusterRequest>, r: ClusterRequest)
    ensures Values(requests + [r]) == Values(requests) + [r.Value()]
  {
    hide Values, ClusterRequest.Value;
  }

  lemma CallbackAdded(callbacks: seq<Callback>, requests: seq<ClusterRequest>, c: Callback)
    requires CapturedAlive(callbacks, requests) && (!c.QueryCallback? ==> c.request in requests)
    ensures CapturedAlive(callbacks + [c], requests)
  {}

  lemma ValuesAre(requests: seq<ClusterRequest>, values: seq<Request>)
    requires |values| == |requests| && forall k :: 0 <= k < |requests| ==> requests[k].Value() == values[k]
    ensures Values(requests) == values
  {
    hide Values, ClusterRequest.Value;
  }

  lemma ValuesWithout(requests: seq<ClusterRequest>, i: nat)
    requires i < |requests|
    ensures Values(WithoutIndex(requests, i)) == WithoutIndex(Values(requests), i)
  {
    hide Values, ClusterRequest.Value;
  }

  lemma ListGrows(callbacks: seq<Callback>, requests: seq<ClusterRequest>, r: ClusterRequest)
    requires DistinctObjects(requests) && CapturedAlive(callbacks, requests) && r !in requests
    ensures DistinctObjects(requests + [r]) && CapturedAlive(callbacks, requests + [r])
  {}

  /** What the nodes' clients do while they update: run an owed callback, or drop it. */
  datatype Arrival = Reply(index: nat, response: Node) | Lost(index: nat)

  function Arrived(s: State, a: Arrival): State {
    var next := Next(s, match a case Reply(i, response) => Answer(i, response) case Lost(i) => Lose(i));
    if next.Some? then next.value else s
  }

  function AllArrived(s: State, arrivals: seq<Arrival>): State {
    if arrivals == [] then s else Arrived(AllArrived(s, arrivals[..|arrivals| - 1]), arrivals[|arrivals| - 1])
  }

  lemma ArrivedNone(s: State, arrivals: seq<Arrival>)
    ensures AllArrived(s, arrivals[..0]) == s && arrivals[..|arrivals|] == arrivals
  {}

  lemma ArrivedMore(s: State, arrivals: seq<Arrival>, i: nat)
    requires i < |arrivals|
    ensures AllArrived(s, arrivals[..i + 1]) == Arrived(AllArrived(s, arrivals[..i]), arrivals[i])
  {
    assert arrivals[..i + 1][..i] == arrivals[..i];
  }

  lemma ArrivedIs(s: State, a: Arrival)
    requires s.config != Crashed && s.cursor == None
    ensures match a
            case Reply(i, response) => Arrived(s, a) == if i < |s.owed| then Next(s, Answer(i, response)).value else s
            case Lost(i) => Arrived(s, a) == if i < |s.owed| then Next(s, Lose(i)).value else s
  {
    hide Answered;
  }

  lemma {:induction false} CrashedStays(s: State, arrivals: seq<Arrival>, i: nat)
    requires i <= |arrivals| && AllArrived(s, arrivals[..i]).config == Crashed
    ensures AllArrived(s, arrivals) == AllArrived(s, arrivals[..i])
    decreases |arrivals|
  {
    if i < |arrivals| {
      var front := arrivals[..|arrivals| - 1];
      assert front[..i] == arrivals[..i];
      CrashedStays(s, front, i);
    } else {
      assert arrivals[..i] == arrivals;
    }
  }

  /** How many requests are READY. */
  function ReadyCount(requests: seq<Request>): nat {
    if requests == [] then 0 else (if requests[0].phase.Ready? then 1 else 0) + ReadyCount(requests[1..])
  }

  lemma {:induction false} ReadyAppended(requests: seq<Request>, r: Request)
    ensures ReadyCount(requests + [r]) == ReadyCount(requests) + (if r.phase.Ready? then 1 else 0)
  {
    if requests != [] {
      assert (requests + [r])[1..] == requests[1..] + [r];
      ReadyAppended(requests[1..], r);
    }
  }

  lemma {:induction false} ReadyElsewhere(requests: seq<Request>, i: nat, r: Request)
    requires i < |requests|
    ensures ReadyCount(requests[i := r]) + (if requests[i].phase.Ready? then 1 else 0)
         == ReadyCount(requests) + (if r.phase.Ready? then 1 else 0)
    ensures ReadyCount(WithoutIndex(requests, i)) + (if requests[i].phase.Ready? then 1 else 0) == ReadyCount(requests)
  {
    if i == 0 {
      assert WithoutIndex(requests, i) == requests[1..] && requests[i := r][1..] == requests[1..];
    } else {
      assert requests[i := r][1..] == requests[1..][i - 1 := r];
      assert WithoutIndex(requests, i)[1..] == WithoutIndex(requests[1..], i - 1);
      ReadyElsewhere(requests[1..], i - 1, r);
    }
  }

  method NodeHandlesSlot(node: ClusterNode, slot: nat) returns (handles: bool)
    ensures handles <==> HandlesSlot(node, slot)
  {
    var i := 0;
    while i < |node.slotRanges|
      invariant 0 <= i <= |node.slotRanges|
      invariant forall k :: 0 <= k < i ==> !Contains(node.slotRanges[k], slot)
    {
      if node.slotRanges[i].minSlot <= slot <= node.slotRanges[i].maxSlot {
        assert Contains(node.slotRanges[i], slot);
        return true;
      }
      i := i + 1;
    }
    return false;
  }

  lemma RoutableIs(table: seq<ClusterNode>, slot: int)
    ensures Routable(table, slot) <==> IndexOfSlot(table, slot, 0) < |table|
  {}

  lemma KnowsAddressIs(table: seq<ClusterNode>, address: Address)
    ensures KnowsAddress(table, address) <==> IndexOfAddress(table, address, 0) < |table|
  {}

  // ----- a visit as a state change

  /** The visit of a pass to a request that stays in the list. */
  function VisitOf(r: Request, table: seq<ClusterNode>): Option<Visit> {
    match r.phase
    case Unsent => Some(VisitUnsent(r, table))
    case Pending => Some(Visit(r, None, false, false))
    case Ready(response) =>
      var kind := RedirectionOf(response);
      if kind == Neither then None else Some(VisitRedirected(r, table, kind, response.data.text))
  }

  lemma ReduceNextIs(s: State, i: nat)
    requires s.config == Stable && s.cursor == Some(i) && i < |s.requests|
    ensures match VisitOf(s.requests[i], s.table)
            case Some(v) => Next(s, ReduceNext) == Some(AfterVisit(s, i, v))
            case None =>
              && s.requests[i].phase.Ready?
              && Next(s, ReduceNext) ==
                 Some(s.(requests := WithoutIndex(s.requests, i),
                         delivered := s.delivered + [Delivery(s.requests[i].id, s.requests[i].phase.response)]))
  {
    hide VisitUnsent, VisitRedirected, RedirectionOf;
    if s.requests[i].phase.Ready? {
      RedirectionText(s.requests[i].phase.response);
    }
    assert s.requests[i := s.requests[i]] == s.requests && s.owed + [] == s.owed;
  }

  lemma BeginPassIs(s: State)
    requires s.config == Stable && s.cursor == None
    ensures Next(s, BeginPass) == Some(s.(cursor := Some(0)))
  {}

  lemma EndOfPassIs(s: State, i: nat)
    requires s.config != Crashed && s.cursor == Some(i) && i >= |s.requests|
    ensures Next(s, ReduceNext) == Some(s.(cursor := None))
  {}

  lemma VisitShape(r: Request, table: seq<ClusterNode>)
    ensures match VisitOf(r, table)
            case Some(v) => !v.request.phase.Ready? && (v.dirty <==> v.bail)
            case None => r.phase.Ready?
  {
    hide Routable, RedirectionOf, KnowsAddress, RedirectAddress;
  }

  /** The request that is about to be deleted is captured by no callback. */
  lemma DeletedIsFree(callbacks: seq<Callback>, requests: seq<ClusterRequest>, i: nat)
    requires i < |requests| && Free(AllOwed(callbacks), requests[i].id) && CapturedAlive(callbacks, requests)
    ensures CapturedAlive(callbacks, WithoutIndex(requests, i))
  {
    forall j | 0 <= j < |callbacks| && !callbacks[j].QueryCallback?
      ensures callbacks[j].request in WithoutIndex(requests, i)
    {
      assert Owner(AllOwed(callbacks)[j]) == Some(callbacks[j].request.id);
      var k :| 0 <= k < |requests| && requests[k] == callbacks[j].request;
      assert WithoutIndex(requests, i)[if k < i then k else k - 1] == callbacks[j].request;
    }
  }

  lemma CallbackRemoved(callbacks: seq<Callback>, requests: seq<ClusterRequest>, i: nat)
    requires i < |callbacks| && CapturedAlive(callbacks, requests)
    ensures CapturedAlive(WithoutIndex(callbacks, i), requests)
  {}

  lemma IndexIs(requests: seq<Request>, k: nat)
    requires DistinctIds(requests) && k < |requests|
    ensures IndexOfRequest(requests, requests[k].id) == k
  {}

  /** Where the request is that a callback has captured. */
  lemma CapturedAt(s: State, callbacks: seq<Callback>, requests: seq<ClusterRequest>, i: nat) returns (k: nat)
    requires DistinctIds(s.requests) && s.requests == Values(requests) && s.owed == AllOwed(callbacks)
    requires CapturedAlive(callbacks, requests) && i < |callbacks| && !callbacks[i].QueryCallback?
    ensures k < |requests| && requests[k] == callbacks[i].request
    ensures Owner(s.owed[i]) == Some(requests[k].id) && IndexOfRequest(s.requests, requests[k].id) == k
  {
    hide Values, DistinctIds, CommandSlot;
    k :| 0 <= k < |requests| && requests[k] == callbacks[i].request;
    assert s.requests[k].id == requests[k].id;
    IndexIs(s.requests, k);
  }

  lemma AnswerQueryIs(s: State, i: nat, reply: Node)
    requires s.config != Crashed && s.cursor == None && i < |s.owed| && s.owed[i] == Query
    ensures var table := ProcessReply(s.table, reply);
      var config :=
        if AllRanges(table) == [] then Crashed else if HasFullCoverage(AllRanges(table)) then Stable else Incomplete;
      Next(s, Answer(i, reply)) ==
      Some(s.(owed := WithoutIndex(s.owed, i), table := table, config := config,
              countdown := if config == Incomplete then RETRY_COUNTDOWN else s.countdown))
  {
    hide ProcessReply, AllRanges, HasFullCoverage;
  }

  lemma AnswerRequestIs(s: State, i: nat, k: nat, response: Node)
    requires s.config != Crashed && s.cursor == None && i < |s.owed| && k < |s.requests|
    requires Owner(s.owed[i]).Some? && IndexOfRequest(s.requests, Owner(s.owed[i]).value) == k
    ensures s.owed[i].Response? ==>
      Next(s, Answer(i, response)) ==
      Some(s.(owed := WithoutIndex(s.owed, i), requests := s.requests[k := s.requests[k].(phase := Ready(response))]))
    ensures s.owed[i].Asking? ==>
      var known := KnowsAddress(s.table, s.requests[k].redirect);
      Next(s, Answer(i, response)) ==
      Some(s.(owed := WithoutIndex(s.owed, i) + (if known then [Response(Owner(s.owed[i]).value)] else []),
              requests := s.requests[k := s.requests[k].(phase := if known then Pending else Unsent)]))
  {
    hide KnowsAddress, ConfigReplied;
    assert WithoutIndex(s.owed, i) + [] == WithoutIndex(s.owed, i);
  }

  lemma WithoutStaysDistinct(requests: seq<ClusterRequest>, i: nat)
    requires DistinctObjects(requests) && i < |requests|
    ensures DistinctObjects(WithoutIndex(requests, i))
    ensures forall r :: r in WithoutIndex(requests, i) ==> r in requests
  {}

  /** What every reachable state satisfies. */
  lemma Reachable(events: seq<Event>)
    requires Run(INITIAL, events).Some?
    ensures ConfigInv(Run(INITIAL, events).value) && RequestInv(Run(INITIAL, events).value)
  {
    hide Next;
    assert ConfigInv(INITIAL) && RequestInv(INITIAL);
    RunKeepsConfig(INITIAL, events);
    RunKeepsRequests(INITIAL, events);
  }

  /** What removing the stale nodes from position `i` on would leave. */
  function Sifted(table: seq<ClusterNode>, i: nat): seq<ClusterNode>
    requires i <= |table|
  {
    table[..i] + WithoutStale(table[i..])
  }

  lemma SiftedStep(table: seq<ClusterNode>, i: nat)
    requires i < |table|
    ensures if table[i].slotRanges == [] then Sifted(WithoutIndex(table, i), i) == Sifted(table, i)
            else Sifted(table, i + 1) == Sifted(table, i)
  {
    var rest := table[i + 1..];
    assert table[i..][1..] == rest && table[i..][0] == table[i];
    if table[i].slotRanges == [] {
      assert WithoutIndex(table, i)[..i] == table[..i] && WithoutIndex(table, i)[i..] == rest;
    } else {
      assert table[..i + 1] == table[..i] + [table[i]];
    }
  }

  lemma SiftedEnds(table: seq<ClusterNode>)
    ensures Sifted(table, 0) == WithoutStale(table) && Sifted(table, |table|) == table
  {
    assert table[0..] == table;
  }

  lemma {:induction false} NothingKept(table: seq<ClusterNode>)
    requires forall k :: 0 <= k < |table| ==> table[k].slotRanges == []
    ensures WithoutStale(table) == []
  {
    if table != [] {
      NothingKept(table[1..]);
    }
  }

  lemma EverythingIsStale(table: seq<ClusterNode>, before: seq<ClusterNode>)
    requires table == ClearRanges(before)
    ensures WithoutStale(table) == []
  {
    NothingKept(table);
  }

  /** Commands, at least one, that all belong to one slot. */
  predicate IsTransaction(commands: seq<Node>) {
    commands != [] && forall i :: 0 <= i < |commands| ==> CommandSlot(commands[i]) == CommandSlot(commands[0])
  }

  /** The events of making these requests; those that are no transaction are not taken. */
  function Submits(asked: seq<NewRequest>): seq<Event> {
    if asked == [] then []
    else
      var last := asked[|asked| - 1];
      Submits(asked[..|asked| - 1]) +
      (if IsTransaction(last.commands) then [Submit(CommandSlot(last.commands[0]))] else [])
  }

  lemma TransactionIsNotEmpty()
    ensures !IsTransaction([])
  {}

  lemma SubmitsOne(commands: seq<Node>)
    requires |commands| == 1
    ensures IsTransaction(commands)
  {}

  lemma NoSubmits(asked: seq<NewRequest>)
    ensures Submits(asked[..0]) == [] && asked[..|asked|] == asked
  {}

  lemma SubmitsMore(asked: seq<NewRequest>, i: nat)
    requires i < |asked|
    ensures Submits(asked[..i + 1]) ==
            Submits(asked[..i])
            + (if IsTransaction(asked[i].commands) then [Submit(CommandSlot(asked[i].commands[0]))] else [])
  {
    assert asked[..i + 1][..i] == asked[..i];
  }

  method ShareSlot(commands: Commands) returns (same: bool)
    ensures same <==> IsTransaction(commands)
  {
    hide CommandSlot;
    var hashSlot := CalcCommandHashSlot(commands[0]);
    var i := 1;
    while i < |commands|
      invariant 1 <= i <= |commands|
      invariant forall k :: 0 <= k < i ==> CommandSlot(commands[k]) == hashSlot
    {
      var slot := CalcCommandHashSlot(commands[i]);
      if slot != hashSlot {
        return false;
      }
      i := i + 1;
    }
    return true;
  }

  class ClusterClient {
    const address: Address
    var state: ConfigState
    var retryClusterConfigCountdown: nat
    var clusterNodeList: seq<ClusterNode>
    var requestList: seq<ClusterRequest>
    var callbacks: seq<Callback> // held by the nodes' clients
    var nextId: nat
    ghost var cursor: Option<nat>
    ghost var delivered: seq<Delivery>
    ghost var history: seq<Event>

    ghost function Abs(): State
      reads this, requestList
    {
      State(state, retryClusterConfigCountdown, clusterNodeList, Values(requestList), AllOwed(callbacks),
            cursor, delivered, nextId)
    }

    ghost predicate Valid()
      reads this, requestList
    {
      && DistinctObjects(requestList)
      && CapturedAlive(callbacks, requestList)
      && Run(INITIAL, history) == Some(Abs())
    }

    constructor (address: Address)
      ensures Valid() && Abs() == INITIAL && this.address == address
    {
      this.address := address;
      state, retryClusterConfigCountdown := Dirty, 0;
      clusterNodeList, requestList, callbacks, nextId := [], [], [], 0;
      cursor, delivered, history := None, [], [];
    }

    // ----- looking up nodes

    method FindClusterNodeForSlot(slot: nat) returns (k: nat)
      ensures k == IndexOfSlot(clusterNodeList, slot, 0)
    {
      hide HandlesSlot;
      k := 0;
      while k < |clusterNodeList|
        invariant 0 <= k <= |clusterNodeList|
        invariant IndexOfSlot(clusterNodeList, slot, k) == IndexOfSlot(clusterNodeList, slot, 0)
      {
        var handles := NodeHandlesSlot(clusterNodeList[k], slot);
        if handles {
          return;
        }
        k := k + 1;
      }
    }

    method FindClusterNodeForAddress(address: Address) returns (k: nat)
      ensures k == IndexOfAddress(clusterNodeList, address, 0)
    {
      k := 0;
      while k < |clusterNodeList|
        invariant 0 <= k <= |clusterNodeList|
        invariant IndexOfAddress(clusterNodeList, address, k) == IndexOfAddress(clusterNodeList, address, 0)
      {
        if clusterNodeList[k].address == address {
          return;
        }
        k := k + 1;
      }
    }

    // ----- making requests

    method AddRequest(commands: Commands, callback: UserCallback)
      requires Valid() && state != Crashed
      modifies this`requestList, this`nextId, this`history
      ensures Valid()
      ensures |requestList| == |old(requestList)| + 1 && requestList[..|old(requestList)|] == old(requestList)
      ensures fresh(requestList[|old(requestList)|]) && requestList[|old(requestList)|].state == Unsent
      ensures requestList[|old(requestList)|].requestDataArray == commands
      ensures history == old(history) + [Submit(CommandSlot(commands[0]))]
      ensures Some(Abs()) == Next(old(Abs()), Submit(CommandSlot(commands[0])))
    {
      hide Run, Next, CommandSlot, INITIAL, AllOwed, Values, DistinctObjects, CapturedAlive;
      ghost var before, requests, slot := Abs(), requestList, CommandSlot(commands[0]);
      ghost var values := Values(requests);
      RunExtended(INITIAL, history, Submit(slot));
      SubmitAppends(before, slot);
      var request := new ClusterRequest(nextId, commands, callback);
      requestList := requestList + [request];
      nextId := nextId + 1;
      history := history + [Submit(slot)];
      ListGrows(callbacks, requests, request);
      assert Values(requests) == values;
      ValuesOf(requests, request);
    }

    method MakeRequestAsync(requestData: Node, callback: UserCallback)
      requires Valid() && state != Crashed
      modifies this`requestList, this`nextId, this`history
      ensures Valid()
      ensures |requestList| == |old(requestList)| + 1 && requestList[..|old(requestList)|] == old(requestList)
      ensures fresh(requestList[|old(requestList)|]) && requestList[|old(requestList)|].state == Unsent
      ensures requestList[|old(requestList)|].requestDataArray == [requestData]
      ensures history == old(history) + [Submit(CommandSlot(requestData))]
      ensures Some(Abs()) == Next(old(Abs()), Submit(CommandSlot(requestData)))
    {
      AddRequest([requestData], callback);
    }

    /** A transaction is taken if it is not empty and all its commands belong to one slot. */
    method MakeTransactionRequestAsync(commands: seq<Node>, callback: UserCallback) returns (ok: bool)
      requires Valid() && state != Crashed
      modifies this`requestList, this`nextId, this`history
      ensures Valid()
      ensures ok <==> IsTransaction(commands)
      ensures !ok ==> Abs() == old(Abs()) && requestList == old(requestList) && history == old(history)
      ensures ok ==> |requestList| == |old(requestList)| + 1 && requestList[..|old(requestList)|] == old(requestList)
      ensures ok ==> requestList[|old(requestList)|].requestDataArray == commands
      ensures ok ==> fresh(requestList[|old(requestList)|]) && requestList[|old(requestList)|].state == Unsent
      ensures ok ==> history == old(history) + [Submit(CommandSlot(commands[0]))]
      ensures ok ==> Some(Abs()) == Next(old(Abs()), Submit(CommandSlot(commands[0])))
    {
      hide *;
      TransactionIsNotEmpty();
      if |commands| == 0 {
        return false;
      }
      if |commands| == 1 {
        SubmitsOne(commands);
        MakeRequestAsync(commands[0], callback);
        return true;
      }
      var same := ShareSlot(commands);
      if !same {
        return false;
      }
      AddRequest(commands, callback);
      return true;
    }

    // ----- one request

    method SignalClusterConfigDirty()
      modifies this`state
      ensures state == MarkDirty(old(state))
    {
      if state == Stable {
        state := Dirty;
      }
    }

    /** Sends an UNSENT request to the node that handles its slot. */
    method Send(request: ClusterRequest) returns (result: ReductionResult)
      requires request.state == Unsent
      modifies this`state, this`callbacks, request`state, request`hops
      ensures Did(VisitUnsent(old(request.Value()), clusterNodeList), request, old(state), old(callbacks), result)
    {
      hide Routable, CommandSlot, MarkDirty;
      var slot := CalcCommandHashSlot(request.requestDataArray[0]);
      var k := FindClusterNodeForSlot(slot);
      RoutableIs(clusterNodeList, slot);
      if k == |clusterNodeList| {
        SignalClusterConfigDirty();
        return RESULT_BAIL;
      }
      callbacks := callbacks + [ResponseCallback(request)];
      request.state, request.hops := Pending, 0;
      return RESULT_NONE;
    }

    /** The client and the request are as the visit says, starting from this state and these callbacks. */
    ghost predicate Did(v: Visit, request: ClusterRequest, state: ConfigState, callbacks: seq<Callback>,
                        result: ReductionResult)
      reads this, request
    {
      && request.Value() == v.request
      && this.state == (if v.dirty then MarkDirty(state) else state)
      && result == (if v.bail then RESULT_BAIL else RESULT_NONE)
      && (match v.owed
          case None => this.callbacks == callbacks
          case Some(o) =>
            |this.callbacks| == |callbacks| + 1 && this.callbacks[..|callbacks|] == callbacks
            && Captures(this.callbacks[|callbacks|], request) && OwedBy(this.callbacks[|callbacks|]) == o)
    }

    method ParseRedirectAddressAndPort(request: ClusterRequest, errorMessage: seq<byte>)
      modifies request`redirectAddress
      ensures request.redirectAddress == RedirectAddress(errorMessage, old(request.redirectAddress))
    {
      hide Tokens, CString;
      var tokens := Tokens(CString(errorMessage));
      var i := 0;
      while i < |tokens|
        invariant 0 <= i <= |tokens|
        invariant request.redirectAddress == RedirectedBy(tokens[..i], old(request.redirectAddress))
      {
        assert tokens[..i + 1][..i] == tokens[..i];
        if i == 2 {
          request.redirectAddress := request.redirectAddress.(ip := tokens[i]);
        } else if i == 3 {
          request.redirectAddress := request.redirectAddress.(port := ToUint16(Strtol(tokens[i]).value));
        }
        i := i + 1;
      }
      assert tokens[..|tokens|] == tokens;
    }

    /** Deals with a simple error, if it is a redirection. */
    method HandleError(request: ClusterRequest, error: Node) returns (handled: bool, result: ReductionResult)
      requires error.data.Text? && error.data.textKind == SimpleError
      modifies this`state, this`callbacks
      modifies request`state, request`hops, request`redirectCount, request`redirectAddress
      ensures handled <==> RedirectionOf(error) != Neither
      ensures !handled ==> state == old(state) && callbacks == old(callbacks) && request.Value() == old(request.Value())
      ensures handled ==>
        Did(VisitRedirected(old(request.Value()), clusterNodeList, RedirectionOf(error), error.data.text),
            request, old(state), old(callbacks), result)
    {
      hide KnowsAddress, RedirectAddress, ErrorCode, CommandSlot, MarkDirty;
      result := RESULT_NONE;
      var errorCode := ErrorCode(error.data.text);
      if errorCode == ASK {
        request.redirectCount := request.redirectCount + 1;
        if request.redirectCount == 2 {
          request.state, request.redirectCount := Unsent, 0;
          return true, result;
        }
        ParseRedirectAddressAndPort(request, error.data.text);
        var k := FindClusterNodeForAddress(request.redirectAddress);
        KnowsAddressIs(clusterNodeList, request.redirectAddress);
        if k == |clusterNodeList| {
          request.state := Unsent;
          return true, result;
        }
        callbacks := callbacks + [AskingCallback(request)];
        request.state, request.hops := Pending, request.hops + 1;
        return true, result;
      } else if errorCode == MOVED {
        SignalClusterConfigDirty();
        result := RESULT_BAIL;
        request.redirectCount := request.redirectCount + 1;
        if request.redirectCount == 2 {
          request.state, request.redirectCount := Unsent, 0;
          return true, result;
        }
        ParseRedirectAddressAndPort(request, error.data.text);
        var k := FindClusterNodeForAddress(request.redirectAddress);
        KnowsAddressIs(clusterNodeList, request.redirectAddress);
        if k == |clusterNodeList| {
          request.state := Unsent;
        } else {
          callbacks := callbacks + [ResponseCallback(request)];
          request.state, request.hops := Pending, request.hops + 1;
        }
        return true, result;
      }
      return false, result;
    }

    /** A user's callback makes its requests. */
    method RunUserCallback(asked: seq<NewRequest>)
      requires Valid() && state != Crashed
      modifies this`requestList, this`nextId, this`history
      ensures Valid()
      ensures |old(requestList)| <= |requestList| && requestList[..|old(requestList)|] == old(requestList)
      ensures forall k :: |old(requestList)| <= k < |requestList| ==>
        fresh(requestList[k]) && requestList[k].state == Unsent
      ensures history == old(history) + Submits(asked)
      ensures ReadyCount(Abs().requests) == ReadyCount(old(Abs().requests))
    {
      hide Run, Next, INITIAL, AllOwed, Values, DistinctObjects, CapturedAlive, CommandSlot, ReadyCount, Submits,
           IsTransaction;
      NoSubmits(asked);
      var i := 0;
      while i < |asked|
        invariant Valid() && state != Crashed
        invariant |old(requestList)| <= |requestList| && requestList[..|old(requestList)|] == old(requestList)
        invariant forall k :: |old(requestList)| <= k < |requestList| ==>
          fresh(requestList[k]) && requestList[k].state == Unsent
        invariant 0 <= i <= |asked| && history == old(history) + Submits(asked[..i])
        invariant ReadyCount(Abs().requests) == ReadyCount(old(Abs().requests))
      {
        ghost var was, before := requestList, Abs();
        var ok := MakeTransactionRequestAsync(asked[i].commands, asked[i].callback);
        assert forall k :: 0 <= k < |was| ==> requestList[k] == was[k];
        if ok {
          SubmitAppends(before, CommandSlot(asked[i].commands[0]));
          ReadyAppended(before.requests, Abs().requests[|was|]);
        }
        SubmitsMore(asked, i);
        i := i + 1;
      }
    }

    // ----- a pass over the requests

    /** Records that a visit has happened. */
    ghost method Finish(i: nat, request: ClusterRequest, v: Visit, before: State, held: seq<Callback>,
                        result: ReductionResult)
      requires DistinctObjects(requestList) && CapturedAlive(held, requestList)
      requires i < |requestList| && requestList[i] == request && i < |before.requests|
      requires Run(INITIAL, history) == Some(before)
      requires Next(before, ReduceNext) == Some(AfterVisit(before, i, v))
      requires before == State(before.config, retryClusterConfigCountdown, clusterNodeList, before.requests,
                               AllOwed(held), cursor, delivered, nextId)
      requires Values(requestList) == before.requests[i := request.Value()]
      requires Did(v, request, before.config, held, result)
      modifies this`cursor, this`history
      ensures Valid()
      ensures history == old(history) + [ReduceNext] && Some(Abs()) == Next(before, ReduceNext)
    {
      hide Run, Next, INITIAL, AllOwed, Values, DistinctObjects, CapturedAlive, MarkDirty, ClusterRequest.Value;
      RunExtended(INITIAL, history, ReduceNext);
      if v.owed.Some? {
        var c := callbacks[|held|];
        assert callbacks == held + [c];
        AllOwedOf(held, c, 0);
        CallbackAdded(held, requestList, c);
      } else {
        assert before.owed + [] == before.owed;
      }
      cursor := if v.bail then None else Some(i + 1);
      history := history + [ReduceNext];
    }

    /** What a visit does before the user's callback, if that is to run at all. */
    method ReduceState(request: ClusterRequest) returns (result: ReductionResult)
      modifies this`state, this`callbacks
      modifies request`state, request`hops, request`redirectCount, request`redirectAddress
      ensures match VisitOf(old(request.Value()), clusterNodeList)
              case Some(v) => result != RESULT_DELETE && Did(v, request, old(state), old(callbacks), result)
              case None =>
                && result == RESULT_DELETE && request.state.Ready? && request.Value() == old(request.Value())
                && state == old(state) && callbacks == old(callbacks)
    {
      hide VisitUnsent, VisitRedirected, RedirectionOf, CommandSlot, MarkDirty;
      match request.state
      case Unsent =>
        result := Send(request);
      case Pending =>
        result := RESULT_NONE;
      case Ready(responseData) =>
        RedirectionText(responseData);
        var handled := false;
        result := RESULT_NONE;
        if responseData.data.Text? && responseData.data.textKind == SimpleError {
          handled, result := HandleError(request, responseData);
        }
        if !handled {
          result := RESULT_DELETE;
        }
    }

    /** One visit of a pass. The user's callback may make requests; they join the end of the list. A
        request that is not to be deleted has been visited completely. */
    method Reduce(ghost i: nat, request: ClusterRequest) returns (result: ReductionResult)
      requires Valid() && state == Stable && cursor == Some(i) && i < |requestList| && requestList[i] == request
      modifies this, request
      ensures Valid()
      ensures clusterNodeList == old(clusterNodeList)
      ensures old(history) <= history
      ensures result != RESULT_DELETE ==>
        && history == old(history) + [ReduceNext] && requestList == old(requestList)
        && Some(Abs()) == Next(old(Abs()), ReduceNext)
      ensures result == RESULT_BAIL ==> cursor == None && state != Crashed && state != Stable
      ensures result == RESULT_NONE ==> !request.state.Ready?
      ensures result == RESULT_NONE ==>
        state == Stable && cursor == Some(i + 1) && ReadyCount(Abs().requests) <= ReadyCount(old(Abs().requests))
      ensures result == RESULT_DELETE ==> request.state.Ready?
      ensures result == RESULT_DELETE ==> history == old(history) + Submits(request.callback(request.state.response))
      ensures result == RESULT_DELETE ==>
        && state == Stable && cursor == Some(i) && |old(requestList)| <= |requestList|
        && requestList[..|old(requestList)|] == old(requestList)
        && (forall k :: |old(requestList)| <= k < |requestList| ==> fresh(requestList[k]))
        && unchanged(request) && VisitOf(request.Value(), clusterNodeList) == None
        && ReadyCount(Abs().requests) == ReadyCount(old(Abs().requests))
    {
      hide Run, Next, INITIAL, AllOwed, Values, CapturedAlive, VisitOf, CommandSlot, MarkDirty, ReadyCount;
      ghost var before, held := Abs(), callbacks;
      ReduceNextIs(before, i);
      result := ReduceState(request);
      if result == RESULT_DELETE {
        RunUserCallback(request.callback(request.state.response));
      } else {
        assert forall k :: 0 <= k < |requestList| && k != i ==> requestList[k] != request;
        ValuesAre(requestList, before.requests[i := request.Value()]);
        ghost var v := VisitOf(before.requests[i], before.table).value;
        Finish(i, request, v, before, held, result);
        VisitShape(before.requests[i], before.table);
        ReadyElsewhere(before.requests, i, v.request);
      }
    }

    /** Removes the request whose callback has just run. */
    method DeleteRequest(i: nat)
      requires Valid() && state == Stable && cursor == Some(i) && i < |requestList|
      requires VisitOf(requestList[i].Value(), clusterNodeList) == None
      modifies this`requestList, this`delivered, this`history
      ensures Valid()
      ensures requestList == WithoutIndex(old(requestList), i)
      ensures history == old(history) + [ReduceNext] && Some(Abs()) == Next(old(Abs()), ReduceNext)
      ensures ReadyCount(Abs().requests) < ReadyCount(old(Abs().requests))
    {
      hide Run, Next, INITIAL, AllOwed, Values, DistinctObjects, CapturedAlive, VisitOf, CommandSlot, ReadyCount,
           WithoutIndex, OwedInv, DistinctIds, DeliveredInv, ConfigInv, Free;
      ghost var before := Abs();
      RunExtended(INITIAL, history, ReduceNext);
      ReduceNextIs(before, i);
      Reachable(history);
      UnlessPendingFree(before.requests, before.owed, i);
      DeletedIsFree(callbacks, requestList, i);
      WithoutStaysDistinct(requestList, i);
      ValuesWithout(requestList, i);
      ReadyElsewhere(before.requests, i, before.requests[i]);
      VisitShape(before.requests[i], before.table);
      delivered := delivered + [Delivery(before.requests[i].id, before.requests[i].phase.response)];
      requestList := WithoutIndex(requestList, i);
      history := history + [ReduceNext];
    }

    lemma ObjectsApart(i: nat)
      requires Valid() && i < |requestList|
      ensures forall k :: 0 <= k < i ==> requestList[k] != requestList[i]
    {
      hide Run, Next, INITIAL, Values, AllOwed;
    }

    /** One turn of the pass: a visit, and the removal it may ask for. */
    method ReduceNode(i: nat) returns (result: ReductionResult)
      requires Valid() && state == Stable && cursor == Some(i) && i < |requestList|
      modifies this, requestList[i]
      ensures Valid() && clusterNodeList == old(clusterNodeList) && old(history) <= history
      ensures forall k :: 0 <= k < |requestList| ==> requestList[k] in old(requestList) || fresh(requestList[k])
      ensures |requestList| >= i
      ensures forall k :: 0 <= k < i ==>
        requestList[k] == old(requestList)[k] && requestList[k].state == old(requestList[k].state)
      ensures match result
              case RESULT_BAIL => cursor == None && state != Crashed && state != Stable
              case RESULT_DELETE =>
                state == Stable && cursor == Some(i) && ReadyCount(Abs().requests) < ReadyCount(old(Abs().requests))
              case RESULT_NONE =>
                && state == Stable && cursor == Some(i + 1)
                && requestList == old(requestList) && !requestList[i].state.Ready?
                && ReadyCount(Abs().requests) <= ReadyCount(old(Abs().requests))
    {
      hide *;
      ObjectsApart(i);
      result := Reduce(i, requestList[i]);
      if result == RESULT_DELETE {
        ghost var grown := requestList;
        assert forall k :: 0 <= k < |old(requestList)| ==> grown[k] == old(requestList)[k];
        DeleteRequest(i);
        WithoutHas(grown, i);
      }
    }

    ghost method BeginThePass()
      requires Valid() && state == Stable && cursor == None
      modifies this`cursor, this`history
      ensures Valid() && cursor == Some(0) && history == old(history) + [BeginPass]
    {
      hide Run, Next, INITIAL, AllOwed, Values, CapturedAlive, DistinctObjects;
      RunExtended(INITIAL, history, BeginPass);
      BeginPassIs(Abs());
      cursor, history := Some(0), history + [BeginPass];
    }

    ghost method EndThePass(i: nat)
      requires Valid() && state != Crashed && cursor == Some(i) && i == |requestList|
      modifies this`cursor, this`history
      ensures Valid() && cursor == None && history == old(history) + [ReduceNext]
    {
      hide Run, Next, INITIAL, AllOwed, Values, CapturedAlive, DistinctObjects;
      RunExtended(INITIAL, history, ReduceNext);
      EndOfPassIs(Abs(), i);
      cursor, history := None, history + [ReduceNext];
    }

    /** A pass that no MOVED error has ended leaves no request READY. It ends although callbacks make
        new requests. */
    method ReduceRequestList()
      requires Valid() && state == Stable && cursor == None
      modifies this, requestList
      ensures Valid() && cursor == None && state != Crashed && clusterNodeList == old(clusterNodeList)
      ensures old(history) + [BeginPass] <= history
      ensures state == Stable ==> forall k :: 0 <= k < |requestList| ==> !requestList[k].state.Ready?
      ensures forall k :: 0 <= k < |requestList| ==> requestList[k] in old(requestList) || fresh(requestList[k])
    {
      hide *;
      BeginThePass();
      var i, done := 0, false;
      while !done && i < |requestList|
        invariant Valid() && cursor == (if done then None else Some(i))
        invariant state != Crashed && (!done ==> state == Stable && i <= |requestList|)
        invariant done ==> state != Stable
        invariant !done ==> forall k :: 0 <= k < i ==> !requestList[k].state.Ready?
        invariant clusterNodeList == old(clusterNodeList) && old(history) + [BeginPass] <= history
        invariant forall k :: 0 <= k < |requestList| ==> requestList[k] in old(requestList) || fresh(requestList[k])
        decreases !done, ReadyCount(Abs().requests), |requestList| - i
      {
        assert requestList[i] in old(requestList) || fresh(requestList[i]);
        var result := ReduceNode(i);
        match result {
          case RESULT_BAIL => done := true;
          case RESULT_DELETE =>
          case RESULT_NONE => i := i + 1;
        }
      }
      if !done {
        EndThePass(i);
      }
    }

    // ----- the configuration

    method ClearSlotRanges()
      modifies this`clusterNodeList
      ensures clusterNodeList == ClearRanges(old(clusterNodeList))
    {
      var i := 0;
      while i < |clusterNodeList|
        invariant 0 <= i <= |clusterNodeList| == |old(clusterNodeList)|
        invariant forall k :: 0 <= k < |clusterNodeList| ==>
          clusterNodeList[k] ==
          if k < i then ClusterNode(old(clusterNodeList)[k].address, []) else old(clusterNodeList)[k]
      {
        clusterNodeList := clusterNodeList[i := clusterNodeList[i].(slotRanges := [])];
        i := i + 1;
      }
    }

    method AssignRange(a: Assignment)
      modifies this`clusterNodeList
      ensures clusterNodeList == AddAssignment(old(clusterNodeList), a)
    {
      var k := FindClusterNodeForAddress(a.address);
      ghost var added := ClusterNode(a.address, [a.range]);
      assert (clusterNodeList + [ClusterNode(a.address, [])])[|clusterNodeList| := added] == clusterNodeList + [added];
      assert [] + [a.range] == [a.range];
      if k == |clusterNodeList| {
        clusterNodeList := clusterNodeList + [ClusterNode(a.address, [])];
      }
      clusterNodeList :=
        clusterNodeList[k := clusterNodeList[k].(slotRanges := clusterNodeList[k].slotRanges + [a.range])];
    }

    method RemoveStaleNodes()
      modifies this`clusterNodeList
      ensures clusterNodeList == WithoutStale(old(clusterNodeList))
    {
      hide WithoutStale, WithoutIndex, Sifted;
      SiftedEnds(clusterNodeList);
      var i := 0;
      while i < |clusterNodeList|
        invariant 0 <= i <= |clusterNodeList|
        invariant Sifted(clusterNodeList, i) == WithoutStale(old(clusterNodeList))
        decreases |clusterNodeList| - i
      {
        SiftedStep(clusterNodeList, i);
        if |clusterNodeList[i].slotRanges| == 0 {
          clusterNodeList := WithoutIndex(clusterNodeList, i);
        } else {
          i := i + 1;
        }
      }
      SiftedEnds(clusterNodeList);
    }

    method ProcessClusterConfig(reply: Node)
      modifies this`clusterNodeList
      ensures clusterNodeList == ProcessReply(old(clusterNodeList), reply)
    {
      hide AddAssignment, ReadAssignment, WithoutStale, ClearRanges;
      if reply.data.Aggregate? && reply.data.arrayKind == Array {
        var infos := reply.data.elements;
        ClearSlotRanges();
        var i := 0;
        while i < |infos|
          invariant 0 <= i <= |infos|
          invariant AddAssignments(clusterNodeList, infos[i..]) ==
            AddAssignments(ClearRanges(old(clusterNodeList)), infos)
        {
          assert infos[i..][1..] == infos[i + 1..];
          var a := ReadAssignment(infos[i]);
          if a.Some? {
            AssignRange(a.value);
          }
          i := i + 1;
        }
        RemoveStaleNodes();
      } else if reply.data.NullAggregate? && reply.data.nullArrayKind == Array {
        ClearSlotRanges();
        EverythingIsStale(clusterNodeList, old(clusterNodeList));
        RemoveStaleNodes();
      }
    }

    method CollectRanges() returns (ranges: seq<SlotRange>)
      ensures ranges == AllRanges(clusterNodeList)
    {
      ranges := [];
      var i := 0;
      while i < |clusterNodeList|
        invariant 0 <= i <= |clusterNodeList|
        invariant ranges + AllRanges(clusterNodeList[i..]) == AllRanges(clusterNodeList)
      {
        assert clusterNodeList[i..][1..] == clusterNodeList[i + 1..];
        ranges := ranges + clusterNodeList[i].slotRanges;
        i := i + 1;
      }
    }

    /** The callback of CLUSTER SLOTS. With no range at all the coverage check reads a missing head. */
    method QueryAnswered(reply: Node)
      modifies this`clusterNodeList, this`state, this`retryClusterConfigCountdown
      ensures clusterNodeList == ProcessReply(old(clusterNodeList), reply)
      ensures state == (if AllRanges(clusterNodeList) == [] then Crashed
                        else if HasFullCoverage(AllRanges(clusterNodeList)) then Stable else Incomplete)
      ensures state == Crashed <==> NamesNoRange(reply, old(clusterNodeList))
      ensures retryClusterConfigCountdown ==
        (if state == Incomplete then RETRY_COUNTDOWN else old(retryClusterConfigCountdown))
    {
      hide ProcessReply, AllRanges, HasFullCoverage, NamesNoRange;
      NoRangesExactlyWhen(clusterNodeList, reply);
      ProcessClusterConfig(reply);
      var ranges := CollectRanges();
      if |ranges| == 0 {
        state := Crashed;
        return;
      }
      var full := ClusterConfigHasFullSlotCoverage(ranges);
      if full {
        state := Stable;
      } else {
        state, retryClusterConfigCountdown := Incomplete, RETRY_COUNTDOWN;
      }
    }

    method RunQueryCallback(index: nat, response: Node)
      requires Valid() && cursor == None && state != Crashed && index < |callbacks|
      requires callbacks[index].QueryCallback?
      modifies this`clusterNodeList, this`state, this`retryClusterConfigCountdown, this`callbacks, this`history
      ensures Valid() && requestList == old(requestList)
      ensures history == old(history) + [Answer(index, response)]
      ensures Some(Abs()) == Next(old(Abs()), Answer(index, response))
    {
      hide Run, Next, INITIAL, AllOwed, Values, CapturedAlive, CommandSlot, KnowsAddress, RETRY_COUNTDOWN, OwedInv,
           DeliveredInv, ConfigInv, ProcessReply, AllRanges, HasFullCoverage, WithoutIndex, Asked;
      ghost var before := Abs();
      RunExtended(INITIAL, history, Answer(index, response));
      AllOwedOf(callbacks, QueryCallback, index);
      AnswerQueryIs(before, index, response);
      CallbackRemoved(callbacks, requestList, index);
      callbacks := WithoutIndex(callbacks, index);
      QueryAnswered(response);
      history := history + [Answer(index, response)];
      ValuesAre(requestList, before.requests);
    }

    method RunResponseCallback(index: nat, response: Node)
      requires Valid() && cursor == None && state != Crashed && index < |callbacks|
      requires callbacks[index].ResponseCallback?
      modifies this`callbacks, this`history, requestList
      ensures Valid() && requestList == old(requestList)
      ensures history == old(history) + [Answer(index, response)]
      ensures Some(Abs()) == Next(old(Abs()), Answer(index, response))
    {
      hide Run, Next, INITIAL, AllOwed, Values, CapturedAlive, CommandSlot, KnowsAddress, RETRY_COUNTDOWN, OwedInv,
           DeliveredInv, ConfigInv, ProcessReply, AllRanges, HasFullCoverage, WithoutIndex, Asked;
      ghost var before := Abs();
      var request := callbacks[index].request;
      RunExtended(INITIAL, history, Answer(index, response));
      Reachable(history);
      ghost var k := CapturedAt(before, callbacks, requestList, index);
      AllOwedOf(callbacks, QueryCallback, index);
      AnswerRequestIs(before, index, k, response);
      CallbackRemoved(callbacks, requestList, index);
      callbacks := WithoutIndex(callbacks, index);
      request.state := Ready(response);
      history := history + [Answer(index, response)];
      ValuesAre(requestList, before.requests[k := request.Value()]);
    }

    method RunAskingCallback(index: nat, response: Node)
      requires Valid() && cursor == None && state != Crashed && index < |callbacks|
      requires callbacks[index].AskingCallback?
      modifies this`callbacks, this`history, requestList
      ensures Valid() && requestList == old(requestList)
      ensures history == old(history) + [Answer(index, response)]
      ensures Some(Abs()) == Next(old(Abs()), Answer(index, response))
    {
      hide Run, Next, INITIAL, AllOwed, Values, CapturedAlive, CommandSlot, KnowsAddress, RETRY_COUNTDOWN, OwedInv,
           DeliveredInv, ConfigInv, ProcessReply, AllRanges, HasFullCoverage, WithoutIndex, Asked;
      ghost var before := Abs();
      var request := callbacks[index].request;
      RunExtended(INITIAL, history, Answer(index, response));
      Reachable(history);
      ghost var k := CapturedAt(before, callbacks, requestList, index);
      AllOwedOf(callbacks, QueryCallback, index);
      AnswerRequestIs(before, index, k, response);
      CallbackRemoved(callbacks, requestList, index);
      callbacks := WithoutIndex(callbacks, index);
      var node := FindClusterNodeForAddress(request.redirectAddress);
      KnowsAddressIs(clusterNodeList, request.redirectAddress);
      if node == |clusterNodeList| {
        assert AllOwed(callbacks) + [] == AllOwed(callbacks);
        request.state := Unsent;
      } else {
        AllOwedOf(callbacks, ResponseCallback(request), 0);
        CallbackAdded(callbacks, requestList, ResponseCallback(request));
        callbacks := callbacks + [ResponseCallback(request)];
        request.state := Pending;
      }
      history := history + [Answer(index, response)];
      ValuesAre(requestList, before.requests[k := request.Value()]);
    }

    /** Runs an owed callback. */
    method RunCallback(index: nat, response: Node)
      requires Valid() && cursor == None && state != Crashed && index < |callbacks|
      modifies this, requestList
      ensures Valid() && requestList == old(requestList)
      ensures history == old(history) + [Answer(index, response)]
      ensures Some(Abs()) == Next(old(Abs()), Answer(index, response))
      ensures cursor == None
    {
      hide *;
      match callbacks[index]
      case QueryCallback => RunQueryCallback(index, response);
      case ResponseCallback(_) => RunResponseCallback(index, response);
      case AskingCallback(_) => RunAskingCallback(index, response);
    }

    /** The connection or the node that held a callback is gone. */
    method DropCallback(index: nat)
      requires Valid() && cursor == None && state != Crashed && index < |callbacks|
      modifies this`callbacks, this`history
      ensures Valid()
      ensures history == old(history) + [Lose(index)]
      ensures Some(Abs()) == Next(old(Abs()), Lose(index))
    {
      hide Run, INITIAL, AllOwed, Values, CapturedAlive, CommandSlot, WithoutIndex, DistinctObjects, Reduced,
           Answered, Configured;
      RunExtended(INITIAL, history, Lose(index));
      AllOwedOf(callbacks, QueryCallback, index);
      CallbackRemoved(callbacks, requestList, index);
      callbacks := WithoutIndex(callbacks, index);
      history := history + [Lose(index)];
    }

    /** What `Update` does outside the stable state. */
    method UpdateConfig()
      requires Valid() && cursor == None && state != Crashed && state != Stable
      modifies this`state, this`retryClusterConfigCountdown, this`clusterNodeList, this`callbacks, this`history
      ensures Valid() && cursor == None && state != Stable
      ensures history == old(history) + [Configure(address)]
      ensures Some(Abs()) == Next(old(Abs()), Configure(address))
    {
      hide Run, INITIAL, AllOwed, Values, CapturedAlive, CommandSlot, WithoutIndex, DistinctObjects, Reduced, Answered;
      RunExtended(INITIAL, history, Configure(address));
      AllOwedOf(callbacks, QueryCallback, 0);
      CallbackAdded(callbacks, requestList, QueryCallback);
      match state {
        case Dirty =>
          if |clusterNodeList| == 0 {
            clusterNodeList := clusterNodeList + [ClusterNode(address, [])];
            assert clusterNodeList == [ClusterNode(address, [])];
          }
          callbacks := callbacks + [QueryCallback];
          state := QueryPending;
        case Incomplete =>
          if retryClusterConfigCountdown == 0 {
            state := Dirty;
          } else {
            retryClusterConfigCountdown := retryClusterConfigCountdown - 1;
          }
        case _ =>
      }
      history := history + [Configure(address)];
    }

    /** The nodes' clients update; a callback that crashes the client ends it all. */
    method UpdateNodes(arrivals: seq<Arrival>)
      requires Valid() && cursor == None && state != Crashed
      modifies this, requestList
      ensures Valid() && cursor == None && requestList == old(requestList) && old(history) <= history
      ensures Abs() == AllArrived(old(Abs()), arrivals)
    {
      hide Run, Next, INITIAL, AllOwed, Values, CapturedAlive, CommandSlot, DistinctObjects, AllArrived, Arrived;
      ghost var before := Abs();
      ArrivedNone(before, arrivals);
      var i := 0;
      while i < |arrivals| && state != Crashed
        invariant 0 <= i <= |arrivals| && Valid() && cursor == None && requestList == old(requestList)
          && old(history) <= history
        invariant Abs() == AllArrived(before, arrivals[..i])
      {
        ArrivedMore(before, arrivals, i);
        ArrivedIs(Abs(), arrivals[i]);
        match arrivals[i] {
          case Reply(index, response) =>
            if index < |callbacks| {
              RunCallback(index, response);
            }
          case Lost(index) =>
            if index < |callbacks| {
              DropCallback(index);
            }
        }
        i := i + 1;
      }
      if i < |arrivals| {
        CrashedStays(before, arrivals, i);
      }
    }

    /** An update does what some events do; when it ends in the stable state every slot has a node. */
    method Update(arrivals: seq<Arrival>)
      requires Valid() && cursor == None && state != Crashed
      modifies this, requestList
      ensures Valid() && cursor == None && old(history) <= history
      ensures var middle := AllArrived(old(Abs()), arrivals);
        match middle.config
        case Crashed => Abs() == middle
        case Stable => clusterNodeList == middle.table && BeginPass in history[|old(history)|..]
        case _ => Some(Abs()) == Next(middle, Configure(address))
      ensures state == Stable ==> forall k :: 0 <= k < |requestList| ==> !requestList[k].state.Ready?
      ensures state == Stable ==> forall slot :: 0 <= slot < SLOTS ==> Routable(clusterNodeList, slot)
    {
      hide Run, Next, INITIAL, AllOwed, Values, CapturedAlive, CommandSlot, DistinctObjects, Routable, RequestInv,
           QueryInv;
      UpdateNodes(arrivals);
      ghost var middle := history;
      if state == Crashed {
        return;
      }
      if state == Stable {
        ReduceRequestList();
        assert history[|middle|] == BeginPass;
      } else {
        UpdateConfig();
      }
      Reachable(history);
    }
  }
}
