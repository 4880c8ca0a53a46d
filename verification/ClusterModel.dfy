/** The cluster client as a state machine: configuration, requests and the callbacks that sub-requests
    still owe. One event is one step of `Update` or one callback. */
module ClusterModel {
  import opened Bytes
  import opened Sequences
  import opened Decimal
  import opened Protocol
  import opened HashSlot
  import opened Coverage
  import opened RoutingTable

  // ----- redirections

  const SPACE: byte := 32
  const COLON: byte := 58
  const ASK: seq<byte> := [65, 83, 75]
  const MOVED: seq<byte> := [77, 79, 86, 69, 68]

  /** The text before the first space, or all of it (with 64-bit `size_t`). */
  function ErrorCode(text: seq<byte>): seq<byte> {
    if text == [] || text[0] == SPACE then [] else [text[0]] + ErrorCode(text[1..])
  }

  function Delimited(text: seq<byte>): (n: nat)
    ensures n <= |text|
  {
    if text == [] || text[0] == SPACE || text[0] == COLON then 0 else 1 + Delimited(text[1..])
  }

  /** `strtok` with the delimiters space and colon; runs of delimiters count once. */
  function Tokens(text: seq<byte>): seq<seq<byte>>
    decreases |text|
  {
    if text == [] then []
    else if text[0] == SPACE || text[0] == COLON then Tokens(text[1..])
    else [text[..Delimited(text)]] + Tokens(text[Delimited(text)..])
  }

  /** The third and fourth tokens are the address; a missing one leaves its part alone. */
  function RedirectedBy(tokens: seq<seq<byte>>, before: Address): Address {
    Address(if |tokens| > 2 then tokens[2] else before.ip,
            if |tokens| > 3 then ToUint16(Strtol(tokens[3]).value) else before.port)
  }

  function RedirectAddress(text: seq<byte>, before: Address): Address {
    RedirectedBy(Tokens(CString(text)), before)
  }

  datatype Redirection = Ask | Move | Neither

  /** What kind of redirection a response is: only a simple error can be one. */
  function RedirectionOf(response: Node): Redirection {
    match response.data
    case Text(SimpleError, text) =>
      if ErrorCode(text) == ASK then Ask else if ErrorCode(text) == MOVED then Move else Neither
    case _ => Neither
  }

  // ----- states

  /** `Crashed` stands for the coverage check reading the head of an empty list. */
  datatype ConfigState = Dirty | QueryPending | Stable | Incomplete | Crashed

  datatype Phase = Unsent | Pending | Ready(response: Node)

  /** A request. `hops` counts the direct redirections since the last lookup in the slot table; the
      program does not keep it. */
  datatype Request = Request(id: nat, slot: nat, phase: Phase, redirectCount: nat, redirect: Address, hops: nat)

  /** A callback that a node's client still owes: the reply to CLUSTER SLOTS, the response to a
      request, or the response to the ASKING sent for it. */
  datatype Owed = Query | Response(id: nat) | Asking(id: nat)

  datatype Delivery = Delivery(id: nat, response: Node)

  datatype State = State(
    config: ConfigState,
    countdown: nat,
    table: seq<ClusterNode>,
    requests: seq<Request>,
    owed: seq<Owed>,
    cursor: Option<nat>,          // where the pass over the requests stands, if one is running
    delivered: seq<Delivery>,     // user callbacks that have run
    nextId: nat)

  const INITIAL := State(Dirty, 0, [], [], [], None, [], 0)

  const RETRY_COUNTDOWN := 32

  datatype Event =
    | Submit(slot: nat)                  // the user makes a request; also from inside a callback
    | Configure(seed: Address)           // Update outside the stable state
    | BeginPass                          // Update in the stable state
    | ReduceNext                         // the pass reaches its next request, or its end
    | Answer(index: nat, response: Node) // an owed callback runs
    | Lose(index: nat)                   // an owed callback is dropped with its connection or node

  /** SignalClusterConfigDirty. */
  function MarkDirty(config: ConfigState): (r: ConfigState)
    ensures r != Stable && (r != config ==> r == Dirty)
  {
    if config == Stable then Dirty else config
  }

  // ----- steps

  function Configured(s: State, seed: Address): State {
    match s.config
    case Dirty =>
      var table := if s.table == [] then [ClusterNode(seed, [])] else s.table;
      s.(table := table, owed := s.owed + [Query], config := QueryPending)
    case Incomplete => if s.countdown == 0 then s.(config := Dirty) else s.(countdown := s.countdown - 1)
    case _ => s
  }

  /** The reply to CLUSTER SLOTS. */
  function ConfigReplied(s: State, reply: Node): State {
    var table := ProcessReply(s.table, reply);
    if AllRanges(table) == [] then s.(table := table, config := Crashed)
    else if HasFullCoverage(AllRanges(table)) then s.(table := table, config := Stable)
    else s.(table := table, config := Incomplete, countdown := RETRY_COUNTDOWN)
  }

  /** The position of the request with this id; the length if there is none. */
  function IndexOfRequest(requests: seq<Request>, id: nat): (k: nat)
    ensures k <= |requests| && (k < |requests| ==> requests[k].id == id)
    ensures forall j :: 0 <= j < k ==> requests[j].id != id
  {
    if requests == [] || requests[0].id == id then 0 else 1 + IndexOfRequest(requests[1..], id)
  }

  /** A request after the response to it has come. */
  function Responded(r: Request, response: Node): Request {
    r.(phase := Ready(response))
  }

  /** A request after the response to its ASKING: redirected if the node is still known. */
  function Asked(r: Request, table: seq<ClusterNode>): Request {
    r.(phase := if KnowsAddress(table, r.redirect) then Pending else Unsent)
  }

  function Answered(s: State, i: nat, response: Node): State
    requires i < |s.owed|
  {
    var rest := s.(owed := WithoutIndex(s.owed, i));
    match s.owed[i]
    case Query => ConfigReplied(rest, response)
    case Response(id) =>
      var k := IndexOfRequest(s.requests, id);
      if k == |s.requests| then rest else rest.(requests := s.requests[k := Responded(s.requests[k], response)])
    case Asking(id) =>
      var k := IndexOfRequest(s.requests, id);
      if k == |s.requests| then rest
      else
        var r := Asked(s.requests[k], s.table);
        rest.(requests := s.requests[k := r],
              owed := if r.phase == Pending then rest.owed + [Response(id)] else rest.owed)
  }

  /** What one visit does to a request: its new form, the callback it is now owed, whether the slot
      table is to be marked dirty, whether the pass bails out. */
  datatype Visit = Visit(request: Request, owed: Option<Owed>, dirty: bool, bail: bool)

  function VisitUnsent(r: Request, table: seq<ClusterNode>): Visit {
    if Routable(table, r.slot) then Visit(r.(phase := Pending, hops := 0), Some(Response(r.id)), false, false)
    else Visit(r, None, true, true)
  }

  /** HandleError: the second redirection in a row goes back to the slot table. */
  function VisitRedirected(r: Request, table: seq<ClusterNode>, kind: Redirection, text: seq<byte>): Visit {
    var moved := kind == Move;
    if r.redirectCount + 1 == 2 then Visit(r.(phase := Unsent, redirectCount := 0), None, moved, moved)
    else
      var r' := r.(redirectCount := r.redirectCount + 1, redirect := RedirectAddress(text, r.redirect));
      if !KnowsAddress(table, r'.redirect) then Visit(r'.(phase := Unsent), None, moved, moved)
      else Visit(r'.(phase := Pending, hops := r.hops + 1),
                 Some(if moved then Response(r.id) else Asking(r.id)), moved, moved)
  }

  function AfterVisit(s: State, i: nat, v: Visit): State
    requires i < |s.requests|
  {
    s.(requests := s.requests[i := v.request],
       owed := s.owed + (if v.owed.Some? then [v.owed.value] else []),
       config := if v.dirty then MarkDirty(s.config) else s.config,
       cursor := if v.bail then None else Some(i + 1))
  }

  function Reduced(s: State, i: nat): State {
    if i >= |s.requests| then s.(cursor := None)
    else
      var r := s.requests[i];
      match r.phase
      case Unsent => AfterVisit(s, i, VisitUnsent(r, s.table))
      case Pending => s.(cursor := Some(i + 1))
      case Ready(response) =>
        var kind := RedirectionOf(response);
        if kind != Neither then AfterVisit(s, i, VisitRedirected(r, s.table, kind, response.data.text))
        else s.(requests := WithoutIndex(s.requests, i), delivered := s.delivered + [Delivery(r.id, response)])
  }

  /** The state after an event, if the event can happen. Callbacks of sub-requests run while no pass is
      running, because user callbacks do not call `Update`. */
  function Next(s: State, e: Event): Option<State> {
    if s.config == Crashed then None
    else
      match e
      case Submit(slot) =>
        if slot >= SLOTS then None
        else Some(s.(requests := s.requests + [Request(s.nextId, slot, Unsent, 0, DEFAULT_ADDRESS, 0)],
          nextId := s.nextId + 1))
      case Configure(seed) => if s.cursor.None? && s.config != Stable then Some(Configured(s, seed)) else None
      case BeginPass => if s.cursor.None? && s.config == Stable then Some(s.(cursor := Some(0))) else None
      case ReduceNext => if s.cursor.Some? then Some(Reduced(s, s.cursor.value)) else None
      case Answer(i, response) => if s.cursor.None? && i < |s.owed| then Some(Answered(s, i, response)) else None
      case Lose(i) => if s.cursor.None? && i < |s.owed| then Some(s.(owed := WithoutIndex(s.owed, i))) else None
  }

  function Run(s: State, events: seq<Event>): Option<State>
    decreases |events|
  {
    if events == [] then Some(s)
    else match Next(s, events[0]) case Some(s') => Run(s', events[1..]) case None => None
  }
}
