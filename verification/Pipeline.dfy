/** The pipelined client as a step system: the calling thread, the reception thread and the server
    interleave, one step for each locked list operation. */
module Pipeline {
  import opened Bytes
  import opened Protocol

  /** A request: which call of the interface made it, and which of that call's commands it is. */
  datatype Request = Request(id: nat, call: nat, index: nat, command: Node)

  /** A value the client has parsed, and the bytes of the connection it came from. */
  datatype Datum = Datum(node: Node, from: nat, to: nat)

  /** Bytes the server sends at once: its next answer, or something nobody asked for. */
  datatype Sending = Sending(bytes: seq<byte>, solicited: bool)

  /** Bytes that a parse which failed has used up. */
  datatype Gap = Gap(from: nat, to: nat)

  datatype Served = Served(request: Request, datum: Datum)

  /** What has happened on one connection. */
  datatype Link = Link(
    moved: seq<Request>,    // put on the sent list
    printed: nat,           // how many of those have been written out
    sendings: seq<Sending>, // what the server has sent
    consumed: nat,          // how many of its bytes have been read
    errno: bool,            // whether the reception thread's errno is set
    arrived: seq<Datum>,    // parsed
    failed: seq<Gap>,       // lost to parses that failed
    taken: seq<Served>,     // taken off the sent list, each with its response
    dropped: seq<Datum>,    // responses that met an empty sent list
    lost: seq<Request>)     // still on the sent list when the connection was given up

  const NEW_LINK := Link([], 0, [], 0, false, [], [], [], [], [])

  /** All bytes the server has sent. */
  function Incoming(sendings: seq<Sending>): seq<byte> {
    if sendings == [] then [] else Incoming(sendings[..|sendings| - 1]) + sendings[|sendings| - 1].bytes
  }

  /** How many answers the server has sent. */
  function Answers(sendings: seq<Sending>): nat {
    if sendings == [] then 0
    else Answers(sendings[..|sendings| - 1]) + (if sendings[|sendings| - 1].solicited then 1 else 0)
  }

  /** What the parser makes of the bytes sent and not yet read. Where it lacks bytes it waits for them. */
  function Reading(l: Link): Outcome<Node> {
    var d := Incoming(l.sendings);
    if l.consumed <= |d| then ParseNode(d, l.consumed, l.errno) else Err(Rejected)
  }

  /** Where the calling thread stands in `Update`. */
  datatype Caller =
    | Idle                       // outside, or on the way to the first loop
    | Draining                   // in the loop that empties the unsent list
    | Moving(request: Request)   // off the unsent list, not yet on the sent list
    | Printing(request: Request) // on the sent list, not yet written
    | Serving                    // in the loop that serves requests
    | Popping                    // has decremented the semaphore
    | CallingBack(served: Served)
    | Telling                    // in the loop that hands out messages

  /** A call of the interface in progress, perhaps from inside a callback. */
  datatype Api =
    | NoCall
    | Making(rest: seq<Node>, index: nat, issuing: Option<Request>)
    | Cancelling(id: nat, stage: nat)

  /** The reception thread. */
  datatype Thread = NoThread | Waiting | Parsed(datum: Datum) | Holding(served: Served) | Signalling | Exited

  datatype State = State(
    caller: Caller,
    api: Api,
    thread: Thread,
    connected: bool,
    link: Option<Link>,
    unsent: seq<Request>,
    sent: seq<Request>,
    served: seq<Served>,
    messages: seq<Datum>,
    semaphore: nat,
    inFlight: int,
    // what has happened so far
    past: seq<Link>,
    calls: seq<seq<Node>>,
    issued: seq<Request>,
    cancelled: seq<Request>,
    purged: seq<Request>,
    silenced: set<nat>,          // callbacks that cancellation has replaced
    delivered: seq<Served>,
    told: seq<Datum>)

  const INITIAL := State(Idle, NoCall, NoThread, false, None, [], [], [], [], 0, 0, [], [], [], [], [], {}, [], [])

  datatype Event =
    // the interface
    | Make(commands: seq<Node>) | Alloc | Add | Return | Cancel(id: nat) | CancelStep
    // Update
    | Connect | Purge | Spawn | Reap
    | StartDrain | Take | AddSent | Print | EndDrain
    | Decrement | Pop | Finish | EndServe | Tell | EndUpdate
    // the reception thread
    | Parse | Fail(to: nat) | Exit | Dispatch | PutServed | Signal
    // the world
    | Disconnect | Answer(bytes: seq<byte>) | Unsolicited(bytes: seq<byte>)

  /** "message" */
  const MESSAGE: seq<byte> := [109, 101, 115, 115, 97, 103, 101]

  /** Push data, or an array that starts with the string "message". */
  predicate IsMessage(node: Node) {
    match node.data
    case Aggregate(Push, _) => true
    case NullAggregate(Push) => true
    case Aggregate(Array, elements) => elements != [] && elements[0].data == Blob(BlobString, MESSAGE)
    case _ => false
  }

  // ----- the calling thread

  /** The user's code runs: outside `Update` or inside a callback. */
  predicate UserRuns(caller: Caller) {
    caller.Idle? || caller.CallingBack? || caller.Telling?
  }

  function IndexOf(requests: seq<Request>, id: nat): (k: nat)
    ensures k <= |requests| && (k < |requests| ==> requests[k].id == id)
    ensures forall j :: 0 <= j < k ==> requests[j].id != id
  {
    if requests == [] || requests[0].id == id then 0 else 1 + IndexOf(requests[1..], id)
  }

  function Requests(served: seq<Served>): (r: seq<Request>)
    ensures |r| == |served|
    ensures forall i :: 0 <= i < |r| ==> r[i] == served[i].request
  {
    seq(|served|, i requires 0 <= i < |served| => served[i].request)
  }

  /** One look of `CancelAsyncRequest` into one list; there are two rounds of three. */
  function CancelStepped(s: State, id: nat, stage: nat): State {
    var next := if stage == 5 then NoCall else Cancelling(id, stage + 1);
    if stage == 0 || stage == 3 then
      var k := IndexOf(s.unsent, id);
      if k == |s.unsent| then s.(api := next)
      else s.(api := NoCall, unsent := s.unsent[..k] + s.unsent[k + 1..], cancelled := s.cancelled + [s.unsent[k]],
              inFlight := s.inFlight - 1)
    else
      var list := if stage == 1 || stage == 4 then s.sent else Requests(s.served);
      if IndexOf(list, id) == |list| then s.(api := next)
      else s.(api := NoCall, silenced := s.silenced + {id})
  }

  function NextOfInterface(s: State, e: Event): Option<State> {
    match e
    case Make(commands) =>
      if UserRuns(s.caller) && s.api.NoCall? && commands != []
      then Some(s.(api := Making(commands, 0, None), calls := s.calls + [commands])) else None
    case Alloc =>
      if s.api.Making? && s.api.issuing.None? && s.api.rest != [] && s.calls != [] then
        var r := Request(|s.issued|, |s.calls| - 1, s.api.index, s.api.rest[0]);
        Some(s.(api := Making(s.api.rest[1..], s.api.index + 1, Some(r)), issued := s.issued + [r],
          inFlight := s.inFlight + 1))
      else None
    case Add =>
      if s.api.Making? && s.api.issuing.Some?
      then Some(s.(api := s.api.(issuing := None), unsent := s.unsent + [s.api.issuing.value])) else None
    case Return => if s.api.Making? && s.api.issuing.None? && s.api.rest == [] then Some(s.(api := NoCall)) else None
    case Cancel(id) => if UserRuns(s.caller) && s.api.NoCall? then Some(s.(api := Cancelling(id, 0))) else None
    case CancelStep =>
      if s.api.Cancelling? && s.api.stage < 6 then Some(CancelStepped(s, s.api.id, s.api.stage)) else None
    case _ => None
  }

  function NextOfConnection(s: State, e: Event): Option<State> {
    if !s.caller.Idle? || !s.api.NoCall? then None
    else
      match e
      case Connect => if s.link.None? then Some(s.(link := Some(NEW_LINK), connected := true)) else None
      case Purge =>
        if s.link.Some? && !s.connected && (s.thread.NoThread? || s.thread.Exited?)
        then Some(s.(link := None, sent := [], past := s.past + [s.link.value.(lost := s.sent)],
          purged := s.purged + s.sent))
        else None
      case Spawn =>
        if s.link.Some? && s.thread.NoThread?
        then Some(s.(thread := Waiting, link := Some(s.link.value.(errno := false)))) else None
      case Reap => if s.thread.Exited? then Some(s.(thread := NoThread)) else None
      case StartDrain =>
        if s.link.Some? && !s.thread.NoThread? && !s.thread.Exited? then Some(s.(caller := Draining)) else None
      case _ => None
  }

  function NextOfDrain(s: State, e: Event): Option<State> {
    if !s.api.NoCall? then None
    else
      match e
      case Take =>
        if s.caller.Draining? && s.unsent != []
        then Some(s.(caller := Moving(s.unsent[0]), unsent := s.unsent[1..])) else None
      case AddSent =>
        if s.caller.Moving? && s.link.Some? then
          var r := s.caller.request;
          Some(s.(caller := Printing(r), sent := s.sent + [r],
            link := Some(s.link.value.(moved := s.link.value.moved + [r]))))
        else None
      case Print =>
        if s.caller.Printing? && s.link.Some?
        then Some(s.(caller := Draining, link := Some(s.link.value.(printed := s.link.value.printed + 1)))) else None
      case EndDrain => if s.caller.Draining? && s.unsent == [] then Some(s.(caller := Serving)) else None
      case _ => None
  }

  function NextOfService(s: State, e: Event): Option<State> {
    if !s.api.NoCall? then None
    else
      match e
      case Decrement =>
        if s.caller.Serving? && s.inFlight > 0 && s.semaphore > 0
        then Some(s.(caller := Popping, semaphore := s.semaphore - 1)) else None
      case Pop =>
        if !s.caller.Popping? then None
        else if s.served == [] then Some(s.(caller := Serving))
        else Some(s.(caller := CallingBack(s.served[0]), served := s.served[1..]))
      case Finish =>
        if s.caller.CallingBack?
        then Some(s.(caller := Serving, delivered := s.delivered + [s.caller.served], inFlight := s.inFlight - 1))
        else None
      case EndServe => if s.caller.Serving? then Some(s.(caller := Telling)) else None
      case Tell =>
        if s.caller.Telling? && s.messages != []
        then Some(s.(messages := s.messages[1..], told := s.told + [s.messages[0]])) else None
      case EndUpdate => if s.caller.Telling? && s.messages == [] then Some(s.(caller := Idle)) else None
      case _ => None
  }

  // ----- the reception thread and the world

  // A parse that fails ends the thread. It uses up any of the bytes sent so far: those it has rejected, or
  // all that came before the connection broke. The connection itself need not end.

  function NextOfThread(s: State, e: Event): Option<State> {
    if s.link.None? then None
    else
      var l := s.link.value;
      match e
      case Parse =>
        if s.thread.Waiting? && s.connected && Reading(l).Ok? then
          var d := Datum(Reading(l).value, l.consumed, Reading(l).pos);
          Some(s.(thread := Parsed(d),
                  link := Some(l.(consumed := d.to, errno := Reading(l).errno, arrived := l.arrived + [d]))))
        else None
      case Fail(to) =>
        if s.thread.Waiting? && l.consumed <= to <= |Incoming(l.sendings)| && !(s.connected && Reading(l).Ok?)
        then Some(s.(thread := Exited, link := Some(l.(consumed := to, failed := l.failed + [Gap(l.consumed, to)]))))
        else None
      case Exit => if s.thread.Waiting? && !s.connected then Some(s.(thread := Exited)) else None
      case Dispatch =>
        if !s.thread.Parsed? then None
        else
          var d := s.thread.datum;
          if IsMessage(d.node) then Some(s.(thread := Waiting, messages := s.messages + [d]))
          else if s.sent == [] then Some(s.(thread := Waiting, link := Some(l.(dropped := l.dropped + [d]))))
          else
            var x := Served(s.sent[0], d);
            Some(s.(thread := Holding(x), sent := s.sent[1..], link := Some(l.(taken := l.taken + [x]))))
      case PutServed =>
        if s.thread.Holding? then Some(s.(thread := Signalling, served := s.served + [s.thread.served])) else None
      case Signal =>
        if s.thread.Signalling? then Some(s.(thread := Waiting, semaphore := s.semaphore + 1)) else None
      case _ => None
  }

  /** The server answers what has been written to it, in order, with whatever bytes; it may also send what
      nobody asked for. */
  function NextOfWorld(s: State, e: Event): Option<State> {
    if s.link.None? then None
    else
      var l := s.link.value;
      match e
      case Disconnect => Some(s.(connected := false))
      case Answer(bytes) =>
        if Answers(l.sendings) < l.printed
        then Some(s.(link := Some(l.(sendings := l.sendings + [Sending(bytes, true)])))) else None
      case Unsolicited(bytes) => Some(s.(link := Some(l.(sendings := l.sendings + [Sending(bytes, false)]))))
      case _ => None
  }

  function Next(s: State, e: Event): Option<State> {
    match e
    case Make(_) => NextOfInterface(s, e)
    case Alloc => NextOfInterface(s, e)
    case Add => NextOfInterface(s, e)
    case Return => NextOfInterface(s, e)
    case Cancel(_) => NextOfInterface(s, e)
    case CancelStep => NextOfInterface(s, e)
    case Connect => NextOfConnection(s, e)
    case Purge => NextOfConnection(s, e)
    case Spawn => NextOfConnection(s, e)
    case Reap => NextOfConnection(s, e)
    case StartDrain => NextOfConnection(s, e)
    case Parse => NextOfThread(s, e)
    case Fail(_) => NextOfThread(s, e)
    case Exit => NextOfThread(s, e)
    case Dispatch => NextOfThread(s, e)
    case PutServed => NextOfThread(s, e)
    case Signal => NextOfThread(s, e)
    case Disconnect => NextOfWorld(s, e)
    case Answer(_) => NextOfWorld(s, e)
    case Unsolicited(_) => NextOfWorld(s, e)
    case Take => NextOfDrain(s, e)
    case AddSent => NextOfDrain(s, e)
    case Print => NextOfDrain(s, e)
    case EndDrain => NextOfDrain(s, e)
    case _ => NextOfService(s, e)
  }

  function Run(s: State, events: seq<Event>): Option<State>
    decreases |events|
  {
    if events == [] then Some(s)
    else match Next(s, events[0]) case Some(s') => Run(s', events[1..]) case None => None
  }
}
