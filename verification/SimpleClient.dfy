/** The pipelined client itself. Each locked list operation is one step, and before each the other
    threads and the server may take any number of theirs. */
module SimpleClient {
  import opened Bytes
  import opened Protocol
  import opened Pipeline
  import opened PipelineOrder
  import PipelineServer

  datatype Side = CallerSide | ThreadSide | WorldSide

  function SideOf(e: Event): Side {
    match e
    case Parse => ThreadSide
    case Fail(_) => ThreadSide
    case Exit => ThreadSide
    case Dispatch => ThreadSide
    case PutServed => ThreadSide
    case Signal => ThreadSide
    case Disconnect => WorldSide
    case Answer(_) => WorldSide
    case Unsolicited(_) => WorldSide
    case _ => CallerSide
  }

  /** Where the calling thread stands, and what has happened so far. */
  datatype Log = Log(
    caller: Caller,
    api: Api,
    past: seq<Link>,
    calls: seq<seq<Node>>,
    issued: seq<Request>,
    cancelled: seq<Request>,
    purged: seq<Request>,
    silenced: set<nat>,
    delivered: seq<Served>,
    told: seq<Datum>)

  function LogOf(s: State): Log {
    Log(s.caller, s.api, s.past, s.calls, s.issued, s.cancelled, s.purged, s.silenced, s.delivered, s.told)
  }

  /** What the reception thread and the server never undo while the caller is not in its connection phase. */
  predicate Onward(s: State, s': State) {
    && (s.link.Some? <==> s'.link.Some?) && (s'.connected ==> s.connected)
    && (s.link.Some? ==> s.link.value.moved == s'.link.value.moved && s.link.value.printed == s'.link.value.printed)
    && (s.thread.NoThread? <==> s'.thread.NoThread?) && (s.thread.Exited? ==> s'.thread.Exited?)
    && s.served <= s'.served && s.messages <= s'.messages
  }

  /** What the steps of the reception thread and the server leave to the caller. */
  predicate CallerKeeps(s: State, s': State) {
    && LogOf(s) == LogOf(s') && s.unsent == s'.unsent && s.inFlight == s'.inFlight && Onward(s, s')
    && (forall r :: r in s'.sent ==> r in s.sent)
  }

  lemma OthersLeaveTheCaller(s: State, e: Event)
    requires Next(s, e).Some? && SideOf(e) != CallerSide
    ensures CallerKeeps(s, Next(s, e).value)
  {
    hide IsMessage, Reading, Incoming, Answers;
  }

  /** What the steps of the caller and the server leave to the reception thread. */
  predicate ThreadKeeps(s: State, s': State) {
    s.thread == s'.thread || s.thread.NoThread? || s.thread.Exited?
  }

  lemma OthersLeaveTheThread(s: State, e: Event)
    requires Next(s, e).Some? && SideOf(e) != ThreadSide
    ensures ThreadKeeps(s, Next(s, e).value)
  {
    hide IndexOf, Requests, Incoming, Answers;
  }

  /** The requests of a call, numbered from `id`. */
  function NewRequests(commands: seq<Node>, call: nat, id: nat): (r: seq<Request>)
    ensures |r| == |commands| && forall j :: 0 <= j < |r| ==> r[j] == Request(id + j, call, j, commands[j])
  {
    seq(|commands|, j requires 0 <= j < |commands| => Request(id + j, call, j, commands[j]))
  }

  lemma StepKeeps(s: State, e: Event, me: Side)
    requires SideOf(e) != me && Next(s, e).Some?
    ensures me == CallerSide ==> CallerKeeps(s, Next(s, e).value)
    ensures me == ThreadSide ==> ThreadKeeps(s, Next(s, e).value)
  {
    hide Next, CallerKeeps, ThreadKeeps, SideOf;
    if me == CallerSide {
      OthersLeaveTheCaller(s, e);
    } else if me == ThreadSide {
      OthersLeaveTheThread(s, e);
    }
  }

  /** The caller's own steps in between. */
  predicate SameShared(s: State, s': State) {
    s.link == s'.link && s.connected == s'.connected && s.thread == s'.thread && s.served == s'.served
      && s.messages == s'.messages
  }

  lemma OnwardComposes(s: State, s': State, s'': State)
    ensures Onward(s, s)
    ensures Onward(s, s') && Onward(s', s'') ==> Onward(s, s'')
    ensures Onward(s, s') && SameShared(s', s'') ==> Onward(s, s'')
  {}

  lemma KeepsCompose(s: State, s': State, s'': State)
    ensures CallerKeeps(s, s) && ThreadKeeps(s, s)
    ensures CallerKeeps(s, s') && CallerKeeps(s', s'') ==> CallerKeeps(s, s'')
    ensures ThreadKeeps(s, s') && ThreadKeeps(s', s'') ==> ThreadKeeps(s, s'')
  {}

  /** The calls that ask for something. */
  function Nonempty(wanted: seq<seq<Node>>): seq<seq<Node>> {
    if wanted == [] then []
    else Nonempty(wanted[..|wanted| - 1]) + (if wanted[|wanted| - 1] == [] then [] else [wanted[|wanted| - 1]])
  }

  lemma NonemptyMore(wanted: seq<seq<Node>>, i: nat)
    requires i < |wanted|
    ensures Nonempty(wanted[..i + 1]) == Nonempty(wanted[..i]) + (if wanted[i] == [] then [] else [wanted[i]])
  {
    assert wanted[..i + 1][..i] == wanted[..i];
  }

  lemma NonemptyEnds(wanted: seq<seq<Node>>)
    ensures Nonempty(wanted[..0]) == [] && wanted[..|wanted|] == wanted
  {}

  /** "MULTI" and "EXEC" */
  const MULTI: seq<byte> := [77, 85, 76, 84, 73]
  const EXEC: seq<byte> := [69, 88, 69, 67]

  /** A command without arguments. */
  function Command(name: seq<byte>): Node {
    Node(None, Aggregate(Array, [Node(None, Blob(BlobString, name))]))
  }

  /** What goes out before and after a transaction: "*1", "$5", "MULTI" and "*1", "$4", "EXEC", a line each. */
  lemma TransactionFrame()
    ensures EncodeNode(Command(MULTI)) == [42, 49, 13, 10, 36, 53, 13, 10, 77, 85, 76, 84, 73, 13, 10]
    ensures EncodeNode(Command(EXEC)) == [42, 49, 13, 10, 36, 52, 13, 10, 69, 88, 69, 67, 13, 10]
  {
    CommandPrints(MULTI);
    CommandPrints(EXEC);
  }

  lemma CommandPrints(name: seq<byte>)
    requires |name| < 10
    ensures EncodeNode(Command(name)) == [42, 49, 13, 10, 36, 48 + |name|, 13, 10] + name + [13, 10]
  {
    var word := Node(None, Blob(BlobString, name));
    assert EncodeData(word.data) == [36] + EncodeBody(word.data);
    assert EncodeBody(word.data) == [48 + |name|] + CRLF + (name + CRLF);
    assert [word][1..] == [] && EncodeAll([word]) == EncodeNode(word);
    assert EncodeData(Command(name).data) == [42] + EncodeBody(Command(name).data);
    assert EncodeBody(Command(name).data) == [49] + CRLF + EncodeAll([word]);
  }

  /** A request with this id is on the list. */
  predicate On(requests: seq<Request>, id: nat) {
    exists i :: 0 <= i < |requests| && requests[i].id == id
  }

  lemma OnFewer(requests: seq<Request>, fewer: seq<Request>, id: nat)
    requires forall r :: r in fewer ==> r in requests
    ensures On(fewer, id) ==> On(requests, id)
  {
    if On(fewer, id) {
      var i :| 0 <= i < |fewer| && fewer[i].id == id;
      assert fewer[i] in requests;
    }
  }

  lemma IndexFinds(requests: seq<Request>, id: nat)
    ensures IndexOf(requests, id) < |requests| <==> On(requests, id)
  {
    hide IndexOf;
  }

  /** A request that is on none of the three lists, and not in the caller's hand, has met its response, or
      is gone. */
  lemma OnNoList(events: seq<Event>, s: State, id: nat, r: Request)
    requires Run(INITIAL, events) == Some(s) && UserRuns(s.caller) && s.api.NoCall?
    requires !On(s.unsent, id) && !On(s.sent, id) && !On(Requests(s.served), id)
    requires r in s.issued && r.id == id
    ensures r in s.cancelled || r in s.purged || r in Requests(s.delivered) || r in Requests(Called(s.caller))
      || r in Requests(Held(s.thread))
  {
    hide Run, INITIAL, Next;
    RequestIsSomewhere(events, r);
    if r in Requests(Done(s)) {
      var i :| 0 <= i < |Done(s)| && Done(s)[i].request == r;
      RequestsOfParts(s.delivered + Called(s.caller) + s.served, Held(s.thread), r);
      RequestsOfParts(s.delivered + Called(s.caller), s.served, r);
      RequestsOfParts(s.delivered, Called(s.caller), r);
    }
  }

  lemma RequestsOfParts(a: seq<Served>, b: seq<Served>, r: Request)
    ensures r in Requests(a + b) <==> r in Requests(a) || r in Requests(b)
  {
    assert Requests(a + b) == Requests(a) + Requests(b);
  }

  /** The callback of this request will not run: the request is gone or its callback replaced. */
  predicate Stopped(log: Log, id: nat) {
    id in log.silenced || exists i :: 0 <= i < |log.cancelled| && log.cancelled[i].id == id
  }

  /** What serving and telling leave alone, and what they only add to. */
  predicate Serviced(s: State, s': State) {
    && s'.api.NoCall? && s.past == s'.past && s.cancelled == s'.cancelled && s.purged == s'.purged
    && s.delivered <= s'.delivered && s.told <= s'.told && s.unsent <= s'.unsent
    && s.link.Some? && s'.link.Some? && s.link.value.moved == s'.link.value.moved
  }

  lemma ServicedComposes(s: State, s': State, s'': State)
    ensures s.api.NoCall? && s.link.Some? ==> Serviced(s, s)
    ensures Serviced(s, s') && Serviced(s', s'') ==> Serviced(s, s'')
    ensures Serviced(s, s') && s'' == s'.(caller := s''.caller) ==> Serviced(s, s'')
    ensures Serviced(s, s') ==> s'.api.NoCall? && s'.link.Some?
  {}

  lemma ServeEnds(s: State)
    requires s.caller.Serving? && s.api.NoCall?
    ensures Next(s, EndServe) == Some(s.(caller := Telling))
  {}

  lemma TellEnds(s: State)
    requires s.caller.Telling? && s.messages == [] && s.api.NoCall?
    ensures Next(s, EndUpdate) == Some(s.(caller := Idle))
  {}

  /** What the reception thread does next once the connection is gone. */
  function ThreadEvent(thread: Thread): Event {
    match thread
    case Parsed(_) => Dispatch
    case Holding(_) => PutServed
    case Signalling => Signal
    case _ => Exit
  }

  function Rank(thread: Thread): nat {
    match thread
    case Parsed(_) => 4
    case Holding(_) => 3
    case Signalling => 2
    case Waiting => 1
    case _ => 0
  }

  lemma ThreadCanMove(events: seq<Event>, s: State)
    requires Run(INITIAL, events) == Some(s) && !s.thread.NoThread? && !s.thread.Exited? && !s.connected
    ensures Next(s, ThreadEvent(s.thread)).Some? && SideOf(ThreadEvent(s.thread)) != CallerSide
    ensures Rank(Next(s, ThreadEvent(s.thread)).value.thread) < Rank(s.thread)
  {
    hide Run, InOrder, MovedInOrder, Matched, Counted, IsMessage, Reading, Incoming, Answers;
    OrderlyAlways(events);
  }

  lemma ExitIs(s: State)
    requires s.thread.Waiting? && s.link.Some? && !s.connected
    ensures Next(s, Exit) == Some(s.(thread := Exited))
  {}

  lemma ReapIs(s: State)
    requires s.caller.Idle? && s.api.NoCall? && s.thread.Exited?
    ensures Next(s, Reap) == Some(s.(thread := NoThread))
  {}

  lemma SpawnIs(s: State)
    requires s.caller.Idle? && s.api.NoCall? && s.thread.NoThread? && s.link.Some?
    ensures Next(s, Spawn) == Some(s.(thread := Waiting, link := Some(s.link.value.(errno := false))))
  {}

  lemma StartIs(s: State)
    requires s.caller.Idle? && s.api.NoCall? && s.link.Some? && !s.thread.NoThread? && !s.thread.Exited?
    ensures Next(s, StartDrain) == Some(s.(caller := Draining))
  {}

  lemma DrainEnds(s: State)
    requires s.caller.Draining? && s.unsent == [] && s.api.NoCall?
    ensures Next(s, EndDrain) == Some(s.(caller := Serving))
  {}

  class SimpleClient {
    var unsentRequestList: seq<Request>
    var sentRequestList: seq<Request>
    var servedRequestList: seq<Served>
    var messageList: seq<Datum>
    var servedRequestListSemaphore: nat
    var numRequestsInFlight: int
    var thread: Thread
    var socketStream: Option<Link>
    var connected: bool
    var log: Log
    ghost var history: seq<Event>

    // the choices of the other threads and the server, and what user callbacks ask for
    var schedule: seq<seq<Event>>
    const onResponse: Served -> seq<seq<Node>>
    const onMessage: Datum -> seq<seq<Node>>
    const onConnect: seq<seq<Node>>

    function Abs(): State
      reads this
    {
      State(log.caller, log.api, thread, connected, socketStream, unsentRequestList, sentRequestList, servedRequestList,
            messageList, servedRequestListSemaphore, numRequestsInFlight, log.past, log.calls, log.issued,
            log.cancelled, log.purged, log.silenced, log.delivered, log.told)
    }

    ghost predicate Valid()
      reads this
    {
      Run(INITIAL, history) == Some(Abs())
    }

    constructor (schedule: seq<seq<Event>>, onResponse: Served -> seq<seq<Node>>, onMessage: Datum -> seq<seq<Node>>,
                 onConnect: seq<seq<Node>>)
      ensures Valid() && Abs() == INITIAL
    {
      unsentRequestList, sentRequestList, servedRequestList, messageList := [], [], [], [];
      servedRequestListSemaphore, numRequestsInFlight, thread, socketStream, connected := 0, 0, NoThread, None, false;
      log, history := LogOf(INITIAL), [];
      this.schedule, this.onResponse, this.onMessage, this.onConnect := schedule, onResponse, onMessage, onConnect;
    }

    /** Enters a step just taken into the history. */
    ghost method Record(before: State, e: Event)
      requires Run(INITIAL, history) == Some(before) && Next(before, e) == Some(Abs())
      modifies this`history
      ensures Valid() && history == old(history) + [e]
    {
      hide Next, Run, INITIAL;
      RunExtended(INITIAL, history, e);
      history := history + [e];
    }

    method Become(s: State)
      modifies this
      ensures Abs() == s && history == old(history) && schedule == old(schedule)
    {
      unsentRequestList, sentRequestList, servedRequestList, messageList := s.unsent, s.sent, s.served, s.messages;
      servedRequestListSemaphore, numRequestsInFlight := s.semaphore, s.inFlight;
      thread, connected, socketStream, log := s.thread, s.connected, s.link, LogOf(s);
    }

    /** One step of another thread or the server, if it can happen now. */
    method Other(e: Event)
      requires Valid()
      modifies this
      ensures Valid() && old(history) <= history && schedule == old(schedule)
      ensures Abs() == (if Next(old(Abs()), e).Some? then Next(old(Abs()), e).value else old(Abs()))
    {
      hide Next, Run, INITIAL;
      var next := Next(Abs(), e);
      if next.Some? {
        ghost var before := Abs();
        Become(next.value);
        Record(before, e);
      }
    }

    /** The next batch of the schedule: the others take those of its steps that can happen. */
    method Others(me: Side)
      requires Valid()
      modifies this
      ensures Valid() && old(history) <= history
      ensures |schedule| == (if |old(schedule)| == 0 then 0 else |old(schedule)| - 1)
      ensures old(schedule) == [] ==> Abs() == old(Abs())
      ensures me == CallerSide ==> CallerKeeps(old(Abs()), Abs())
      ensures me == ThreadSide ==> ThreadKeeps(old(Abs()), Abs())
    {
      hide Run, Next, CallerKeeps, ThreadKeeps, INITIAL, SideOf;
      ghost var before := Abs();
      KeepsCompose(before, before, before);
      if |schedule| == 0 {
        return;
      }
      var batch := schedule[0];
      schedule := schedule[1..];
      var i := 0;
      while i < |batch|
        invariant Valid() && old(history) <= history && schedule == old(schedule)[1..]
        invariant me == CallerSide ==> CallerKeeps(before, Abs())
        invariant me == ThreadSide ==> ThreadKeeps(before, Abs())
      {
        if SideOf(batch[i]) != me {
          ghost var now := Abs();
          Other(batch[i]);
          if Next(now, batch[i]).Some? {
            StepKeeps(now, batch[i], me);
          }
          KeepsCompose(before, now, Abs());
          KeepsCompose(now, now, now);
        }
        i := i + 1;
      }
    }

    /** The others' steps, as the calling thread sees them. */
    method Meanwhile()
      requires Valid()
      modifies this
      ensures Valid() && old(history) <= history && log == old(log)
      ensures unsentRequestList == old(unsentRequestList) && numRequestsInFlight == old(numRequestsInFlight)
      ensures socketStream.Some? <==> old(socketStream).Some?
      ensures socketStream.Some? ==> socketStream.value.moved == old(socketStream).value.moved
      ensures (connected ==> old(connected)) && (thread.NoThread? <==> old(thread).NoThread?)
      ensures old(thread).Exited? ==> thread.Exited?
      ensures old(servedRequestList) <= servedRequestList && old(messageList) <= messageList
      ensures forall r :: r in sentRequestList ==> r in old(sentRequestList)
      ensures |schedule| == (if |old(schedule)| == 0 then 0 else |old(schedule)| - 1)
      ensures old(schedule) == [] ==>
        servedRequestListSemaphore == old(servedRequestListSemaphore) && messageList == old(messageList)
      ensures old(schedule) == [] ==> thread == old(thread) && socketStream == old(socketStream)
    {
      hide Run, Next, INITIAL;
      Others(CallerSide);
    }

    // ----- making requests

    method BeginCall(commands: seq<Node>)
      requires Valid() && UserRuns(log.caller) && log.api.NoCall? && commands != []
      modifies this`log, this`history
      ensures Valid() && history == old(history) + [Make(commands)]
      ensures log == old(log).(api := Making(commands, 0, None), calls := old(log).calls + [commands])
    {
      hide Run, INITIAL;
      ghost var before := Abs();
      log := log.(api := Making(commands, 0, None), calls := log.calls + [commands]);
      Record(before, Make(commands));
    }

    /** Counts a new request; it is in the caller's hand. */
    method AllocRequest() returns (r: Request)
      requires Valid() && log.api.Making? && log.api.issuing.None? && log.api.rest != [] && log.calls != []
      modifies this`log, this`numRequestsInFlight, this`history
      ensures Valid() && history == old(history) + [Alloc]
      ensures log.calls == old(log).calls
      ensures r == Request(|old(log).issued|, |log.calls| - 1, old(log).api.index, old(log).api.rest[0])
      ensures numRequestsInFlight == old(numRequestsInFlight) + 1
      ensures log == old(log).(api := Making(old(log).api.rest[1..], old(log).api.index + 1, Some(r)),
        issued := old(log).issued + [r])
    {
      hide Run, INITIAL;
      ghost var before := Abs();
      numRequestsInFlight := numRequestsInFlight + 1;
      r := Request(|log.issued|, |log.calls| - 1, log.api.index, log.api.rest[0]);
      log := log.(api := Making(log.api.rest[1..], log.api.index + 1, Some(r)), issued := log.issued + [r]);
      Record(before, Alloc);
    }

    method AddUnsent(r: Request)
      requires Valid() && log.api.Making? && log.api.issuing == Some(r)
      modifies this`log, this`unsentRequestList, this`history
      ensures Valid() && history == old(history) + [Add]
      ensures unsentRequestList == old(unsentRequestList) + [r]
      ensures log == old(log).(api := old(log).api.(issuing := None))
    {
      hide Run, INITIAL;
      ghost var before := Abs();
      unsentRequestList := unsentRequestList + [r];
      log := log.(api := log.api.(issuing := None));
      Record(before, Add);
    }

    method EndCall()
      requires Valid() && log.api.Making? && log.api.issuing.None? && log.api.rest == []
      modifies this`log, this`history
      ensures Valid() && history == old(history) + [Return]
      ensures log == old(log).(api := NoCall)
    {
      hide Run, INITIAL;
      ghost var before := Abs();
      log := log.(api := NoCall);
      Record(before, Return);
    }

    method MakeOne(command: Node)
      requires Valid() && log.api.Making? && log.api.issuing.None? && log.api.rest != [] && log.api.rest[0] == command
        && log.calls != []
      modifies this
      ensures Valid() && old(history) <= history && Onward(old(Abs()), Abs())
      ensures log.calls == old(log).calls
      ensures var r := Request(|old(log).issued|, |log.calls| - 1, old(log).api.index, command);
        && log == old(log).(api := Making(old(log).api.rest[1..], old(log).api.index + 1, None),
             issued := old(log).issued + [r])
        && unsentRequestList == old(unsentRequestList) + [r]
      ensures numRequestsInFlight == old(numRequestsInFlight) + 1
      ensures |schedule| <= |old(schedule)|
      ensures old(schedule) == [] ==>
        servedRequestListSemaphore == old(servedRequestListSemaphore) && messageList == old(messageList)
    {
      hide Run, Next, INITIAL, Onward;
      Others(CallerSide);
      ghost var now := Abs();
      var r := AllocRequest();
      OnwardComposes(old(Abs()), now, Abs());
      now := Abs();
      Others(CallerSide);
      OnwardComposes(old(Abs()), now, Abs());
      now := Abs();
      AddUnsent(r);
      OnwardComposes(old(Abs()), now, Abs());
    }

    /** The requests of one call join the unsent list in order, whatever else goes on. */
    method MakeCall(commands: seq<Node>)
      requires Valid() && UserRuns(log.caller) && log.api.NoCall? && commands != []
      modifies this
      ensures Valid() && old(history) <= history
      ensures unsentRequestList == old(unsentRequestList) + NewRequests(commands, |old(log).calls|, |old(log).issued|)
      ensures log == old(log).(calls := old(log).calls + [commands],
                               issued := old(log).issued + NewRequests(commands, |old(log).calls|, |old(log).issued|))
      ensures numRequestsInFlight == old(numRequestsInFlight) + |commands|
      ensures Onward(old(Abs()), Abs())
      ensures |schedule| <= |old(schedule)|
      ensures old(schedule) == [] ==>
        servedRequestListSemaphore == old(servedRequestListSemaphore) && messageList == old(messageList)
    {
      hide Run, Next, INITIAL, Onward, UserRuns;
      ghost var all := NewRequests(commands, |log.calls|, |log.issued|);
      ghost var now := Abs();
      OnwardComposes(now, now, now);
      BeginCall(commands);
      OnwardComposes(now, now, Abs());
      var i := 0;
      while i < |commands|
        invariant 0 <= i <= |commands|
        invariant Valid() && old(history) <= history && Onward(old(Abs()), Abs())
        invariant log == old(log).(api := Making(commands[i..], i, None), calls := old(log).calls + [commands],
                                   issued := old(log).issued + all[..i])
        invariant unsentRequestList == old(unsentRequestList) + all[..i]
        invariant numRequestsInFlight == old(numRequestsInFlight) + i
        invariant |schedule| <= |old(schedule)|
        invariant old(schedule) == [] ==>
          servedRequestListSemaphore == old(servedRequestListSemaphore) && messageList == old(messageList)
      {
        now := Abs();
        MakeOne(commands[i]);
        OnwardComposes(old(Abs()), now, Abs());
        assert commands[i..][0] == commands[i] && commands[i..][1..] == commands[i + 1..];
        assert all[..i + 1] == all[..i] + [all[i]];
        i := i + 1;
      }
      assert all[..|all|] == all;
      now := Abs();
      EndCall();
      OnwardComposes(old(Abs()), now, Abs());
    }

    method MakeRequestAsync(requestData: Node) returns (requestID: nat)
      requires Valid() && UserRuns(log.caller) && log.api.NoCall?
      modifies this
      ensures Valid() && old(history) <= history
      ensures requestID == |old(log).issued|
      ensures unsentRequestList == old(unsentRequestList) + [Request(requestID, |old(log).calls|, 0, requestData)]
      ensures log.calls == old(log).calls + [[requestData]]
      ensures numRequestsInFlight == old(numRequestsInFlight) + 1
    {
      hide Run, Next, INITIAL, Onward, UserRuns;
      requestID := |log.issued|;
      MakeCall([requestData]);
      assert NewRequests([requestData], |old(log).calls|, requestID) ==
        [Request(requestID, |old(log).calls|, 0, requestData)];
    }

    /** MULTI, the commands and EXEC join the unsent list one after another. */
    method MakeTransactionRequestAsync(requestDataArray: seq<Node>)
      requires Valid() && UserRuns(log.caller) && log.api.NoCall?
      modifies this
      ensures Valid() && old(history) <= history
      ensures unsentRequestList == old(unsentRequestList)
        + NewRequests([Command(MULTI)] + requestDataArray + [Command(EXEC)], |old(log).calls|, |old(log).issued|)
      ensures log.calls == old(log).calls + [[Command(MULTI)] + requestDataArray + [Command(EXEC)]]
      ensures numRequestsInFlight == old(numRequestsInFlight) + |requestDataArray| + 2
    {
      hide Run, Next, INITIAL, Onward, UserRuns, Command;
      MakeCall([Command(MULTI)] + requestDataArray + [Command(EXEC)]);
    }

    // ----- cancelling

    method BeginCancel(id: nat)
      requires Valid() && UserRuns(log.caller) && log.api.NoCall?
      modifies this`log, this`history
      ensures Valid() && history == old(history) + [Cancel(id)]
      ensures log == old(log).(api := Cancelling(id, 0))
    {
      hide Run, INITIAL;
      ghost var before := Abs();
      log := log.(api := Cancelling(id, 0));
      Record(before, Cancel(id));
    }

    /** A request found on the unsent list goes. */
    method CancelUnsent(id: nat, stage: nat) returns (found: bool)
      requires Valid() && log.api == Cancelling(id, stage) && (stage == 0 || stage == 3)
      modifies this`log, this`unsentRequestList, this`numRequestsInFlight, this`history
      ensures Valid() && history == old(history) + [CancelStep]
      ensures Abs() == CancelStepped(old(Abs()), id, stage) && log.caller == old(log).caller
      ensures log.api == (if found || stage == 5 then NoCall else Cancelling(id, stage + 1))
      ensures found ==> Stopped(log, id)
      ensures found <==> On(old(unsentRequestList), id)
      ensures !found ==> unsentRequestList == old(unsentRequestList)
      ensures !found ==> log.cancelled == old(log).cancelled && log.silenced == old(log).silenced
      ensures numRequestsInFlight + |log.cancelled| == old(numRequestsInFlight) + |old(log).cancelled|
    {
      hide Run, INITIAL, Requests, IndexOf, UserRuns;
      ghost var before := Abs();
      var k := IndexOf(unsentRequestList, id);
      found := k < |unsentRequestList|;
      IndexFinds(unsentRequestList, id);
      if found {
        log := log.(api := NoCall, cancelled := log.cancelled + [unsentRequestList[k]]);
        unsentRequestList := unsentRequestList[..k] + unsentRequestList[k + 1..];
        numRequestsInFlight := numRequestsInFlight - 1;
        assert log.cancelled[|log.cancelled| - 1].id == id;
      } else {
        log := log.(api := Cancelling(id, stage + 1));
      }
      Record(before, CancelStep);
    }

    /** A request found on the sent or the served list only loses its callback. */
    method CancelLater(id: nat, stage: nat) returns (found: bool)
      requires Valid() && log.api == Cancelling(id, stage) && stage in {1, 2, 4, 5}
      modifies this`log, this`history
      ensures Valid() && history == old(history) + [CancelStep]
      ensures Abs() == CancelStepped(old(Abs()), id, stage) && log.caller == old(log).caller
      ensures log.api == (if found || stage == 5 then NoCall else Cancelling(id, stage + 1))
      ensures found ==> Stopped(log, id)
      ensures found <==> On(if stage == 1 || stage == 4 then sentRequestList else Requests(servedRequestList), id)
      ensures !found ==> log.cancelled == old(log).cancelled && log.silenced == old(log).silenced
      ensures numRequestsInFlight + |log.cancelled| == old(numRequestsInFlight) + |old(log).cancelled|
    {
      hide Run, INITIAL, Requests, IndexOf, UserRuns;
      ghost var before := Abs();
      var list := if stage == 1 || stage == 4 then sentRequestList else Requests(servedRequestList);
      found := IndexOf(list, id) < |list|;
      IndexFinds(list, id);
      if found {
        log := log.(api := NoCall, silenced := log.silenced + {id});
      } else {
        log := log.(api := if stage == 5 then NoCall else Cancelling(id, stage + 1));
      }
      Record(before, CancelStep);
    }

    /** Two rounds of looks. The request is found exactly when it was unsent at the call, or is on the sent
        or the served list at the end. One that is not found is in the hand of the reception thread, in
        its callback, done or gone. */
    method CancelAsyncRequest(requestID: nat) returns (found: bool)
      requires Valid() && UserRuns(log.caller) && log.api.NoCall?
      modifies this
      ensures Valid() && old(history) <= history && log.api.NoCall? && log.caller == old(log).caller
      ensures found <==>
        On(old(unsentRequestList), requestID) || On(sentRequestList, requestID)
          || On(Requests(servedRequestList), requestID)
      ensures !found ==> forall r :: r in log.issued && r.id == requestID ==>
        r in log.cancelled || r in log.purged || r in Requests(log.delivered) || r in Requests(Called(log.caller))
          || r in Requests(Held(thread))
      ensures found ==> Stopped(log, requestID)
      ensures !found ==> log.cancelled == old(log).cancelled && log.silenced == old(log).silenced
      ensures numRequestsInFlight + |log.cancelled| == old(numRequestsInFlight) + |old(log).cancelled|
    {
      hide *;
      BeginCancel(requestID);
      var stage := 0;
      found := false;
      while stage < 6 && !found
        invariant 0 <= stage <= 6 && Valid() && old(history) <= history && log.caller == old(log).caller
        invariant log.api == if found || stage == 6 then NoCall else Cancelling(requestID, stage)
        invariant found ==> Stopped(log, requestID)
        invariant found ==>
          On(old(unsentRequestList), requestID) || On(sentRequestList, requestID)
            || On(Requests(servedRequestList), requestID)
        invariant !found ==> unsentRequestList == old(unsentRequestList)
        invariant !found && stage >= 1 ==> !On(old(unsentRequestList), requestID)
        invariant !found && stage >= 2 ==> !On(sentRequestList, requestID)
        invariant !found && stage == 6 ==> !On(Requests(servedRequestList), requestID)
        invariant !found ==> log.cancelled == old(log).cancelled && log.silenced == old(log).silenced
        invariant numRequestsInFlight + |log.cancelled| == old(numRequestsInFlight) + |old(log).cancelled|
      {
        ghost var sent := sentRequestList;
        Meanwhile();
        OnFewer(sent, sentRequestList, requestID);
        if stage == 0 || stage == 3 {
          found := CancelUnsent(requestID, stage);
        } else {
          found := CancelLater(requestID, stage);
        }
        stage := stage + 1;
      }
      if !found {
        NotFound(requestID);
      }
    }

    lemma NotFound(id: nat)
      requires Valid() && UserRuns(log.caller) && log.api.NoCall?
      requires !On(unsentRequestList, id) && !On(sentRequestList, id) && !On(Requests(servedRequestList), id)
      ensures forall r :: r in log.issued && r.id == id ==>
        r in log.cancelled || r in log.purged || r in Requests(log.delivered) || r in Requests(Called(log.caller))
          || r in Requests(Held(thread))
    {
      hide Run, Next, INITIAL, On;
      forall r | r in log.issued && r.id == id
        ensures r in log.cancelled || r in log.purged || r in Requests(log.delivered)
          || r in Requests(Called(log.caller)) || r in Requests(Held(thread))
      {
        OnNoList(history, Abs(), id, r);
      }
    }

    // ----- the loops of Update

    method TakeUnsent() returns (request: Request)
      requires Valid() && log.api.NoCall? && log.caller.Draining? && unsentRequestList != []
      modifies this`log, this`unsentRequestList, this`history
      ensures Valid() && history == old(history) + [Take]
      ensures request == old(unsentRequestList)[0] && unsentRequestList == old(unsentRequestList)[1..]
      ensures log == old(log).(caller := Moving(request))
    {
      hide Run, INITIAL;
      ghost var before := Abs();
      request := unsentRequestList[0];
      unsentRequestList := unsentRequestList[1..];
      log := log.(caller := Moving(request));
      Record(before, Take);
    }

    method AddToSent(request: Request)
      requires Valid() && log.api.NoCall? && log.caller == Moving(request) && socketStream.Some?
      modifies this`log, this`sentRequestList, this`socketStream, this`history
      ensures Valid() && history == old(history) + [AddSent]
      ensures sentRequestList == old(sentRequestList) + [request] && log == old(log).(caller := Printing(request))
      ensures socketStream == Some(old(socketStream).value.(moved := old(socketStream).value.moved + [request]))
    {
      hide Run, INITIAL;
      ghost var before := Abs();
      sentRequestList := sentRequestList + [request];
      socketStream := Some(socketStream.value.(moved := socketStream.value.moved + [request]));
      log := log.(caller := Printing(request));
      Record(before, AddSent);
    }

    /** Writes the request out; whether that succeeds is not looked at. */
    method PrintRequest()
      requires Valid() && log.api.NoCall? && log.caller.Printing? && socketStream.Some?
      modifies this`log, this`socketStream, this`history
      ensures Valid() && history == old(history) + [Print]
      ensures log == old(log).(caller := Draining)
      ensures socketStream == Some(old(socketStream).value.(printed := old(socketStream).value.printed + 1))
    {
      hide Run, INITIAL;
      ghost var before := Abs();
      socketStream := Some(socketStream.value.(printed := socketStream.value.printed + 1));
      log := log.(caller := Draining);
      Record(before, Print);
    }

    method SetCaller(caller: Caller, e: Event)
      requires Valid() && Next(Abs(), e) == Some(Abs().(caller := caller))
      modifies this`log, this`history
      ensures Valid() && history == old(history) + [e] && log == old(log).(caller := caller)
    {
      hide Run, INITIAL, Next;
      ghost var before := Abs();
      log := log.(caller := caller);
      Record(before, e);
    }

    /** Notice the order: on the sent list before it is written. */
    method MoveOne()
      requires Valid() && log.api.NoCall? && log.caller.Draining? && socketStream.Some? && unsentRequestList != []
      modifies this
      ensures Valid() && old(history) <= history && log == old(log) && numRequestsInFlight == old(numRequestsInFlight)
      ensures unsentRequestList == old(unsentRequestList)[1..] && |schedule| <= |old(schedule)|
      ensures socketStream.Some?
        && socketStream.value.moved == old(socketStream).value.moved + [old(unsentRequestList)[0]]
    {
      hide Run, Next, INITIAL;
      var request := TakeUnsent();
      Meanwhile();
      AddToSent(request);
      Meanwhile();
      PrintRequest();
    }

    /** Moves every unsent request, in order, to the sent list and out. */
    method DrainUnsent()
      requires Valid() && log.api.NoCall? && log.caller.Draining? && socketStream.Some?
      modifies this
      ensures Valid() && old(history) <= history
      ensures log == old(log).(caller := Serving) && unsentRequestList == []
        && numRequestsInFlight == old(numRequestsInFlight)
      ensures socketStream.Some? && socketStream.value.moved == old(socketStream).value.moved + old(unsentRequestList)
      ensures |schedule| <= |old(schedule)|
    {
      hide Run, Next, INITIAL;
      while true
        invariant Valid() && old(history) <= history && log == old(log).(caller := Draining) && socketStream.Some?
        invariant numRequestsInFlight == old(numRequestsInFlight) && |schedule| <= |old(schedule)|
        invariant socketStream.value.moved + unsentRequestList == old(socketStream).value.moved + old(unsentRequestList)
        decreases |unsentRequestList|
      {
        Meanwhile();
        if |unsentRequestList| == 0 {
          break;
        }
        MoveOne();
      }
      DrainEnds(Abs());
      SetCaller(Serving, EndDrain);
    }

    /** What a user's callback asks for. */
    method MakeCalls(wanted: seq<seq<Node>>)
      requires Valid() && UserRuns(log.caller) && log.api.NoCall?
      modifies this
      ensures Valid() && old(history) <= history
      ensures log == old(log).(calls := old(log).calls + Nonempty(wanted), issued := log.issued)
      ensures Onward(old(Abs()), Abs()) && |schedule| <= |old(schedule)| && old(unsentRequestList) <= unsentRequestList
      ensures old(schedule) == [] ==>
        servedRequestListSemaphore == old(servedRequestListSemaphore) && messageList == old(messageList)
    {
      hide Run, Next, INITIAL, Onward, UserRuns, Nonempty;
      NonemptyEnds(wanted);
      ghost var now := Abs();
      OnwardComposes(now, now, now);
      var i := 0;
      while i < |wanted|
        invariant Valid() && old(history) <= history
        invariant 0 <= i <= |wanted|
          && log == old(log).(calls := old(log).calls + Nonempty(wanted[..i]), issued := log.issued)
        invariant Onward(old(Abs()), Abs()) && |schedule| <= |old(schedule)|
          && old(unsentRequestList) <= unsentRequestList
        invariant old(schedule) == [] ==>
          servedRequestListSemaphore == old(servedRequestListSemaphore) && messageList == old(messageList)
      {
        NonemptyMore(wanted, i);
        if wanted[i] != [] {
          now := Abs();
          MakeCall(wanted[i]);
          OnwardComposes(old(Abs()), now, Abs());
        }
        i := i + 1;
      }
    }

    method DecrementSemaphore()
      requires Valid() && log.api.NoCall? && log.caller.Serving? && numRequestsInFlight > 0
        && servedRequestListSemaphore > 0
      modifies this`log, this`servedRequestListSemaphore, this`history
      ensures Valid() && history == old(history) + [Decrement] && log == old(log).(caller := Popping)
      ensures servedRequestListSemaphore == old(servedRequestListSemaphore) - 1
    {
      hide Run, INITIAL;
      ghost var before := Abs();
      servedRequestListSemaphore := servedRequestListSemaphore - 1;
      log := log.(caller := Popping);
      Record(before, Decrement);
    }

    /** The head of the served list; that there is one is what the semaphore is for. */
    method PopServed() returns (served: Served)
      requires Valid() && log.caller.Popping?
      modifies this`log, this`servedRequestList, this`history
      ensures Valid() && history == old(history) + [Pop] && log == old(log).(caller := CallingBack(served))
      ensures old(servedRequestList) == [served] + servedRequestList
    {
      hide Run, INITIAL, Next;
      ghost var before := Abs();
      PopFindsRequest(history);
      served := servedRequestList[0];
      servedRequestList := servedRequestList[1..];
      log := log.(caller := CallingBack(served));
      Record(before, Pop);
    }

    method FinishRequest()
      requires Valid() && log.api.NoCall? && log.caller.CallingBack?
      modifies this`log, this`numRequestsInFlight, this`history
      ensures Valid() && history == old(history) + [Finish]
      ensures log == old(log).(caller := Serving, delivered := old(log).delivered + [old(log).caller.served])
      ensures numRequestsInFlight == old(numRequestsInFlight) - 1
    {
      hide Run, INITIAL;
      ghost var before := Abs();
      log := log.(caller := Serving, delivered := log.delivered + [log.caller.served]);
      numRequestsInFlight := numRequestsInFlight - 1;
      Record(before, Finish);
    }

    /** Waits for the semaphore and takes what it promises. */
    method NextServed() returns (served: Option<Served>)
      requires Valid() && log.api.NoCall? && log.caller.Serving? && socketStream.Some?
      modifies this
      ensures Valid() && old(history) <= history
      ensures log == old(log).(caller := if served.Some? then CallingBack(served.value) else Serving)
      ensures unsentRequestList == old(unsentRequestList) && numRequestsInFlight == old(numRequestsInFlight)
      ensures socketStream.Some? && socketStream.value.moved == old(socketStream).value.moved
      ensures |schedule| <= |old(schedule)|
      ensures served.Some? && old(schedule) == [] ==> servedRequestListSemaphore < old(servedRequestListSemaphore)
      ensures served.Some? && old(schedule) != [] ==> |schedule| < |old(schedule)|
    {
      hide *;
      Meanwhile();
      if numRequestsInFlight <= 0 || servedRequestListSemaphore == 0 {
        return None;
      }
      DecrementSemaphore();
      Meanwhile();
      var head := PopServed();
      return Some(head);
    }

    /** One turn of the loop that serves requests. */
    method ServeOne() returns (more: bool)
      requires Valid() && log.api.NoCall? && log.caller.Serving? && socketStream.Some?
      modifies this
      ensures Valid() && old(history) <= history && Serviced(old(Abs()), Abs()) && log.caller.Serving?
      ensures more ==> |log.delivered| == |old(log).delivered| + 1
      ensures more ==>
        var served := log.delivered[|old(log).delivered|];
        log.calls == old(log).calls + (if served.request.id in log.silenced then [] else Nonempty(onResponse(served)))
      ensures !more ==> log == old(log)
      ensures |schedule| <= |old(schedule)|
      ensures more && old(schedule) == [] ==> servedRequestListSemaphore < old(servedRequestListSemaphore)
      ensures more && old(schedule) != [] ==> |schedule| < |old(schedule)|
    {
      hide Run, Next, INITIAL, Nonempty;
      var next := NextServed();
      if next.None? {
        return false;
      }
      var served := next.value;
      if served.request.id !in log.silenced {
        MakeCalls(onResponse(served));
      }
      FinishRequest();
      return true;
    }

    method ServeRequests()
      requires Valid() && log.api.NoCall? && log.caller.Serving? && socketStream.Some?
      modifies this
      ensures Valid() && old(history) <= history && Serviced(old(Abs()), Abs()) && log.caller.Telling?
      ensures |schedule| <= |old(schedule)|
    {
      hide Run, Next, INITIAL, Serviced;
      ServicedComposes(Abs(), Abs(), Abs());
      ghost var now := Abs();
      var more := true;
      while more
        invariant Valid() && old(history) <= history && Serviced(old(Abs()), Abs()) && log.caller.Serving?
        invariant log.api.NoCall? && socketStream.Some? && |schedule| <= |old(schedule)|
        decreases more, |schedule|, servedRequestListSemaphore
      {
        now := Abs();
        more := ServeOne();
        ServicedComposes(old(Abs()), now, Abs());
      }
      now := Abs();
      ServeEnds(now);
      SetCaller(Telling, EndServe);
      ServicedComposes(old(Abs()), now, Abs());
    }

    method TellOne() returns (more: bool)
      requires Valid() && log.api.NoCall? && log.caller.Telling? && socketStream.Some?
      modifies this
      ensures Valid() && old(history) <= history && Serviced(old(Abs()), Abs())
      ensures log.caller == (if more then Telling else Idle)
      ensures more ==> |log.told| == |old(log).told| + 1
      ensures more ==>
        log.calls == old(log).calls + Nonempty(onMessage(log.told[|old(log).told|]))
      ensures !more ==> log == old(log).(caller := Idle)
      ensures |schedule| <= |old(schedule)|
      ensures more && old(schedule) == [] ==> |messageList| < |old(messageList)|
      ensures more && old(schedule) != [] ==> |schedule| < |old(schedule)|
    {
      hide Run, Next, INITIAL, Nonempty;
      Meanwhile();
      if |messageList| == 0 {
        TellEnds(Abs());
        SetCaller(Idle, EndUpdate);
        return false;
      }
      var message := RemoveMessage();
      MakeCalls(onMessage(message));
      return true;
    }

    method RemoveMessage() returns (message: Datum)
      requires Valid() && log.api.NoCall? && log.caller.Telling? && messageList != []
      modifies this`log, this`messageList, this`history
      ensures Valid() && history == old(history) + [Tell]
      ensures old(messageList) == [message] + messageList && log == old(log).(told := old(log).told + [message])
    {
      hide Run, INITIAL;
      ghost var before := Abs();
      message := messageList[0];
      messageList := messageList[1..];
      log := log.(told := log.told + [message]);
      Record(before, Tell);
    }

    method TellMessages()
      requires Valid() && log.api.NoCall? && log.caller.Telling? && socketStream.Some?
      modifies this
      ensures Valid() && old(history) <= history && Serviced(old(Abs()), Abs()) && log.caller.Idle?
      ensures |schedule| <= |old(schedule)|
    {
      hide Run, Next, INITIAL, Serviced;
      ServicedComposes(Abs(), Abs(), Abs());
      ghost var now := Abs();
      var more := true;
      while more
        invariant Valid() && old(history) <= history && Serviced(old(Abs()), Abs())
        invariant log.caller == if more then Telling else Idle
        invariant log.api.NoCall? && socketStream.Some? && |schedule| <= |old(schedule)|
        decreases more, |schedule|, |messageList|
      {
        now := Abs();
        more := TellOne();
        ServicedComposes(old(Abs()), now, Abs());
      }
    }

    // ----- the connection

    method ConnectStream()
      requires Valid() && log.api.NoCall? && log.caller.Idle? && socketStream.None?
      modifies this`socketStream, this`connected, this`history
      ensures Valid() && history == old(history) + [Connect] && socketStream == Some(NEW_LINK)
    {
      hide Run, INITIAL;
      ghost var before := Abs();
      socketStream, connected := Some(NEW_LINK), true;
      Record(before, Connect);
    }

    method SetThread(next: Thread, e: Event)
      requires Valid() && Next(Abs(), e) == Some(Abs().(thread := next))
      modifies this`thread, this`history
      ensures Valid() && history == old(history) + [e] && thread == next
    {
      hide Run, INITIAL, Next;
      ghost var before := Abs();
      thread := next;
      Record(before, e);
    }

    /** Gives up the connection; what is on the sent list goes with it, and stays counted. */
    method PurgeSent()
      requires Valid() && log.api.NoCall? && log.caller.Idle? && socketStream.Some? && !connected
      requires thread.NoThread? || thread.Exited?
      modifies this`socketStream, this`sentRequestList, this`log, this`history
      ensures Valid() && history == old(history) + [Purge] && socketStream.None? && sentRequestList == []
      ensures log == old(log).(purged := old(log).purged + old(sentRequestList), past := log.past)
      ensures log.past == old(log).past + [old(socketStream).value.(lost := old(sentRequestList))]
    {
      hide Run, INITIAL;
      ghost var before := Abs();
      log := log.(past := log.past + [socketStream.value.(lost := sentRequestList)],
        purged := log.purged + sentRequestList);
      socketStream, sentRequestList := None, [];
      Record(before, Purge);
    }

    /** Waits for the reception thread, which finishes what it is doing and then finds the connection
        gone. */
    method AwaitThreadExit()
      requires Valid() && !thread.NoThread? && !connected
      modifies this
      ensures Valid() && old(history) <= history && log == old(log) && unsentRequestList == old(unsentRequestList)
      ensures numRequestsInFlight == old(numRequestsInFlight)
      ensures thread.Exited? && !connected && (socketStream.Some? <==> old(socketStream).Some?)
    {
      hide Run, Next, INITIAL, CallerKeeps, Orderly;
      while !thread.Exited?
        invariant Valid() && old(history) <= history && log == old(log) && unsentRequestList == old(unsentRequestList)
        invariant numRequestsInFlight == old(numRequestsInFlight) && !thread.NoThread?
        invariant !connected && (socketStream.Some? <==> old(socketStream).Some?)
        decreases |schedule|, Rank(thread)
      {
        Meanwhile();
        if !thread.Exited? {
          ThreadMoves();
        }
      }
    }

    /** The reception thread's next step once the connection is gone. */
    method ThreadMoves()
      requires Valid() && !thread.NoThread? && !thread.Exited? && !connected
      modifies this
      ensures Valid() && old(history) <= history && log == old(log) && unsentRequestList == old(unsentRequestList)
      ensures numRequestsInFlight == old(numRequestsInFlight) && !thread.NoThread? && Rank(thread) < Rank(old(thread))
      ensures !connected && (socketStream.Some? <==> old(socketStream).Some?) && schedule == old(schedule)
    {
      hide Run, Next, INITIAL;
      ghost var before := Abs();
      ThreadCanMove(history, before);
      OthersLeaveTheCaller(before, ThreadEvent(thread));
      Other(ThreadEvent(thread));
    }

    method ReapThread()
      requires Valid() && log.api.NoCall? && log.caller.Idle? && thread.Exited?
      modifies this`thread, this`history
      ensures Valid() && history == old(history) + [Reap] && thread.NoThread?
    {
      hide Run, INITIAL, Next;
      ReapIs(Abs());
      SetThread(NoThread, Reap);
    }

    method SpawnThread()
      requires Valid() && log.api.NoCall? && log.caller.Idle? && thread.NoThread? && socketStream.Some?
      modifies this`thread, this`socketStream, this`history
      ensures Valid() && history == old(history) + [Spawn] && thread.Waiting?
      ensures socketStream == Some(old(socketStream).value.(errno := false))
    {
      hide Run, INITIAL, Next;
      ghost var before := Abs();
      SpawnIs(before);
      thread := Waiting;
      socketStream := Some(socketStream.value.(errno := false));
      Record(before, Spawn);
    }

    method StartDraining()
      requires Valid() && log.api.NoCall? && log.caller.Idle? && socketStream.Some? && !thread.NoThread?
        && !thread.Exited?
      modifies this`log, this`history
      ensures Valid() && history == old(history) + [StartDrain] && log == old(log).(caller := Draining)
    {
      hide Run, INITIAL, Next;
      StartIs(Abs());
      SetCaller(Draining, StartDrain);
    }

    /** The purge happens only when the reception thread has ended. */
    method LoseConnection()
      requires Valid() && log.api.NoCall? && log.caller.Idle? && socketStream.Some? && !connected
      modifies this
      ensures Valid() && old(history) <= history && unsentRequestList == old(unsentRequestList)
      ensures numRequestsInFlight == old(numRequestsInFlight) && socketStream.None?
      ensures log == old(log).(past := log.past, purged := log.purged)
    {
      hide *;
      if !thread.NoThread? && !thread.Exited? {
        AwaitThreadExit();
        ReapThread();
      }
      PurgeSent();
    }

    /** Opens a connection; while it stands the user's post-connect callback runs, and may make requests. */
    method OpenConnection()
      requires Valid() && log.api.NoCall? && log.caller.Idle? && socketStream.None?
      modifies this
      ensures Valid() && old(history) <= history && socketStream.Some? && old(unsentRequestList) <= unsentRequestList
      ensures log == old(log).(calls := log.calls, issued := log.issued)
      ensures log.calls == old(log).calls || log.calls == old(log).calls + Nonempty(onConnect)
    {
      hide Run, Next, INITIAL, Nonempty;
      ConnectStream();
      Meanwhile();
      if connected {
        MakeCalls(onConnect);
      }
    }

    /** The part of `Update` that sees to the connection and the thread. `paused`: a failed attempt was
        not long ago. `checkout`, `spawned`: whether a connection and a thread can be had. */
    method Prepare(paused: bool, checkout: bool, spawned: bool) returns (ready: bool)
      requires Valid() && log.api.NoCall? && log.caller.Idle?
      modifies this
      ensures Valid() && old(history) <= history && old(unsentRequestList) <= unsentRequestList
      ensures log == old(log).(caller := log.caller, past := log.past, purged := log.purged,
                               calls := log.calls, issued := log.issued)
      ensures log.calls == old(log).calls
        || (old(socketStream).None? && log.calls == old(log).calls + Nonempty(onConnect))
      ensures old(socketStream).Some? || paused || !checkout ==>
        log.calls == old(log).calls && unsentRequestList == old(unsentRequestList)
          && numRequestsInFlight == old(numRequestsInFlight)
      ensures if ready then log.caller.Draining? && socketStream.Some? && log.purged == old(log).purged
        else log.caller.Idle?
    {
      hide *;
      if paused {
        return false;
      }
      if socketStream.None? {
        if !checkout {
          return false;
        }
        OpenConnection();
      }
      Meanwhile();
      if !connected {
        LoseConnection();
        return false;
      }
      if thread.NoThread? {
        if !spawned {
          return false;
        }
        SpawnThread();
      }
      Meanwhile();
      if thread.Exited? {
        ReapThread();
        return false;
      }
      StartDraining();
      return true;
    }

    /** An update that does not fail has put every request that was unsent on the sent list of the
        current connection; one that fails has left them all unsent, and made requests only if it opened
        a connection. */
    method Update(paused: bool, checkout: bool, spawned: bool) returns (ok: bool)
      requires Valid() && log.api.NoCall? && log.caller.Idle?
      modifies this
      ensures Valid() && old(history) <= history && log.api.NoCall? && log.caller.Idle?
      ensures ok ==> socketStream.Some? && log.purged == old(log).purged
      ensures ok ==> forall r :: r in old(unsentRequestList) ==> r in socketStream.value.moved
      ensures !ok ==> old(unsentRequestList) <= unsentRequestList && log.delivered == old(log).delivered
      ensures !ok && (old(socketStream).Some? || paused || !checkout) ==>
        unsentRequestList == old(unsentRequestList) && log.calls == old(log).calls
    {
      hide Run, Next, INITIAL;
      ok := Prepare(paused, checkout, spawned);
      if ok {
        DrainUnsent();
        ServeRequests();
        TellMessages();
      }
    }

    /** True only when everything ever issued has been delivered or cancelled, and nothing purged. */
    method Flush(attempts: seq<(bool, bool, bool)>) returns (done: bool)
      requires Valid() && log.api.NoCall? && log.caller.Idle?
      modifies this
      ensures Valid() && old(history) <= history && log.api.NoCall? && log.caller.Idle?
      ensures done ==> log.purged == [] && Requests(log.delivered) == Without(log.issued, log.cancelled)
    {
      hide Run, Next, INITIAL, Without, Requests;
      var i := 0;
      while numRequestsInFlight > 0
        invariant 0 <= i <= |attempts| && Valid() && old(history) <= history && log.api.NoCall? && log.caller.Idle?
        decreases |attempts| - i
      {
        if i == |attempts| {
          return false;
        }
        var ok := Update(attempts[i].0, attempts[i].1, attempts[i].2);
        i := i + 1;
      }
      FlushedExactlyWhen(history);
      return true;
    }

    // ----- the reception thread

    /** Parses what has arrived, from where it stopped reading. */
    method ParseOne() returns (d: Datum)
      requires Valid() && thread.Waiting? && connected && socketStream.Some? && Reading(socketStream.value).Ok?
      modifies this`thread, this`socketStream, this`history
      ensures Valid() && history == old(history) + [Parse] && thread == Parsed(d)
      ensures var l := old(socketStream).value;
        && d == Datum(Reading(l).value, l.consumed, Reading(l).pos) && d.from < d.to <= |Incoming(l.sendings)|
        && socketStream == Some(l.(consumed := d.to, errno := Reading(l).errno, arrived := l.arrived + [d]))
    {
      hide Run, INITIAL, Reading, Incoming;
      ghost var before := Abs();
      var l := socketStream.value;
      PipelineServer.ReadingAdvances(l);
      var reading := Reading(l);
      d := Datum(reading.value, l.consumed, reading.pos);
      socketStream := Some(l.(consumed := d.to, errno := reading.errno, arrived := l.arrived + [d]));
      thread := Parsed(d);
      Record(before, Parse);
    }

    /** A parse that fails uses up some of what has arrived, and ends the thread; the connection may go on. */
    method FailToParse(to: nat)
      requires Valid() && thread.Waiting? && socketStream.Some? && !(connected && Reading(socketStream.value).Ok?)
      requires socketStream.value.consumed <= to <= |Incoming(socketStream.value.sendings)|
      modifies this`thread, this`socketStream, this`history
      ensures Valid() && history == old(history) + [Fail(to)] && thread.Exited?
      ensures var l := old(socketStream).value;
        socketStream == Some(l.(consumed := to, failed := l.failed + [Gap(l.consumed, to)]))
    {
      hide Run, INITIAL, Reading, Incoming;
      ghost var before := Abs();
      var l := socketStream.value;
      socketStream := Some(l.(consumed := to, failed := l.failed + [Gap(l.consumed, to)]));
      thread := Exited;
      Record(before, Fail(to));
    }

    /** A message joins the message list; a response takes the request at the head of the sent list. */
    method DispatchOne(d: Datum) returns (served: Option<Served>)
      requires Valid() && thread == Parsed(d) && socketStream.Some?
      modifies this`thread, this`socketStream, this`messageList, this`sentRequestList, this`history
      ensures Valid() && history == old(history) + [Dispatch] && socketStream.Some?
      ensures var l := old(socketStream).value;
        socketStream == Some(l.(dropped := socketStream.value.dropped, taken := socketStream.value.taken))
      ensures IsMessage(d.node) ==> messageList == old(messageList) + [d] && sentRequestList == old(sentRequestList)
      ensures !IsMessage(d.node) && old(sentRequestList) != [] ==>
        served == Some(Served(old(sentRequestList)[0], d)) && sentRequestList == old(sentRequestList)[1..]
      ensures !IsMessage(d.node) && old(sentRequestList) == [] ==>
        served == None && socketStream.value.dropped == old(socketStream).value.dropped + [d]
      ensures match served
              case Some(x) => thread == Holding(x) && socketStream.value.taken == old(socketStream).value.taken + [x]
              case None => thread == Waiting && socketStream.value.taken == old(socketStream).value.taken
    {
      hide Run, INITIAL, IsMessage;
      ghost var before := Abs();
      var l := socketStream.value;
      served := None;
      thread := Waiting;
      if IsMessage(d.node) {
        messageList := messageList + [d];
      } else if |sentRequestList| == 0 {
        socketStream := Some(l.(dropped := l.dropped + [d]));
      } else {
        var x := Served(sentRequestList[0], d);
        sentRequestList := sentRequestList[1..];
        socketStream := Some(l.(taken := l.taken + [x]));
        thread := Holding(x);
        served := Some(x);
      }
      Record(before, Dispatch);
    }

    method PutOnServed(x: Served)
      requires Valid() && thread == Holding(x) && socketStream.Some?
      modifies this`thread, this`servedRequestList, this`history
      ensures Valid() && history == old(history) + [PutServed]
      ensures servedRequestList == old(servedRequestList) + [x] && thread == Signalling
    {
      hide Run, INITIAL;
      ghost var before := Abs();
      servedRequestList := servedRequestList + [x];
      thread := Signalling;
      Record(before, PutServed);
    }

    method SignalServed()
      requires Valid() && thread.Signalling? && socketStream.Some?
      modifies this`thread, this`servedRequestListSemaphore, this`history
      ensures Valid() && history == old(history) + [Signal]
      ensures servedRequestListSemaphore == old(servedRequestListSemaphore) + 1 && thread.Waiting?
    {
      hide Run, INITIAL;
      ghost var before := Abs();
      servedRequestListSemaphore := servedRequestListSemaphore + 1;
      thread := Waiting;
      Record(before, Signal);
    }

    /** The others' steps, as the reception thread sees them; the connection stays while it runs. */
    method MeanwhileThread()
      requires Valid() && !thread.NoThread? && !thread.Exited?
      modifies this
      ensures Valid() && old(history) <= history && thread == old(thread) && socketStream.Some?
      ensures |schedule| == (if |old(schedule)| == 0 then 0 else |old(schedule)| - 1)
      ensures old(schedule) == [] ==> socketStream == old(socketStream)
    {
      hide Run, Next, INITIAL, InOrder, MovedInOrder, Matched, Counted, SemaphoreAgrees;
      Others(ThreadSide);
      OrderlyAlways(history);
    }

    /** Deals with one datum, with the others' steps in between. */
    method Receive()
      requires Valid() && thread.Waiting? && connected && socketStream.Some? && Reading(socketStream.value).Ok?
      modifies this
      ensures Valid() && old(history) <= history && thread.Waiting? && socketStream.Some?
      ensures |schedule| <= |old(schedule)|
      ensures old(schedule) == [] ==>
        && socketStream.value.sendings == old(socketStream).value.sendings
        && old(socketStream).value.consumed < socketStream.value.consumed <= |Incoming(socketStream.value.sendings)|
    {
      hide *;
      var d := ParseOne();
      MeanwhileThread();
      var served := DispatchOne(d);
      if served.Some? {
        MeanwhileThread();
        PutOnServed(served.value);
        MeanwhileThread();
        SignalServed();
      }
    }

    /** No more is read than has been sent. */
    lemma ReadWithinSent()
      requires Valid() && socketStream.Some?
      ensures socketStream.value.consumed <= |Incoming(socketStream.value.sendings)|
    {
      hide Run, INITIAL, Incoming, Next;
      PipelineServer.BytesAreAccounted(history, socketStream.value);
    }

    /** How much of what the server has sent is still to be read. */
    function Unread(): nat
      reads this
    {
      if socketStream.Some? && socketStream.value.consumed <= |Incoming(socketStream.value.sendings)|
      then |Incoming(socketStream.value.sendings)| - socketStream.value.consumed else 0
    }

    /** The reception thread: it deals with what arrives until the connection is gone or a parse fails.
        `patience` says how often it goes on waiting when what has arrived is no value; then the parse has
        failed, and has used up `loss` bytes or all there are. */
    method ThreadFunc(patience: nat, loss: nat)
      requires Valid() && thread.Waiting?
      modifies this
      ensures Valid() && old(history) <= history && thread.Exited? && socketStream.Some?
      ensures connected ==> history != [] && history[|history| - 1].Fail?
    {
      hide Run, Next, INITIAL, Reading, Incoming;
      var left := patience;
      MeanwhileThread();
      while connected
        invariant Valid() && old(history) <= history && thread.Waiting? && socketStream.Some?
        decreases |schedule|, left, Unread()
      {
        if Reading(socketStream.value).Ok? {
          Receive();
        } else if left == 0 {
          ReadWithinSent();
          FailToParse(socketStream.value.consumed + if loss <= Unread() then loss else Unread());
          return;
        } else {
          left := left - 1;
        }
        MeanwhileThread();
      }
      ExitIs(Abs());
      SetThread(Exited, Exit);
    }
  }
}
