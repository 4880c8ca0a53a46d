/** Runs of the pipelined client in which a promise is not kept. */
module PipelineRuns {
  import opened Bytes
  import opened Protocol
  import opened MapOrder
  import opened Shapes
  import opened Codec
  import opened Pipeline
  import opened PipelineOrder
  import opened PipelineReadings
  import opened PipelineServer
  import opened PipelineAnswers

  lemma Extended(events: seq<Event>, s: State, e: Event, s': State)
    requires Run(INITIAL, events) == Some(s) && Next(s, e) == Some(s')
    ensures Run(INITIAL, events + [e]) == Some(s')
  {
    hide Next;
    RunExtended(INITIAL, events, e);
  }

  lemma ThreeSteps(events: seq<Event>, s0: State, e1: Event, s1: State, e2: Event, s2: State, e3: Event, s3: State)
    requires Run(INITIAL, events) == Some(s0) && Next(s0, e1) == Some(s1) && Next(s1, e2) == Some(s2)
      && Next(s2, e3) == Some(s3)
    ensures Run(INITIAL, events + [e1, e2, e3]) == Some(s3)
  {
    hide Next, Run, INITIAL;
    Extended(events, s0, e1, s1);
    Extended(events + [e1], s1, e2, s2);
    Extended(events + [e1] + [e2], s2, e3, s3);
    assert events + [e1] + [e2] + [e3] == events + [e1, e2, e3];
  }

  // ----- one request, and a connection that is lost

  /** The only request of a run. */
  function Lone(command: Node): Request {
    Request(0, 0, 0, command)
  }

  function IssueRun(command: Node): seq<Event> {
    [Make([command]), Alloc, Add, Return]
  }

  lemma Issues(command: Node)
    ensures Run(INITIAL, IssueRun(command)) ==
      Some(INITIAL.(unsent := [Lone(command)], inFlight := 1, calls := [[command]], issued := [Lone(command)]))
  {
    var r := Lone(command);
    var s1 := INITIAL.(api := Making([command], 0, None), calls := [[command]]);
    var s2 := s1.(api := Making([], 1, Some(r)), issued := [r], inFlight := 1);
    var s3 := s2.(api := Making([], 1, None), unsent := [r]);
    var s4 := s3.(api := NoCall);
    assert [] + [[command]] == [[command]] && [command][1..] == [] && [] + [r] == [r];
    Extended([], INITIAL, Make([command]), s1);
    Extended([] + [Make([command])], s1, Alloc, s2);
    Extended([] + [Make([command])] + [Alloc], s2, Add, s3);
    Extended([] + [Make([command])] + [Alloc] + [Add], s3, Return, s4);
    assert [] + [Make([command])] + [Alloc] + [Add] + [Return] == IssueRun(command);
  }

  function SendRun(command: Node): seq<Event> {
    IssueRun(command) + [Connect, Spawn, StartDrain, Take, AddSent, Print]
  }

  /** The connection with the request sent and written. */
  function SentLink(command: Node): Link {
    NEW_LINK.(moved := [Lone(command)], printed := 1)
  }

  /** The state while `Update` drains, with the request sent. */
  function SentState(command: Node): State {
    INITIAL.(caller := Draining, thread := Waiting, connected := true, link := Some(SentLink(command)),
      sent := [Lone(command)],
             inFlight := 1, calls := [[command]], issued := [Lone(command)])
  }

  lemma Starts(events: seq<Event>, s: State)
    requires Run(INITIAL, events) == Some(s) && s.caller.Idle? && s.api.NoCall? && s.link.None? && s.thread.NoThread?
    ensures Run(INITIAL, events + [Connect, Spawn, StartDrain]) ==
      Some(s.(caller := Draining, thread := Waiting, connected := true, link := Some(NEW_LINK)))
  {
    hide Run, INITIAL, NextOfInterface, NextOfDrain, NextOfService, NextOfThread, NextOfWorld;
    var s1 := s.(link := Some(NEW_LINK), connected := true);
    var s2 := s1.(thread := Waiting);
    ThreeSteps(events, s, Connect, s1, Spawn, s2, StartDrain, s2.(caller := Draining));
  }

  /** One turn of the loop that empties the unsent list. */
  lemma Moves(events: seq<Event>, s: State, r: Request, l: Link)
    requires Run(INITIAL, events) == Some(s) && s.caller.Draining? && s.api.NoCall? && s.link == Some(l)
      && s.unsent == [r]
    ensures Run(INITIAL, events + [Take, AddSent, Print]) ==
      Some(s.(unsent := [], sent := s.sent + [r], link := Some(l.(moved := l.moved + [r], printed := l.printed + 1))))
  {
    hide Run, INITIAL, NextOfInterface, NextOfConnection, NextOfService, NextOfThread, NextOfWorld;
    var s1 := s.(caller := Moving(r), unsent := []);
    var s2 := s1.(caller := Printing(r), sent := s.sent + [r], link := Some(l.(moved := l.moved + [r])));
    var s3 := s2.(caller := Draining, link := Some(l.(moved := l.moved + [r], printed := l.printed + 1)));
    assert [r][1..] == [];
    ThreeSteps(events, s, Take, s1, AddSent, s2, Print, s3);
  }

  /** The end of an update that finds nothing to serve. */
  lemma Finishes(events: seq<Event>, s: State)
    requires Run(INITIAL, events) == Some(s) && s.caller.Draining? && s.api.NoCall? && s.unsent == []
      && s.messages == []
    ensures Run(INITIAL, events + [EndDrain, EndServe, EndUpdate]) == Some(s.(caller := Idle))
  {
    hide Run, INITIAL, NextOfInterface, NextOfConnection, NextOfThread, NextOfWorld;
    ThreeSteps(events, s, EndDrain, s.(caller := Serving), EndServe, s.(caller := Telling), EndUpdate,
      s.(caller := Idle));
  }

  lemma Sends(command: Node)
    ensures Run(INITIAL, SendRun(command)) == Some(SentState(command))
  {
    hide IssueRun, Run, Next;
    var r, events := Lone(command), IssueRun(command);
    var s0 := INITIAL.(unsent := [r], inFlight := 1, calls := [[command]], issued := [r]);
    var s1 := s0.(caller := Draining, thread := Waiting, connected := true, link := Some(NEW_LINK));
    assert [] + [r] == [r];
    Issues(command);
    Starts(events, s0);
    Moves(events + [Connect, Spawn, StartDrain], s1, r, NEW_LINK);
    assert events + [Connect, Spawn, StartDrain] + [Take, AddSent, Print] == SendRun(command);
  }

  function LossRun(command: Node): seq<Event> {
    SendRun(command) + [EndDrain, EndServe, EndUpdate, Disconnect, Exit, Purge]
  }

  lemma Loses(events: seq<Event>, s: State, l: Link)
    requires Run(INITIAL, events) == Some(s) && s.caller.Idle? && s.api.NoCall? && s.link == Some(l)
      && s.thread.Waiting?
    ensures Run(INITIAL, events + [Disconnect, Exit, Purge]) ==
      Some(s.(connected := false, thread := Exited, link := None, sent := [], past := s.past + [l.(lost := s.sent)],
              purged := s.purged + s.sent))
  {
    hide Run, INITIAL, NextOfInterface, NextOfDrain, NextOfService;
    var s1 := s.(connected := false);
    var s2 := s1.(thread := Exited);
    var s3 := s2.(link := None, sent := [], past := s.past + [l.(lost := s.sent)], purged := s.purged + s.sent);
    ThreeSteps(events, s, Disconnect, s1, Exit, s2, Purge, s3);
  }

  /** A connection is lost with one request sent. Every list and hand is empty afterwards, but the
      request stays counted: `Flush` waits for it for ever. */
  lemma PurgeStaysCounted(command: Node)
    ensures Run(INITIAL, LossRun(command)).Some?
    ensures var s := Run(INITIAL, LossRun(command)).value;
      && Queue(s) == [] && s.sent == [] && Held(s.thread) == [] && s.served == [] && Called(s.caller) == []
      && s.purged == [Lone(command)] && s.inFlight == 1
  {
    hide SendRun, Run, Next;
    var events, s0, l := SendRun(command), SentState(command), SentLink(command);
    Sends(command);
    Finishes(events, s0);
    Loses(events + [EndDrain, EndServe, EndUpdate], s0.(caller := Idle), l);
    assert events + [EndDrain, EndServe, EndUpdate] + [Disconnect, Exit, Purge] == LossRun(command);
  }

  // ----- an answer that looks like a message

  /** An array that starts with the string "message", as a command may well return one. */
  const LOOKALIKE := Node(None, Aggregate(Array, [Node(None, Blob(BlobString, MESSAGE))]))

  /** "OK" */
  const PLAIN := Node(None, Text(SimpleString, [79, 75]))

  /** The request of the second call. */
  function Second(command: Node): Request {
    Request(1, 1, 0, command)
  }

  function BothLink(first: Node, second: Node): Link {
    NEW_LINK.(moved := [Lone(first), Second(second)], printed := 2)
  }

  function BothState(first: Node, second: Node): State {
    SentState(first).(link := Some(BothLink(first, second)), sent := [Lone(first), Second(second)], inFlight := 2,
                      calls := [[first], [second]], issued := [Lone(first), Second(second)])
  }

  function BothRun(first: Node, second: Node): seq<Event> {
    SendRun(first) + [EndDrain, EndServe, EndUpdate, Make([second]), Alloc, Add, Return, StartDrain, Take, AddSent,
      Print]
  }

  /** Both requests have gone out; the server answers them in order, and the answers are dealt with. */
  function MisleadingRun(first: Node, second: Node): seq<Event> {
    BothRun(first, second)
    + [Answer(EncodeNode(LOOKALIKE)), Answer(EncodeNode(PLAIN))] + [Parse, Dispatch, Parse] + [Dispatch]
  }

  lemma SendsBoth(first: Node, second: Node)
    ensures Run(INITIAL, BothRun(first, second)) == Some(BothState(first, second))
  {
    hide SendRun, Run, Next;
    var events, s0, q := SendRun(first), SentState(first), Second(second);
    var idle := events + [EndDrain, EndServe, EndUpdate];
    var issued := idle + [Make([second]), Alloc, Add, Return];
    var s1 := BetweenWithSecond(first, second).(caller := Draining);
    assert [Lone(first)] + [q] == [Lone(first), q];
    Sends(first);
    Finishes(events, s0);
    IssuesSecond(idle, first, second);
    StartsAgain(issued, BetweenWithSecond(first, second));
    Moves(issued + [StartDrain], s1, q, SentLink(first));
    assert issued + [StartDrain] + [Take, AddSent, Print] == BothRun(first, second);
  }

  lemma StartsAgain(events: seq<Event>, s: State)
    requires Run(INITIAL, events) == Some(s) && s.caller.Idle? && s.api.NoCall? && s.link.Some? && s.thread.Waiting?
    ensures Run(INITIAL, events + [StartDrain]) == Some(s.(caller := Draining))
  {
    hide Run, INITIAL, NextOfInterface, NextOfDrain, NextOfService, NextOfThread, NextOfWorld;
    Extended(events, s, StartDrain, s.(caller := Draining));
  }

  /** Between two updates, with the first request sent and the second, if issued, unsent. */
  function Between(first: Node): State {
    SentState(first).(caller := Idle)
  }

  function BetweenWithSecond(first: Node, second: Node): State {
    Between(first).(unsent := [Second(second)], inFlight := 2, calls := [[first], [second]],
                    issued := [Lone(first), Second(second)])
  }

  lemma IssuesSecond(events: seq<Event>, first: Node, second: Node)
    requires Run(INITIAL, events) == Some(Between(first))
    ensures Run(INITIAL, events + [Make([second]), Alloc, Add, Return]) == Some(BetweenWithSecond(first, second))
  {
    var r, q, s0 := Lone(first), Second(second), Between(first);
    var s1 := s0.(api := Making([second], 0, None), calls := [[first], [second]]);
    var s2 := s1.(api := Making([], 1, Some(q)), issued := [r, q], inFlight := 2);
    var s3 := s2.(api := Making([], 1, None), unsent := [q]);
    assert [[first]] + [[second]] == [[first], [second]] && [second][1..] == [] && [] + [q] == [q]
      && [r] + [q] == [r, q];
    Extended(events, s0, Make([second]), s1);
    Extended(events + [Make([second])], s1, Alloc, s2);
    Extended(events + [Make([second])] + [Alloc], s2, Add, s3);
    Extended(events + [Make([second])] + [Alloc] + [Add], s3, Return, s3.(api := NoCall));
    assert events + [Make([second])] + [Alloc] + [Add] + [Return] == events + [Make([second]), Alloc, Add, Return];
  }

  lemma TwoAnswers(events: seq<Event>, s: State, l: Link, a: seq<byte>, b: seq<byte>)
    requires Run(INITIAL, events) == Some(s) && s.link == Some(l) && l.sendings == [] && l.printed == 2
    ensures Run(INITIAL, events + [Answer(a), Answer(b)]) ==
      Some(s.(link := Some(l.(sendings := [Sending(a, true), Sending(b, true)]))))
  {
    hide Run, INITIAL, NextOfInterface, NextOfConnection, NextOfDrain, NextOfService, NextOfThread;
    var s1 := s.(link := Some(l.(sendings := [Sending(a, true)])));
    var s2 := s.(link := Some(l.(sendings := [Sending(a, true), Sending(b, true)])));
    assert [] + [Sending(a, true)] == [Sending(a, true)];
    assert [Sending(a, true)] + [Sending(b, true)] == [Sending(a, true), Sending(b, true)];
    Extended(events, s, Answer(a), s1);
    Extended(events + [Answer(a)], s1, Answer(b), s2);
    assert events + [Answer(a)] + [Answer(b)] == events + [Answer(a), Answer(b)];
  }

  lemma TreesAreWhole()
    ensures Whole(EncodeNode(LOOKALIKE)) && ValueOf(EncodeNode(LOOKALIKE)) == LOOKALIKE
    ensures Whole(EncodeNode(PLAIN)) && ValueOf(EncodeNode(PLAIN)) == PLAIN
    ensures EncodeNode(LOOKALIKE) != [] && EncodeNode(PLAIN) != []
  {
    hide EncodeNode, ParseNode;
    LookalikeIsRestored();
    EncodedIsWhole(LOOKALIKE);
    EncodedIsWhole(PLAIN);
  }

  lemma OneElement(node: Node, p: Node -> bool, q: Table -> bool)
    requires All(node, p, q) && p(Node(None, Aggregate(Array, [node])))
    ensures All(Node(None, Aggregate(Array, [node])), p, q)
  {
    assert [node][1..] == [];
    assert AllNodes([node], p, q);
    assert AllData(Aggregate(Array, [node]), p, q);
  }

  lemma WordIsPlain(bytes: seq<byte>)
    ensures var word := Node(None, Blob(BlobString, bytes));
      && All(word, NormalNode, NormalTable) && All(word, FaithfulNode, AnyTable)
      && (|bytes| <= MAX_COUNT ==> All(word, PrintableNode, PrintableTable))
  {}

  lemma LookalikeIsRestored()
    ensures Printable(LOOKALIKE) && Restored(LOOKALIKE, false)
  {
    hide All;
    var word := Node(None, Blob(BlobString, MESSAGE));
    WordIsPlain(MESSAGE);
    OneElement(word, NormalNode, NormalTable);
    OneElement(word, FaithfulNode, AnyTable);
    OneElement(word, PrintableNode, PrintableTable);
  }

  /** Two sendings, and where they end. */
  lemma TwoSendings(a: seq<byte>, b: seq<byte>)
    ensures var sendings := [Sending(a, true), Sending(b, true)];
      && Incoming(sendings) == a + b
      && Start(sendings, 0) == 0 && Start(sendings, 1) == |a| && Start(sendings, 2) == |a| + |b|
      && Answers(sendings[..0]) == 0 && Answers(sendings[..1]) == 1
  {
    var sendings := [Sending(a, true), Sending(b, true)];
    NextStart(sendings, 0);
    NextStart(sendings, 1);
    assert sendings == [Sending(a, true)] + [Sending(b, true)];
    SendingsGrow([Sending(a, true)], Sending(b, true));
    SendingsGrow([], Sending(a, true));
    assert [] + [Sending(a, true)] == [Sending(a, true)];
  }

  /** The thread parses and deals with a message, then parses a response. */
  lemma DealsWithMessage(events: seq<Event>, s: State, l: Link, a: Datum, b: Datum)
    requires Run(INITIAL, events) == Some(s) && s.link == Some(l) && s.thread.Waiting? && s.connected
      && s.messages == []
    requires l.arrived == [] && l.consumed == 0 && !l.errno && a.from == 0 && a.to == b.from
    requires Reading(l) == Ok(a.node, a.to, false)
      && Reading(l.(consumed := a.to, arrived := [a])) == Ok(b.node, b.to, false)
    requires IsMessage(a.node)
    ensures Run(INITIAL, events + [Parse, Dispatch, Parse]) ==
      Some(s.(thread := Parsed(b), messages := [a], link := Some(l.(consumed := b.to, arrived := [a, b]))))
  {
    hide Run, INITIAL, NextOfInterface, NextOfConnection, NextOfDrain, NextOfService, NextOfWorld, IsMessage, Reading,
         Incoming;
    var s1 := s.(thread := Parsed(a), link := Some(l.(consumed := a.to, arrived := [a])));
    var s2 := s1.(thread := Waiting, messages := [a]);
    var s3 := s2.(thread := Parsed(b), link := Some(l.(consumed := b.to, arrived := [a, b])));
    assert [] + [a] == [a] && [a] + [b] == [a, b];
    ThreeSteps(events, s, Parse, s1, Dispatch, s2, Parse, s3);
  }

  lemma DealsWithResponse(events: seq<Event>, s: State, l: Link, d: Datum, r: Request, q: Request)
    requires Run(INITIAL, events) == Some(s) && s.link == Some(l) && s.thread == Parsed(d) && !IsMessage(d.node)
    requires l.taken == [] && s.sent == [r, q]
    ensures Run(INITIAL, events + [Dispatch]) ==
      Some(s.(thread := Holding(Served(r, d)), sent := [q], link := Some(l.(taken := [Served(r, d)]))))
  {
    hide Run, INITIAL, NextOfInterface, NextOfConnection, NextOfDrain, NextOfService, NextOfWorld, IsMessage;
    assert [] + [Served(r, d)] == [Served(r, d)] && [r, q][1..] == [q];
    Extended(events, s, Dispatch,
      s.(thread := Holding(Served(r, d)), sent := [q], link := Some(l.(taken := [Served(r, d)]))));
  }

  lemma WhichAreMessages()
    ensures IsMessage(LOOKALIKE) && !IsMessage(PLAIN)
  {}

  /** The first answer looks like a message and is taken for one; the first request then gets the answer
      to the second. */
  lemma MessageMisleads(first: Node, second: Node)
    ensures Run(INITIAL, MisleadingRun(first, second)).Some?
      && Run(INITIAL, MisleadingRun(first, second)).value.link.Some?
    ensures var l := Run(INITIAL, MisleadingRun(first, second)).value.link.value;
      && l.sendings == [Sending(EncodeNode(LOOKALIKE), true), Sending(EncodeNode(PLAIN), true)]
      && l.moved == [Lone(first), Second(second)] && |l.taken| == 1 && l.taken[0].request == Lone(first)
      && l.taken[0].datum.node == PLAIN
      && IsAnswerPart(l.sendings, l.taken[0].datum, 1) && Answers(l.sendings[..1]) == 1
  {
    hide BothRun, Run, Next, EncodeNode, Whole, ValueOf, Incoming, Reading, LOOKALIKE, PLAIN, IsMessage, Start, Answers;
    var a, b := EncodeNode(LOOKALIKE), EncodeNode(PLAIN);
    var sendings := [Sending(a, true), Sending(b, true)];
    var events, s0, l0 := BothRun(first, second), BothState(first, second), BothLink(first, second);
    var l := l0.(sendings := sendings);
    var x, y := Datum(LOOKALIKE, 0, |a|), Datum(PLAIN, |a|, |a| + |b|);
    TreesAreWhole();
    TwoSendings(a, b);
    WhichAreMessages();
    SendsBoth(first, second);
    TwoAnswers(events, s0, l0, a, b);
    ReadsNext(l);
    ReadsNext(l.(consumed := |a|, arrived := [x]));
    DealsWithMessage(events + [Answer(a), Answer(b)], s0.(link := Some(l)), l, x, y);
    DealsWithResponse(events + [Answer(a), Answer(b)] + [Parse, Dispatch, Parse],
                      s0.(thread := Parsed(y), messages := [x], link := Some(l.(consumed := y.to, arrived := [x, y]))),
                      l.(consumed := y.to, arrived := [x, y]), y, Lone(first), Second(second));
  }

  // ----- an answer that the parser rejects

  /** "(1" and a line end: a big number as the protocol writes it, which the parser does not know. */
  const BIG: seq<byte> := [40, 49, 13, 10]

  /** No value begins with this byte. */
  predicate IsStray(b: byte) {
    b in BIG
  }

  lemma StrayIsRejected(d: seq<byte>, pos: nat, errno: bool)
    requires pos < |d| && IsStray(d[pos])
    ensures ParseNode(d, pos, errno) == Err(Rejected)
  {}

  /** The parser rejects a byte; `Update` reaps the thread that has ended and starts another. */
  lemma LosesByte(events: seq<Event>, s: State, l: Link)
    requires Run(INITIAL, events) == Some(s) && s.caller.Idle? && s.api.NoCall? && s.link == Some(l)
      && s.thread.Waiting?
    requires l.consumed < |Incoming(l.sendings)| && IsStray(Incoming(l.sendings)[l.consumed]) && !l.errno
    ensures Run(INITIAL, events + [Fail(l.consumed + 1), Reap, Spawn]) ==
      Some(s.(link := Some(l.(consumed := l.consumed + 1, failed := l.failed + [Gap(l.consumed, l.consumed + 1)]))))
  {
    hide Run, INITIAL, NextOfInterface, NextOfDrain, NextOfService, NextOfWorld, IsMessage, ParseNode, Incoming,
         IsStray;
    var l' := l.(consumed := l.consumed + 1, failed := l.failed + [Gap(l.consumed, l.consumed + 1)]);
    var s1 := s.(thread := Exited, link := Some(l'));
    var s2 := s1.(thread := NoThread);
    StrayIsRejected(Incoming(l.sendings), l.consumed, l.errno);
    ThreeSteps(events, s, Fail(l.consumed + 1), s1, Reap, s2, Spawn, s.(link := Some(l')));
  }

  const LOST_BYTES: seq<Event> :=
    [Fail(1), Reap, Spawn] + [Fail(2), Reap, Spawn] + [Fail(3), Reap, Spawn] + [Fail(4), Reap, Spawn]

  /** Both requests have gone out and the update is over; the server answers them in order. */
  function RejectedRun(first: Node, second: Node): seq<Event> {
    BothRun(first, second) + [EndDrain, EndServe, EndUpdate] + [Answer(BIG), Answer(EncodeNode(PLAIN))]
    + LOST_BYTES + [Parse] + [Dispatch]
  }

  /** The four failures, one for each byte of the first answer. */
  lemma LosesBytes(events: seq<Event>, s: State, l: Link, d: seq<byte>)
    requires Run(INITIAL, events) == Some(s) && s.caller.Idle? && s.api.NoCall? && s.link == Some(l)
      && s.thread.Waiting?
    requires Incoming(l.sendings) == d && BIG <= d && l.consumed == 0 && l.failed == [] && !l.errno
    ensures Run(INITIAL, events + LOST_BYTES) ==
      Some(s.(link := Some(l.(consumed := 4, failed := [Gap(0, 1), Gap(1, 2), Gap(2, 3), Gap(3, 4)]))))
  {
    hide Run, INITIAL, Incoming;
    var e1 := events + [Fail(1), Reap, Spawn];
    var e2 := e1 + [Fail(2), Reap, Spawn];
    var e3 := e2 + [Fail(3), Reap, Spawn];
    var l1 := l.(consumed := 1, failed := [Gap(0, 1)]);
    var l2 := l.(consumed := 2, failed := [Gap(0, 1), Gap(1, 2)]);
    var l3 := l.(consumed := 3, failed := [Gap(0, 1), Gap(1, 2), Gap(2, 3)]);
    StrayBytes(d);
    assert [] + [Gap(0, 1)] == [Gap(0, 1)] && [Gap(0, 1)] + [Gap(1, 2)] == [Gap(0, 1), Gap(1, 2)];
    assert [Gap(0, 1), Gap(1, 2)] + [Gap(2, 3)] == [Gap(0, 1), Gap(1, 2), Gap(2, 3)];
    assert [Gap(0, 1), Gap(1, 2), Gap(2, 3)] + [Gap(3, 4)] == [Gap(0, 1), Gap(1, 2), Gap(2, 3), Gap(3, 4)];
    LosesByte(events, s, l);
    LosesByte(e1, s.(link := Some(l1)), l1);
    LosesByte(e2, s.(link := Some(l2)), l2);
    LosesByte(e3, s.(link := Some(l3)), l3);
    assert e3 + [Fail(4), Reap, Spawn] == events + LOST_BYTES;
  }

  lemma StrayBytes(d: seq<byte>)
    requires BIG <= d
    ensures |d| >= 4 && IsStray(d[0]) && IsStray(d[1]) && IsStray(d[2]) && IsStray(d[3])
  {
    assert d[0] == BIG[0] && d[1] == BIG[1] && d[2] == BIG[2] && d[3] == BIG[3];
  }

  lemma ParsesOne(events: seq<Event>, s: State, l: Link, d: Datum)
    requires Run(INITIAL, events) == Some(s) && s.link == Some(l) && s.thread.Waiting? && s.connected && l.arrived == []
    requires d.from == l.consumed && Reading(l) == Ok(d.node, d.to, false) && !l.errno
    ensures Run(INITIAL, events + [Parse]) ==
      Some(s.(thread := Parsed(d), link := Some(l.(consumed := d.to, arrived := [d]))))
  {
    hide Run, INITIAL, NextOfInterface, NextOfConnection, NextOfDrain, NextOfService, NextOfWorld, Reading, Incoming;
    assert [] + [d] == [d];
    Extended(events, s, Parse, s.(thread := Parsed(d), link := Some(l.(consumed := d.to, arrived := [d]))));
  }

  /** The server answers both requests in order, sends nothing else, and no answer looks like a message. The
      parser rejects each byte of the first answer, each time ending the reception thread, and the first
      request gets the answer to the second. */
  lemma RejectedAnswerMisleads(first: Node, second: Node)
    ensures Run(INITIAL, RejectedRun(first, second)).Some? && Run(INITIAL, RejectedRun(first, second)).value.link.Some?
    ensures var l := Run(INITIAL, RejectedRun(first, second)).value.link.value;
      && l.sendings == [Sending(BIG, true), Sending(EncodeNode(PLAIN), true)]
      && l.moved == [Lone(first), Second(second)] && |l.taken| == 1 && l.taken[0].request == Lone(first)
      && l.taken[0].datum.node == PLAIN
      && IsAnswerPart(l.sendings, l.taken[0].datum, 1) && Answers(l.sendings[..1]) == 1
      && l.failed == [Gap(0, 1), Gap(1, 2), Gap(2, 3), Gap(3, 4)]
  {
    hide BothRun, Run, Next, EncodeNode, Whole, ValueOf, Incoming, Reading, LOOKALIKE, PLAIN, IsMessage, Start,
         Answers, LOST_BYTES;
    var b := EncodeNode(PLAIN);
    var sendings := [Sending(BIG, true), Sending(b, true)];
    var sent, s0, l0 := BothRun(first, second) + [EndDrain, EndServe, EndUpdate], BothState(first, second),
      BothLink(first, second);
    var events, idle, l := sent + [Answer(BIG), Answer(b)], s0.(caller := Idle), l0.(sendings := sendings);
    var l4 := l.(consumed := 4, failed := [Gap(0, 1), Gap(1, 2), Gap(2, 3), Gap(3, 4)]);
    var y := Datum(PLAIN, 4, 4 + |b|);
    TreesAreWhole();
    TwoSendings(BIG, b);
    WhichAreMessages();
    SendsBoth(first, second);
    Finishes(BothRun(first, second), s0);
    TwoAnswers(sent, idle, l0, BIG, b);
    LosesBytes(events, idle.(link := Some(l)), l, BIG + b);
    SecondIsRead(l4, b);
    ParsesOne(events + LOST_BYTES, idle.(link := Some(l4)), l4, y);
    DealsWithResponse(events + LOST_BYTES + [Parse],
      idle.(thread := Parsed(y), link := Some(l4.(consumed := y.to, arrived := [y]))),
                      l4.(consumed := y.to, arrived := [y]), y, Lone(first), Second(second));
  }

  lemma SecondIsRead(l: Link, b: seq<byte>)
    requires l.sendings == [Sending(BIG, true), Sending(b, true)] && l.consumed == 4 && !l.errno && Whole(b)
    ensures Reading(l) == Ok(ValueOf(b), 4 + |b|, false)
  {
    hide ParseNode, Whole, ValueOf, Incoming;
    TwoSendings(BIG, b);
    WholeAt(l.sendings, 1);
  }
}
