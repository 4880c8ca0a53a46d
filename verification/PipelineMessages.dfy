/** Which of the values that arrive are messages, and that these and no others are handed out as such. */
module PipelineMessages {
  import opened Bytes
  import opened Protocol
  import opened Pipeline
  import opened PipelineOrder

  // ----- the shapes of messages

  /** Push data, null or not, or an array that begins with the blob string "message"; whatever follows. */
  ghost predicate Published(node: Node) {
    || (exists mark: Option<Table>, elements: seq<Node> :: node == Node(mark, Aggregate(Push, elements)))
    || (exists mark: Option<Table> :: node == Node(mark, NullAggregate(Push)))
    || (exists mark: Option<Table>, inner: Option<Table>, rest: seq<Node> :: node == WithWord(mark, inner, rest))
  }

  function WithWord(mark: Option<Table>, inner: Option<Table>, rest: seq<Node>): Node {
    Node(mark, Aggregate(Array, [Node(inner, Blob(BlobString, [109, 101, 115, 115, 97, 103, 101]))] + rest))
  }

  lemma PublishedAreMessages(node: Node)
    ensures IsMessage(node) <==> Published(node)
  {
    if IsMessage(node) {
      match node.data
      case Aggregate(Push, elements) => assert node == Node(node.attribute, Aggregate(Push, elements));
      case NullAggregate(Push) => assert node == Node(node.attribute, NullAggregate(Push));
      case Aggregate(Array, elements) =>
        assert elements == [elements[0]] + elements[1..];
        assert node == WithWord(node.attribute, elements[0].attribute, elements[1..]);
    }
  }

  // ----- one dispatch

  /** A published value joins the messages and the sent list stays; any other value takes the request at the
      head of the sent list, or is dropped if there is none, and the messages stay. */
  lemma DispatchSorts(s: State, d: Datum)
    requires s.thread == Parsed(d) && s.link.Some?
    ensures Next(s, Dispatch).Some?
    ensures Published(d.node) ==>
      Next(s, Dispatch).value == s.(thread := Waiting, messages := s.messages + [d])
    ensures !Published(d.node) && s.sent == [] ==>
      Next(s, Dispatch).value
      == s.(thread := Waiting, link := Some(s.link.value.(dropped := s.link.value.dropped + [d])))
    ensures !Published(d.node) && s.sent != [] ==>
      var x := Served(s.sent[0], d);
      Next(s, Dispatch).value
      == s.(thread := Holding(x), sent := s.sent[1..], link := Some(s.link.value.(taken := s.link.value.taken + [x])))
  {
    hide IsMessage, Published;
    PublishedAreMessages(d.node);
  }

  /** An array that has the word only at a later place is a response. */
  lemma LaterWordIsNone(mark: Option<Table>, first: Node, rest: seq<Node>)
    requires first.data != Blob(BlobString, [109, 101, 115, 115, 97, 103, 101])
    ensures !Published(Node(mark, Aggregate(Array, [first] + rest)))
  {
    PublishedAreMessages(Node(mark, Aggregate(Array, [first] + rest)));
  }

  // ----- every run

  ghost predicate NonePublished(served: seq<Served>) {
    forall i :: 0 <= i < |served| ==> !Published(served[i].datum.node)
  }

  ghost predicate AllPublished(data: seq<Datum>) {
    forall i :: 0 <= i < |data| ==> Published(data[i].node)
  }

  /** Whatever met a request is no message, and whatever was put on the message list is one. */
  ghost predicate SortedOut(s: State) {
    && (s.link.Some? ==> NonePublished(s.link.value.taken))
    && (forall i :: 0 <= i < |s.past| ==> NonePublished(s.past[i].taken))
    && NonePublished(s.delivered) && NonePublished(s.served) && NonePublished(Called(s.caller))
    && NonePublished(Held(s.thread))
    && AllPublished(s.messages) && AllPublished(s.told)
  }

  /** The places that hold what has arrived are as they were. */
  predicate SamePlaces(s: State, s': State) {
    && (s.link.Some? && s'.link.Some? ==> s.link.value.taken == s'.link.value.taken)
    && (s'.link.Some? ==> s.link.Some? || s'.link.value.taken == [])
    && s.past == s'.past && s.delivered == s'.delivered && s.served == s'.served && s.messages == s'.messages
    && s.told == s'.told && Called(s.caller) == Called(s'.caller) && Held(s.thread) == Held(s'.thread)
  }

  lemma SamePlacesKeep(s: State, s': State)
    requires SortedOut(s) && SamePlaces(s, s')
    ensures SortedOut(s')
  {
    hide Published;
  }

  lemma InterfaceSorts(s: State, e: Event)
    requires SortedOut(s) && NextOfInterface(s, e).Some?
    ensures SortedOut(NextOfInterface(s, e).value)
  {
    hide SortedOut, IndexOf, Requests, UserRuns;
    SamePlacesKeep(s, NextOfInterface(s, e).value);
  }

  lemma DrainSorts(s: State, e: Event)
    requires SortedOut(s) && NextOfDrain(s, e).Some?
    ensures SortedOut(NextOfDrain(s, e).value)
  {
    hide SortedOut;
    SamePlacesKeep(s, NextOfDrain(s, e).value);
  }

  lemma WorldSorts(s: State, e: Event)
    requires SortedOut(s) && NextOfWorld(s, e).Some?
    ensures SortedOut(NextOfWorld(s, e).value)
  {
    hide SortedOut, Answers;
    SamePlacesKeep(s, NextOfWorld(s, e).value);
  }

  lemma ConnectionSorts(s: State, e: Event)
    requires SortedOut(s) && NextOfConnection(s, e).Some?
    ensures SortedOut(NextOfConnection(s, e).value)
  {
    hide Published;
  }

  lemma ServiceSorts(s: State, e: Event)
    requires SortedOut(s) && NextOfService(s, e).Some?
    ensures SortedOut(NextOfService(s, e).value)
  {
    hide Published;
  }

  lemma ThreadSorts(s: State, e: Event)
    requires SortedOut(s) && NextOfThread(s, e).Some?
    ensures SortedOut(NextOfThread(s, e).value)
  {
    hide Published, IsMessage, Reading, Incoming;
    if s.thread.Parsed? {
      PublishedAreMessages(s.thread.datum.node);
    }
  }

  lemma StepSorts(s: State, e: Event)
    requires SortedOut(s) && Next(s, e).Some?
    ensures SortedOut(Next(s, e).value)
  {
    hide SortedOut, NextOfInterface, NextOfConnection, NextOfDrain, NextOfService, NextOfThread, NextOfWorld;
    if NextOfInterface(s, e).Some? { InterfaceSorts(s, e); }
    if NextOfConnection(s, e).Some? { ConnectionSorts(s, e); }
    if NextOfDrain(s, e).Some? { DrainSorts(s, e); }
    if NextOfService(s, e).Some? { ServiceSorts(s, e); }
    if NextOfThread(s, e).Some? { ThreadSorts(s, e); }
    if NextOfWorld(s, e).Some? { WorldSorts(s, e); }
  }

  lemma {:induction false} RunSorts(s: State, events: seq<Event>)
    requires SortedOut(s) && Run(s, events).Some?
    ensures SortedOut(Run(s, events).value)
    decreases |events|
  {
    hide Next, SortedOut;
    if events != [] {
      StepSorts(s, events[0]);
      RunSorts(Next(s, events[0]).value, events[1..]);
    }
  }

  /** In every interleaving: no request, on any connection, has met a published value, and none is given one
      in its callback; and only published values are handed out as messages. */
  lemma MessagesAreToldApart(events: seq<Event>)
    requires Run(INITIAL, events).Some?
    ensures SortedOut(Run(INITIAL, events).value)
  {
    hide Next, Run;
    assert SortedOut(INITIAL);
    RunSorts(INITIAL, events);
  }
}
