/** Which answer a request gets, and in which order messages are handed out. */
module PipelineServer {
  import opened Protocol
  import opened Pipeline
  import opened PipelineOrder
  import opened PipelineReadings

  // ----- what holds of a connection

  function Data(taken: seq<Served>): (r: seq<Datum>)
    ensures |r| == |taken| && forall i :: 0 <= i < |r| ==> r[i] == taken[i].datum
  {
    seq(|taken|, i requires 0 <= i < |taken| => taken[i].datum)
  }

  /** What the reception thread has parsed and not yet dealt with. */
  function InHand(thread: Thread): seq<Datum> {
    if thread.Parsed? then [thread.datum] else []
  }

  /** What holds of a connection, while `hand` is in the reception thread's hand. */
  ghost predicate WellServed(l: Link, hand: seq<Datum>) {
    && Ordered(l) && Tiled(l)
    && Answers(l.sendings) <= l.printed <= |l.moved|
    && (l.dropped == [] ==> Select(l.arrived, IsResponse) == Data(l.taken) + Select(hand, IsResponse))
    && NoneDropped(l)
  }

  /** While every response is what one of the answers consists of, each meets a request. */
  ghost predicate NoneDropped(l: Link) {
    Exact(l) ==> l.dropped == []
  }

  function AllArrived(past: seq<Link>): seq<Datum> {
    if past == [] then [] else AllArrived(past[..|past| - 1]) + past[|past| - 1].arrived
  }

  function ArrivedNow(link: Option<Link>): seq<Datum> {
    match link case Some(l) => l.arrived case None => []
  }

  /** Messages are handed out in the order they arrived, over all connections, and none is lost. */
  predicate MessagesInOrder(s: State) {
    s.told + s.messages + Select(InHand(s.thread), IsPushed) ==
      Select(AllArrived(s.past) + ArrivedNow(s.link), IsPushed)
  }

  ghost predicate Attended(s: State) {
    && (s.link.Some? ==>
          && WellServed(s.link.value, InHand(s.thread))
          && |s.link.value.moved| == s.link.value.printed + (if s.caller.Printing? then 1 else 0))
    && (forall i :: 0 <= i < |s.past| ==> WellServed(s.past[i], []))
    && MessagesInOrder(s)
    && (s.link.None? ==> InHand(s.thread) == [])
  }

  // ----- steps on one connection

  lemma ExactBefore(l: Link, l': Link)
    requires Ordered(l) && Exact(l') && l.sendings <= l'.sendings && l.arrived <= l'.arrived
    ensures Exact(l)
  {
    hide Incoming, IsResponse;
    assert forall i: nat :: i <= |l.sendings| ==> l'.sendings[..i] == l.sendings[..i];
    assert l'.sendings[..|l.sendings|] == l.sendings;
    forall j | 0 <= j < |l.arrived| && IsResponse(l.arrived[j])
      ensures exists i: nat :: IsAnswerPart(l.sendings, l.arrived[j], i)
    {
      assert l'.arrived[j] == l.arrived[j];
      var i: nat :| IsAnswerPart(l'.sendings, l'.arrived[j], i);
      if i >= |l.sendings| {
        StartsIncrease(l'.sendings, |l.sendings|, i);
      }
      assert IsAnswerPart(l.sendings, l.arrived[j], i);
    }
  }

  lemma ParseKeeps(l: Link, d: Datum, errno: bool)
    requires WellServed(l, []) && d.from == l.consumed < d.to <= |Incoming(l.sendings)|
    ensures WellServed(l.(consumed := d.to, errno := errno, arrived := l.arrived + [d]), [d])
  {
    hide IsResponse, Exact, Ordered, Tiled, Incoming, Answers;
    var l' := l.(consumed := d.to, errno := errno, arrived := l.arrived + [d]);
    ParseTiles(l, d, errno);
    SelectAppended(l.arrived, d, IsResponse);
    assert [] + [d] == [d];
    SelectAppended([], d, IsResponse);
    if Exact(l') {
      ExactBefore(l, l');
    }
  }

  lemma FailKeeps(l: Link, to: nat, hand: seq<Datum>)
    requires WellServed(l, hand) && l.consumed <= to <= |Incoming(l.sendings)|
    ensures WellServed(l.(consumed := to, failed := l.failed + [Gap(l.consumed, to)]), hand)
  {
    hide IsResponse, Exact, Ordered, Tiled, Incoming, Answers;
    var l' := l.(consumed := to, failed := l.failed + [Gap(l.consumed, to)]);
    FailTiles(l, to);
    if Exact(l') {
      ExactBefore(l, l');
    }
  }

  lemma SpeakKeeps(l: Link, x: Sending, hand: seq<Datum>)
    requires WellServed(l, hand) && (x.solicited ==> Answers(l.sendings) < l.printed)
    ensures WellServed(l.(sendings := l.sendings + [x]), hand)
  {
    hide IsResponse, Exact, Incoming, Answers, Select;
    var l' := l.(sendings := l.sendings + [x]);
    SendingsGrow(l.sendings, x);
    TiledAlike(l, l');
    if Exact(l') {
      ExactBefore(l, l');
    }
  }

  lemma TiledAlike(l: Link, l': Link)
    requires l.arrived == l'.arrived && l.failed == l'.failed && l.consumed == l'.consumed
    ensures Tiled(l) <==> Tiled(l')
  {
    forall p
      ensures Taken(l, p) <==> Taken(l', p)
      ensures Failed(l, p) <==> Failed(l', p)
    {}
  }

  /** Changes that leave alone what was read. */
  lemma SameReading(l: Link, l': Link)
    requires l.sendings == l'.sendings && l.arrived == l'.arrived && l.failed == l'.failed && l.consumed == l'.consumed
    ensures Ordered(l) <==> Ordered(l')
    ensures Tiled(l) <==> Tiled(l')
    ensures Exact(l) <==> Exact(l')
  {
    hide Incoming, IsResponse, Tiled;
    TiledAlike(l, l');
  }

  lemma MessageKeeps(l: Link, d: Datum)
    requires WellServed(l, [d]) && !IsResponse(d)
    ensures WellServed(l, [])
  {
    hide Exact, Ordered, Tiled, Answers;
    assert [] + [d] == [d];
    SelectAppended([], d, IsResponse);
  }

  lemma DropKeeps(l: Link, d: Datum)
    requires WellServed(l, [d]) && IsResponse(d) && |l.taken| == |l.moved|
    ensures WellServed(l.(dropped := l.dropped + [d]), [])
  {
    hide IsResponse, Exact, Ordered, Tiled, Answers;
    var l' := l.(dropped := l.dropped + [d]);
    SameReading(l, l');
    assert [] + [d] == [d];
    SelectAppended([], d, IsResponse);
    if Exact(l) {
      ResponsesBound(l);
    }
  }

  lemma TakeKeeps(l: Link, x: Served)
    requires WellServed(l, [x.datum]) && IsResponse(x.datum)
    ensures WellServed(l.(taken := l.taken + [x]), [])
  {
    hide IsResponse, Exact, Ordered, Tiled, Answers;
    SameReading(l, l.(taken := l.taken + [x]));
    assert [] + [x.datum] == [x.datum];
    SelectAppended([], x.datum, IsResponse);
    assert Data(l.taken + [x]) == Data(l.taken) + [x.datum];
  }

  lemma OtherwiseKeeps(l: Link, l': Link, hand: seq<Datum>)
    requires WellServed(l, hand) && l'.printed <= |l'.moved| && l.printed <= l'.printed && l.taken == l'.taken
      && l.dropped == l'.dropped
    requires l.sendings == l'.sendings && l.arrived == l'.arrived && l.failed == l'.failed && l.consumed == l'.consumed
    ensures WellServed(l', hand)
  {
    hide IsResponse, Exact, Ordered, Tiled, Answers;
    SameReading(l, l');
  }

  // ----- steps

  lemma AttendedThread(s: State, e: Event)
    requires Sane(s) && Attended(s) && Matched(Abs(s)) && NextOfThread(s, e).Some?
    ensures Attended(NextOfThread(s, e).value)
  {
    hide WellServed, Abs, IsMessage, Select, Tracks, AllTaken, AllLost, AllArrived, Reading, Incoming;
    var l := s.link.value;
    assert Requests(l.taken) + s.sent == l.moved by { MatchedNow(s); }
    match e
    case Parse =>
      var d := Datum(Reading(l).value, l.consumed, Reading(l).pos);
      ReadingAdvances(l);
      ParseKeeps(l, d, Reading(l).errno) by { SelectNothing(); }
      ParsedMessage(s, d);
    case Fail(to) =>
      SelectNothing();
      FailKeeps(l, to, []);
    case Dispatch =>
      var d := s.thread.datum;
      SelectOne(d);
      if !IsResponse(d) {
        MessageKeeps(l, d);
        MovedMessage(s, d);
      } else if s.sent == [] {
        DropKeeps(l, d);
        NoMessage(s, d);
      } else {
        TakeKeeps(l, Served(s.sent[0], d));
        NoMessage(s, d);
      }
    case _ =>
      SelectNothing();
  }

  lemma ReadingAdvances(l: Link)
    ensures Reading(l).Ok? ==> l.consumed < Reading(l).pos <= |Incoming(l.sendings)|
  {
    hide ParseNode, Incoming;
  }

  lemma MatchedNow(s: State)
    requires Matched(Abs(s)) && s.link.Some?
    ensures Requests(s.link.value.taken) + s.sent == s.link.value.moved
  {}

  lemma SelectNothing()
    ensures forall p :: Select([], p) == []
  {}

  lemma SelectOne(d: Datum)
    ensures Select([d], IsPushed) == if IsResponse(d) then [] else [d]
  {
    assert [] + [d] == [d];
    SelectAppended([], d, IsPushed);
  }

  lemma ParsedMessage(s: State, d: Datum)
    requires s.link.Some? && MessagesInOrder(s) && InHand(s.thread) == []
    ensures s.told + s.messages + Select([d], IsPushed)
         == Select(AllArrived(s.past) + (s.link.value.arrived + [d]), IsPushed)
  {
    hide AllArrived, IsMessage;
    var before := AllArrived(s.past) + s.link.value.arrived;
    SelectOne(d);
    SelectAppended(before, d, IsPushed);
    assert before + [d] == AllArrived(s.past) + (s.link.value.arrived + [d]);
    assert s.told + s.messages + [] == s.told + s.messages;
  }

  lemma MovedMessage(s: State, d: Datum)
    requires MessagesInOrder(s) && InHand(s.thread) == [d] && !IsResponse(d)
    ensures s.told + (s.messages + [d]) + Select([], IsPushed) ==
      Select(AllArrived(s.past) + ArrivedNow(s.link), IsPushed)
  {
    hide AllArrived, IsMessage;
    SelectOne(d);
    assert s.told + s.messages + [d] == s.told + (s.messages + [d]) + [];
  }

  lemma NoMessage(s: State, d: Datum)
    requires MessagesInOrder(s) && InHand(s.thread) == [d] && IsResponse(d)
    ensures s.told + s.messages + Select([], IsPushed) == Select(AllArrived(s.past) + ArrivedNow(s.link), IsPushed)
  {
    hide AllArrived, IsMessage;
    SelectOne(d);
  }

  lemma AttendedWorld(s: State, e: Event)
    requires Attended(s) && NextOfWorld(s, e).Some?
    ensures Attended(NextOfWorld(s, e).value)
  {
    hide WellServed, IsMessage, Select, AllArrived, Answers;
    var l, hand := s.link.value, InHand(s.thread);
    match e
    case Answer(bytes) => SpeakKeeps(l, Sending(bytes, true), hand);
    case Unsolicited(bytes) => SpeakKeeps(l, Sending(bytes, false), hand);
    case _ =>
  }

  lemma AttendedDrain(s: State, e: Event)
    requires Attended(s) && NextOfDrain(s, e).Some?
    ensures Attended(NextOfDrain(s, e).value)
  {
    hide WellServed, Select, AllArrived;
    if s.link.Some? {
      WellServedBound(s.link.value, InHand(s.thread));
      var l' := NextOfDrain(s, e).value.link;
      OtherwiseKeeps(s.link.value, l'.value, InHand(s.thread));
    }
  }

  lemma WellServedBound(l: Link, hand: seq<Datum>)
    requires WellServed(l, hand)
    ensures l.printed <= |l.moved|
  {}

  lemma AttendedConnection(s: State, e: Event)
    requires Sane(s) && Attended(s) && NextOfConnection(s, e).Some?
    ensures Attended(NextOfConnection(s, e).value)
  {
    hide WellServed, Select, AllArrived;
    match e
    case Connect =>
      NewLinkServed();
      assert AllArrived(s.past) + [] == AllArrived(s.past);
    case Purge =>
      var l := s.link.value;
      LostServed(l, s.sent);
      ArrivedGrows(s.past, l.(lost := s.sent));
      assert AllArrived(s.past) + l.arrived + [] == AllArrived(s.past) + l.arrived;
    case Spawn =>
      var l := s.link.value;
      WellServedBound(l, []);
      OtherwiseKeeps(l, l.(errno := false), []);
    case _ =>
  }

  lemma NewLinkServed()
    ensures WellServed(NEW_LINK, [])
  {}

  lemma LostServed(l: Link, lost: seq<Request>)
    requires WellServed(l, [])
    ensures WellServed(l.(lost := lost), [])
  {
    hide IsResponse, Exact, Ordered, Tiled, Answers;
    SameReading(l, l.(lost := lost));
  }

  lemma ArrivedGrows(past: seq<Link>, l: Link)
    ensures AllArrived(past + [l]) == AllArrived(past) + l.arrived
  {
    assert (past + [l])[..|past|] == past;
  }

  lemma AttendedService(s: State, e: Event)
    requires Attended(s) && NextOfService(s, e).Some?
    ensures Attended(NextOfService(s, e).value)
  {
    hide WellServed, Select, AllArrived;
    if e == Tell {
      assert s.told + s.messages == s.told + [s.messages[0]] + s.messages[1..];
    }
  }

  lemma AttendedInterface(s: State, e: Event)
    requires Attended(s) && NextOfInterface(s, e).Some?
    ensures Attended(NextOfInterface(s, e).value)
  {
    hide WellServed, Select, AllArrived, IndexOf, Requests;
  }

  lemma AttendedStep(s: State, e: Event)
    requires Orderly(s) && Attended(s) && Next(s, e).Some?
    ensures Attended(Next(s, e).value)
  {
    hide Sane, Attended, NextOfInterface, NextOfConnection, NextOfDrain, NextOfService, NextOfThread, NextOfWorld,
         Matched, Abs;
    if NextOfInterface(s, e).Some? { AttendedInterface(s, e); }
    if NextOfConnection(s, e).Some? { AttendedConnection(s, e); }
    if NextOfDrain(s, e).Some? { AttendedDrain(s, e); }
    if NextOfService(s, e).Some? { AttendedService(s, e); }
    if NextOfThread(s, e).Some? { AttendedThread(s, e); }
    if NextOfWorld(s, e).Some? { AttendedWorld(s, e); }
  }

  lemma {:induction false} AttendedRun(s: State, events: seq<Event>)
    requires Orderly(s) && Attended(s) && Run(s, events).Some?
    ensures Attended(Run(s, events).value)
    decreases |events|
  {
    hide Next, Orderly, Attended;
    if events != [] {
      OrderlyStep(s, events[0]);
      AttendedStep(s, events[0]);
      AttendedRun(Next(s, events[0]).value, events[1..]);
    }
  }

  lemma AttendedInitially()
    ensures Attended(INITIAL)
  {}

  lemma AttendedAlways(events: seq<Event>)
    requires Run(INITIAL, events).Some?
    ensures Attended(Run(INITIAL, events).value)
  {
    hide Next, Run, Orderly;
    OrderlyInitially();
    AttendedInitially();
    AttendedRun(INITIAL, events);
  }

  // ----- whose answer it is

  lemma ReadOnLink(events: seq<Event>, l: Link)
    requires Run(INITIAL, events).Some?
    requires l in Run(INITIAL, events).value.past || Run(INITIAL, events).value.link == Some(l)
    ensures var s := Run(INITIAL, events).value; WellServed(l, if l in s.past then [] else InHand(s.thread))
  {
    hide Next, Run, Orderly, WellServed, MessagesInOrder;
    AttendedAlways(events);
  }

  /** Every byte read on a connection went into one value or was lost to one parse that failed. */
  lemma BytesAreAccounted(events: seq<Event>, l: Link)
    requires Run(INITIAL, events).Some?
    requires l in Run(INITIAL, events).value.past || Run(INITIAL, events).value.link == Some(l)
    ensures Ordered(l) && Tiled(l)
  {
    hide Next, Run, Ordered, Tiled, Exact, Answers;
    ReadOnLink(events, l);
  }

  /** Where the k-th response to meet a request stands among the values read. */
  lemma TakenPlace(l: Link, hand: seq<Datum>, k: nat) returns (m: nat)
    requires WellServed(l, hand) && l.dropped == [] && k < |l.taken|
    ensures m < |l.arrived| && IsResponse(l.arrived[m]) && l.arrived[m] == l.taken[k].datum
    ensures |Select(l.arrived[..m], IsResponse)| == k
  {
    hide IsResponse, Ordered, Tiled, Exact, Answers;
    assert Select(l.arrived, IsResponse)[k] == Data(l.taken)[k];
    m := ResponsePlace(l.arrived, k);
  }

  /** On a connection where every response is what one of the answers consists of, nothing is dropped, and
      the k-th request sent gets the server's answer to it exactly when none of the first k + 1 answers was
      taken for a message or met a parse that failed. */
  lemma OwnAnswerExactlyWhen(events: seq<Event>, l: Link, k: nat)
    requires Run(INITIAL, events).Some?
    requires l in Run(INITIAL, events).value.past || Run(INITIAL, events).value.link == Some(l)
    requires Exact(l) && k < |l.taken|
    ensures l.dropped == []
    ensures IsAnswerNumber(l.sendings, l.taken[k].datum, k) <==> Unspoilt(l, k)
  {
    hide Next, Run, Orderly, IsResponse, Exact, Ordered, Tiled, Unspoilt, IsAnswerNumber;
    ReadOnLink(events, l);
    var s := Run(INITIAL, events).value;
    var m := TakenPlace(l, if l in s.past then [] else InHand(s.thread), k);
    OwnExactlyWhen(l, m, k);
  }

  /** Answer number `k` was read as one response, with `k` responses read before it. */
  ghost predicate ReadInPlace(l: Link, k: nat) {
    exists i: nat :: Hit(l, |l.arrived|, i) && Answers(l.sendings[..i]) == k
      && |ResponsesBefore(l.arrived, Start(l.sendings, i))| == k
  }

  /** Whatever the server sends, as long as nothing was dropped the k-th request sent gets the server's answer
      to it exactly when that answer was read as one response, with k responses read before it. */
  lemma OwnAnswerInGeneral(events: seq<Event>, l: Link, k: nat)
    requires Run(INITIAL, events).Some?
    requires l in Run(INITIAL, events).value.past || Run(INITIAL, events).value.link == Some(l)
    requires l.dropped == [] && k < |l.taken|
    ensures IsAnswerNumber(l.sendings, l.taken[k].datum, k) <==> ReadInPlace(l, k)
  {
    hide Next, Run, Orderly, IsResponse, Exact, Ordered, Tiled, ResponsesBefore, Select;
    ReadOnLink(events, l);
    var s := Run(INITIAL, events).value;
    var m := TakenPlace(l, if l in s.past then [] else InHand(s.thread), k);
    BeforeIsFront(l, m);
    if IsAnswerNumber(l.sendings, l.taken[k].datum, k) {
      var i: nat :| IsAnswerPart(l.sendings, l.taken[k].datum, i) && Answers(l.sendings[..i]) == k;
      assert Hit(l, |l.arrived|, i);
    }
    if ReadInPlace(l, k) {
      var i: nat :| Hit(l, |l.arrived|, i) && Answers(l.sendings[..i]) == k
        && |ResponsesBefore(l.arrived, Start(l.sendings, i))| == k;
      var j := HitBy(l, |l.arrived|, i);
      PlaceOfResponse(l, j, k);
      KthResponseMeetsKthRequest(events, l, k);
    }
  }

  /** Whatever the server does, what met the sent requests is what arrived and is no message, in order,
      as long as nothing was dropped. */
  lemma KthResponseMeetsKthRequest(events: seq<Event>, l: Link, k: nat)
    requires Run(INITIAL, events).Some?
    requires l in Run(INITIAL, events).value.past || Run(INITIAL, events).value.link == Some(l)
    requires l.dropped == [] && k < |l.taken|
    ensures k < |l.moved| && k < |Select(l.arrived, IsResponse)|
    ensures l.taken[k] == Served(l.moved[k], Select(l.arrived, IsResponse)[k])
  {
    hide Next, Run, Orderly, IsResponse, Ordered, Tiled, Exact;
    ReadOnLink(events, l);
    KthTakenIsKthMoved(events, l, k);
    assert Select(l.arrived, IsResponse)[k] == Data(l.taken)[k];
  }

  /** Messages are handed out in the order in which they arrived, over all connections, and none is
      lost. */
  lemma MessagesAreKept(events: seq<Event>)
    requires Run(INITIAL, events).Some?
    ensures MessagesInOrder(Run(INITIAL, events).value)
  {
    hide Next, Run, MessagesInOrder;
    AttendedAlways(events);
  }
}
