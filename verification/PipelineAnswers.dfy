/** From the trees a server encodes to the responses that requests get: the codec and the pipeline joined. */
module PipelineAnswers {
  import opened Bytes
  import opened Protocol
  import opened Shapes
  import opened Relocation
  import opened Codec
  import opened Pipeline
  import opened PipelineOrder
  import opened PipelineReadings
  import opened PipelineServer

  /** The bytes are one value, and reading it leaves `errno` clear. */
  predicate Whole(bytes: seq<byte>) {
    match ParseNode(bytes, 0, false)
    case Ok(_, p, e) => p == |bytes| && !e
    case Err(_) => false
  }

  function ValueOf(bytes: seq<byte>): Node
    requires Whole(bytes)
  {
    ParseNode(bytes, 0, false).value
  }

  predicate AllWhole(sendings: seq<Sending>) {
    forall i :: 0 <= i < |sendings| ==> Whole(sendings[i].bytes)
  }

  /** What has been parsed are the values sent, from the first on. */
  predicate Aligned(l: Link)
    requires AllWhole(l.sendings)
  {
    |l.arrived| <= |l.sendings| &&
    forall j :: 0 <= j < |l.arrived| ==>
      l.arrived[j] == Datum(ValueOf(l.sendings[j].bytes), Start(l.sendings, j), Start(l.sendings, j + 1))
  }

  /** While the connection stands, the next byte to be read begins a value. */
  predicate UpToDate(l: Link) {
    |l.arrived| <= |l.sendings| && l.consumed == Start(l.sendings, |l.arrived|) && !l.errno
  }

  predicate Faithfully(l: Link, connected: bool) {
    AllWhole(l.sendings) ==> Aligned(l) && (connected ==> UpToDate(l))
  }

  // ----- a whole sending among others

  lemma {:induction false} SendingAt(sendings: seq<Sending>, i: nat)
    requires i < |sendings|
    ensures Start(sendings, i + 1) == Start(sendings, i) + |sendings[i].bytes| <= |Incoming(sendings)|
    ensures Incoming(sendings)[Start(sendings, i)..Start(sendings, i + 1)] == sendings[i].bytes
    decreases |sendings|
  {
    hide Answers;
    var front := sendings[..|sendings| - 1];
    NextStart(sendings, i);
    assert sendings == front + [sendings[|sendings| - 1]];
    SendingsGrow(front, sendings[|sendings| - 1]);
    if i < |front| {
      SendingAt(front, i);
    } else {
      assert sendings[..i] == front;
    }
  }

  lemma WholeAt(sendings: seq<Sending>, i: nat)
    requires i < |sendings| && Whole(sendings[i].bytes)
    ensures Start(sendings, i) <= |Incoming(sendings)|
    ensures ParseNode(Incoming(sendings), Start(sendings, i), false)
         == Ok(ValueOf(sendings[i].bytes), Start(sendings, i + 1), false)
  {
    hide ParseNode, Incoming;
    var bytes, d, k := sendings[i].bytes, Incoming(sendings), Start(sendings, i);
    SendingAt(sendings, i);
    assert bytes[0..|bytes|] == bytes;
    SameFromSlices(bytes, d, k, 0, |bytes|);
    NodeMoves(bytes, d, k, 0, false, ParseNode(bytes, 0, false));
  }

  lemma NothingToRead(l: Link)
    requires UpToDate(l) && |l.arrived| == |l.sendings|
    ensures !Reading(l).Ok? && l.consumed == |Incoming(l.sendings)|
  {
    hide Incoming;
    assert l.sendings[..|l.sendings|] == l.sendings;
  }

  /** While values come whole, each parse reads the next one. */
  lemma ReadsNext(l: Link)
    requires AllWhole(l.sendings) && UpToDate(l)
    ensures Reading(l).Ok? <==> |l.arrived| < |l.sendings|
    ensures Reading(l).Ok? ==>
      Reading(l) == Ok(ValueOf(l.sendings[|l.arrived|].bytes), Start(l.sendings, |l.arrived| + 1), false)
  {
    hide Incoming, ParseNode, Start, Whole, ValueOf;
    if |l.arrived| < |l.sendings| {
      WholeAt(l.sendings, |l.arrived|);
    } else {
      NothingToRead(l);
    }
  }

  // ----- steps on one connection

  lemma FrontWhole(sendings: seq<Sending>, x: Sending)
    requires AllWhole(sendings + [x])
    ensures AllWhole(sendings)
    ensures forall i :: 0 <= i < |sendings| ==> (sendings + [x])[i] == sendings[i]
  {
    hide Whole;
    assert forall i :: 0 <= i < |sendings| ==> (sendings + [x])[i] == sendings[i];
  }

  lemma FaithfulParse(l: Link)
    requires Faithfully(l, true) && Reading(l).Ok?
    ensures var d := Datum(Reading(l).value, l.consumed, Reading(l).pos);
      Faithfully(l.(consumed := d.to, errno := Reading(l).errno, arrived := l.arrived + [d]), true)
  {
    hide Incoming, Start, Whole, ValueOf, Reading;
    if AllWhole(l.sendings) {
      ReadsNext(l);
    }
  }

  lemma FaithfulFail(l: Link, connected: bool, to: nat)
    requires Faithfully(l, connected) && l.consumed <= to <= |Incoming(l.sendings)| && !(connected && Reading(l).Ok?)
    ensures Faithfully(l.(consumed := to, failed := l.failed + [Gap(l.consumed, to)]), connected)
  {
    hide Incoming, Start, Whole, ValueOf, Reading;
    if AllWhole(l.sendings) && connected {
      ReadsNext(l);
      NothingToRead(l);
    }
  }

  lemma FaithfulSending(l: Link, connected: bool, x: Sending)
    requires Faithfully(l, connected)
    ensures Faithfully(l.(sendings := l.sendings + [x]), connected)
  {
    hide Incoming, Start, Whole, ValueOf;
    if AllWhole(l.sendings + [x]) {
      FrontWhole(l.sendings, x);
      SendingsGrow(l.sendings, x);
    }
  }

  /** What happens on a connection besides reading and sending leaves this alone. */
  lemma FaithfulOtherwise(l: Link, l': Link, connected: bool, connected': bool)
    requires Faithfully(l, connected) && (connected' ==> connected)
    requires l.sendings == l'.sendings && l.arrived == l'.arrived && l.consumed == l'.consumed && (l'.errno ==> l.errno)
    ensures Faithfully(l', connected')
  {
    hide Incoming, Start, Whole, ValueOf;
  }

  lemma FaithfulNewLink()
    ensures Faithfully(NEW_LINK, true)
  {}

  // ----- runs

  ghost predicate Kept(s: State) {
    && (s.link.Some? ==> Faithfully(s.link.value, s.connected))
    && forall i :: 0 <= i < |s.past| ==> Faithfully(s.past[i], false)
  }

  lemma FaithfulThread(s: State, e: Event)
    requires Kept(s) && NextOfThread(s, e).Some?
    ensures Kept(NextOfThread(s, e).value)
  {
    hide Faithfully, Incoming, Reading, IsMessage;
    var l, l' := s.link.value, NextOfThread(s, e).value.link.value;
    match e
    case Parse => FaithfulParse(l);
    case Fail(to) => FaithfulFail(l, s.connected, to);
    case _ => FaithfulOtherwise(l, l', s.connected, s.connected);
  }

  lemma FaithfulWorld(s: State, e: Event)
    requires Kept(s) && NextOfWorld(s, e).Some?
    ensures Kept(NextOfWorld(s, e).value)
  {
    hide Faithfully, Incoming, Answers;
    var l := s.link.value;
    match e
    case Answer(bytes) => FaithfulSending(l, s.connected, Sending(bytes, true));
    case Unsolicited(bytes) => FaithfulSending(l, s.connected, Sending(bytes, false));
    case _ => FaithfulOtherwise(l, l, s.connected, false);
  }

  lemma FaithfulConnection(s: State, e: Event)
    requires Kept(s) && NextOfConnection(s, e).Some?
    ensures Kept(NextOfConnection(s, e).value)
  {
    hide Faithfully;
    FaithfulNewLink();
    match e
    case Purge => FaithfulOtherwise(s.link.value, s.link.value.(lost := s.sent), s.connected, false);
    case Spawn => FaithfulOtherwise(s.link.value, s.link.value.(errno := false), s.connected, s.connected);
    case _ =>
  }

  lemma FaithfulOthers(s: State, e: Event)
    requires Kept(s)
    ensures NextOfInterface(s, e).Some? ==> Kept(NextOfInterface(s, e).value)
    ensures NextOfService(s, e).Some? ==> Kept(NextOfService(s, e).value)
    ensures NextOfDrain(s, e).Some? ==> Kept(NextOfDrain(s, e).value)
  {
    hide Faithfully, IndexOf, Requests;
    if NextOfDrain(s, e).Some? && s.link.Some? {
      FaithfulOtherwise(s.link.value, NextOfDrain(s, e).value.link.value, s.connected, s.connected);
    }
  }

  lemma FaithfulStep(s: State, e: Event)
    requires Kept(s) && Next(s, e).Some?
    ensures Kept(Next(s, e).value)
  {
    hide Kept, NextOfInterface, NextOfConnection, NextOfDrain, NextOfService, NextOfThread, NextOfWorld;
    FaithfulOthers(s, e);
    if NextOfConnection(s, e).Some? { FaithfulConnection(s, e); }
    if NextOfThread(s, e).Some? { FaithfulThread(s, e); }
    if NextOfWorld(s, e).Some? { FaithfulWorld(s, e); }
  }

  lemma {:induction false} FaithfulRun(s: State, events: seq<Event>)
    requires Kept(s) && Run(s, events).Some?
    ensures Kept(Run(s, events).value)
    decreases |events|
  {
    hide Next, Kept;
    if events != [] {
      FaithfulStep(s, events[0]);
      FaithfulRun(Next(s, events[0]).value, events[1..]);
    }
  }

  /** On every connection on which the server sends whole values, what has been parsed are these values, from
      the first on, and no byte of them went elsewhere. */
  lemma WholeValuesArrive(events: seq<Event>, l: Link)
    requires Run(INITIAL, events).Some?
    requires l in Run(INITIAL, events).value.past || Run(INITIAL, events).value.link == Some(l)
    requires AllWhole(l.sendings)
    ensures Aligned(l)
  {
    hide Next, Run, Aligned, AllWhole, UpToDate;
    assert Kept(INITIAL);
    FaithfulRun(INITIAL, events);
    var s := Run(INITIAL, events).value;
    if l in s.past {
      var i :| 0 <= i < |s.past| && s.past[i] == l;
    }
  }

  // ----- the k-th request gets the tree the server has encoded for it

  /** The server encodes these trees, each of which comes back from its print, and what it sends unasked
      are messages. */
  ghost predicate Encodes(sendings: seq<Sending>, trees: seq<Node>) {
    && |sendings| == |trees|
    && forall i :: 0 <= i < |trees| ==>
         && sendings[i].bytes == EncodeNode(trees[i])
         && Printable(trees[i]) && Restored(trees[i], false)
         && (!sendings[i].solicited ==> IsMessage(trees[i]))
  }

  lemma EncodedIsWhole(tree: Node)
    requires Printable(tree) && Restored(tree, false)
    ensures Whole(EncodeNode(tree)) && ValueOf(EncodeNode(tree)) == tree && EncodeNode(tree) != []
  {
    hide Printable, Restored, EncodeNode, ParseNode;
    RestoredMeans(tree, false);
    RoundTripExactlyWhen(tree, [], false);
    assert EncodeNode(tree) + [] == EncodeNode(tree);
  }

  lemma EncodedAreWhole(sendings: seq<Sending>, trees: seq<Node>)
    requires Encodes(sendings, trees)
    ensures AllWhole(sendings)
    ensures forall i :: 0 <= i < |trees| ==> ValueOf(sendings[i].bytes) == trees[i] && sendings[i].bytes != []
  {
    hide Whole, ValueOf, Printable, Restored, IsMessage;
    forall i | 0 <= i < |trees|
      ensures Whole(sendings[i].bytes) && ValueOf(sendings[i].bytes) == trees[i] && sendings[i].bytes != []
    {
      EncodedIsWhole(trees[i]);
    }
  }

  lemma EncodedIsExact(l: Link, trees: seq<Node>)
    requires Encodes(l.sendings, trees) && AllWhole(l.sendings) && Aligned(l)
    requires forall i :: 0 <= i < |trees| ==> ValueOf(l.sendings[i].bytes) == trees[i] && l.sendings[i].bytes != []
    ensures Exact(l)
  {
    hide Whole, ValueOf, Printable, Restored, IsMessage, Start;
    forall j | 0 <= j < |l.arrived| && IsResponse(l.arrived[j])
      ensures exists i: nat :: IsAnswerPart(l.sendings, l.arrived[j], i)
    {
      ArrivedIsTree(l, trees, j);
      assert IsAnswerPart(l.sendings, l.arrived[j], j);
    }
  }

  lemma ArrivedIsTree(l: Link, trees: seq<Node>, j: nat)
    requires Encodes(l.sendings, trees) && AllWhole(l.sendings) && Aligned(l) && j < |l.arrived|
    requires forall i :: 0 <= i < |trees| ==> ValueOf(l.sendings[i].bytes) == trees[i] && l.sendings[i].bytes != []
    ensures IsPart(l.sendings, l.arrived[j], j) && l.arrived[j].node == trees[j]
    ensures IsResponse(l.arrived[j]) ==> l.sendings[j].solicited
    ensures IsResponse(l.arrived[j]) <==> !IsMessage(trees[j])
  {
    hide Whole, ValueOf, Printable, Restored, IsMessage, Start;
    assert j < |trees| && ValueOf(l.sendings[j].bytes) == trees[j];
    assert l.arrived[j] == Datum(ValueOf(l.sendings[j].bytes), Start(l.sendings, j), Start(l.sendings, j + 1));
  }

  /** The first byte of a sending that has arrived went into its value, and only there. */
  lemma ArrivedByte(l: Link, trees: seq<Node>, j: nat)
    requires Ordered(l) && Encodes(l.sendings, trees) && AllWhole(l.sendings) && Aligned(l) && j < |l.arrived|
    requires forall i :: 0 <= i < |trees| ==> ValueOf(l.sendings[i].bytes) == trees[i] && l.sendings[i].bytes != []
    ensures !Failed(l, Start(l.sendings, j)) && (Misled(l, Start(l.sendings, j)) <==> IsMessage(trees[j]))
  {
    hide Encodes, AllWhole, Aligned, ValueOf, IsMessage, Start, Incoming;
    ArrivedIsTree(l, trees, j);
    assert InDatum(l.arrived[j], Start(l.sendings, j));
  }

  /** If a server encodes its answers, and sends nothing else but messages, then no response is dropped, every
      response is one of its trees, and the k-th request gets the tree of the k-th answer exactly when none
      of the first k + 1 answers looks like a message. */
  lemma EncodedAnswersArrive(events: seq<Event>, l: Link, trees: seq<Node>, k: nat)
    requires Run(INITIAL, events).Some?
    requires l in Run(INITIAL, events).value.past || Run(INITIAL, events).value.link == Some(l)
    requires Encodes(l.sendings, trees) && k < |l.taken|
    ensures l.dropped == [] && k < |l.moved| && l.taken[k].request == l.moved[k]
    ensures forall i: nat :: IsAnswerPart(l.sendings, l.taken[k].datum, i) ==> l.taken[k].datum.node == trees[i]
    ensures IsAnswerNumber(l.sendings, l.taken[k].datum, k) <==>
            forall i :: 0 <= i < |trees| && l.sendings[i].solicited && Answers(l.sendings[..i]) <= k ==>
              !IsMessage(trees[i])
  {
    hide Next, Run, Encodes, AllWhole, Aligned, Exact, Ordered, Tiled, Unspoilt, IsAnswerNumber, IsAnswerPart, IsPart,
         ValueOf, IsMessage, IsResponse, Start, Answers, Incoming;
    EncodedAreWhole(l.sendings, trees);
    WholeValuesArrive(events, l);
    EncodedIsExact(l, trees);
    BytesAreAccounted(events, l);
    OwnAnswerExactlyWhen(events, l, k);
    KthTakenIsKthMoved(events, l, k);
    ReadOnLink(events, l);
    var s := Run(INITIAL, events).value;
    var m := TakenPlace(l, if l in s.past then [] else InHand(s.thread), k);
    KthTree(l, trees, m);
    SpoiltByMessages(l, trees, m, k);
  }

  lemma KthTree(l: Link, trees: seq<Node>, m: nat)
    requires Ordered(l) && Encodes(l.sendings, trees) && AllWhole(l.sendings) && Aligned(l) && m < |l.arrived|
    requires forall i :: 0 <= i < |trees| ==> ValueOf(l.sendings[i].bytes) == trees[i] && l.sendings[i].bytes != []
    ensures forall i: nat :: IsAnswerPart(l.sendings, l.arrived[m], i) ==> l.arrived[m].node == trees[i]
  {
    hide AllWhole, Aligned, ValueOf, IsMessage, Incoming, Printable, Restored, EncodeNode;
    ArrivedIsTree(l, trees, m);
    forall i: nat | IsAnswerPart(l.sendings, l.arrived[m], i)
      ensures l.arrived[m].node == trees[i]
    {
      PartsApart(l, l.arrived[m], i, m);
    }
  }

  lemma SpoiltByMessages(l: Link, trees: seq<Node>, m: nat, k: nat)
    requires Ordered(l) && Exact(l) && Encodes(l.sendings, trees) && AllWhole(l.sendings) && Aligned(l)
    requires m < |l.arrived| && IsResponse(l.arrived[m]) && |Select(l.arrived[..m], IsResponse)| == k
    requires forall i :: 0 <= i < |trees| ==> ValueOf(l.sendings[i].bytes) == trees[i] && l.sendings[i].bytes != []
    ensures Unspoilt(l, k) <==>
            forall i :: 0 <= i < |trees| && l.sendings[i].solicited && Answers(l.sendings[..i]) <= k ==>
              !IsMessage(trees[i])
  {
    hide Ordered, Exact, AllWhole, Aligned, ValueOf, IsMessage, IsResponse, Start, Answers, Incoming, IsPart, Misled,
         Failed, Printable, Restored, EncodeNode, Select;
    ArrivedIsTree(l, trees, m);
    StandsWithin(l, m, m, k);
    forall i | 0 <= i < |trees| && l.sendings[i].solicited && Answers(l.sendings[..i]) <= k
      ensures !Failed(l, Start(l.sendings, i)) && (Misled(l, Start(l.sendings, i)) <==> IsMessage(trees[i]))
    {
      if m < i {
        StartsIncrease(l.sendings, m, i);
      }
      ArrivedByte(l, trees, i);
    }
  }
}
