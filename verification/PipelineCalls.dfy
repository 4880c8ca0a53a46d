/** The requests of one call, a transaction above all, stay together on one connection. */
module PipelineCalls {
  import opened Protocol
  import opened Pipeline
  import opened PipelineOrder

  // ----- one request after another

  /** One of the call's requests has been cancelled. */
  predicate Hurt(cancelled: seq<Request>, call: nat) {
    exists i :: 0 <= i < |cancelled| && cancelled[i].call == call
  }

  /** The request is what its call asked for. */
  predicate Proper(r: Request, calls: seq<seq<Node>>) {
    r.call < |calls| && r.index < |calls[r.call]| && r.command == calls[r.call][r.index]
  }

  predicate Starts(r: Request, cancelled: seq<Request>) {
    r.index == 0 || Hurt(cancelled, r.call)
  }

  predicate Ends(r: Request, calls: seq<seq<Node>>, cancelled: seq<Request>) {
    (r.call < |calls| && r.index + 1 == |calls[r.call]|) || Hurt(cancelled, r.call)
  }

  predicate Succeeds(a: Request, b: Request) {
    b.call == a.call && b.index == a.index + 1
  }

  predicate Follows(a: Request, b: Request, calls: seq<seq<Node>>, cancelled: seq<Request>) {
    Succeeds(a, b) || (Ends(a, calls, cancelled) && Starts(b, cancelled))
  }

  predicate Chain(line: seq<Request>, calls: seq<seq<Node>>, cancelled: seq<Request>) {
    && (forall i :: 0 <= i < |line| ==> Proper(line[i], calls))
    && (line != [] ==> Starts(line[0], cancelled))
    && (forall i, j :: 0 <= i && j == i + 1 < |line| ==> Follows(line[i], line[j], calls, cancelled))
  }

  predicate EndsWell(line: seq<Request>, calls: seq<seq<Node>>, cancelled: seq<Request>) {
    line != [] ==> Ends(line[|line| - 1], calls, cancelled)
  }

  lemma ChainSplits(a: seq<Request>, b: seq<Request>, calls: seq<seq<Node>>, cancelled: seq<Request>)
    requires Chain(a + b, calls, cancelled) && EndsWell(a + b, calls, cancelled)
    requires b != [] ==> Starts(b[0], cancelled)
    ensures Chain(a, calls, cancelled) && EndsWell(a, calls, cancelled)
    ensures Chain(b, calls, cancelled) && EndsWell(b, calls, cancelled)
  {
    hide Starts, Hurt, Proper, Ends;
    var line := a + b;
    assert forall i :: 0 <= i < |a| ==> line[i] == a[i];
    assert forall i :: 0 <= i < |b| ==> line[|a| + i] == b[i];
    if a != [] && b != [] {
      assert Follows(line[|a| - 1], line[|a|], calls, cancelled);
      StartedElsewhere(a[|a| - 1], b[0], calls, cancelled);
    } else if b == [] {
      assert line == a;
    }
  }

  /** If a request that starts follows another, that one ends. */
  lemma StartedElsewhere(a: Request, b: Request, calls: seq<seq<Node>>, cancelled: seq<Request>)
    requires Follows(a, b, calls, cancelled) && Starts(b, cancelled)
    ensures Ends(a, calls, cancelled)
  {}

  lemma HurtGrows(cancelled: seq<Request>, r: Request)
    ensures Hurt(cancelled + [r], r.call)
    ensures forall call :: Hurt(cancelled, call) ==> Hurt(cancelled + [r], call)
  {
    assert (cancelled + [r])[|cancelled|] == r;
    forall call: nat | Hurt(cancelled, call)
      ensures Hurt(cancelled + [r], call)
    {
      var i :| 0 <= i < |cancelled| && cancelled[i].call == call;
      assert (cancelled + [r])[i].call == call;
    }
  }

  lemma MoreCancelled(x: Request, y: Request, calls: seq<seq<Node>>, cancelled: seq<Request>, r: Request)
    ensures Starts(x, cancelled) ==> Starts(x, cancelled + [r])
    ensures Ends(x, calls, cancelled) ==> Ends(x, calls, cancelled + [r])
    ensures Follows(x, y, calls, cancelled) ==> Follows(x, y, calls, cancelled + [r])
    ensures Follows(x, r, calls, cancelled) ==> Ends(x, calls, cancelled + [r])
    ensures Follows(r, y, calls, cancelled) ==> Starts(y, cancelled + [r])
  {
    hide Hurt;
    HurtGrows(cancelled, r);
  }

  lemma EndThenStart(x: Request, y: Request, calls: seq<seq<Node>>, cancelled: seq<Request>)
    requires Ends(x, calls, cancelled) && Starts(y, cancelled)
    ensures Follows(x, y, calls, cancelled)
  {}

  lemma FollowsAt(line: seq<Request>, calls: seq<seq<Node>>, cancelled: seq<Request>, i: nat)
    requires Chain(line, calls, cancelled) && i + 1 < |line|
    ensures Follows(line[i], line[i + 1], calls, cancelled)
  {
    hide Follows, Starts, Proper;
  }

  lemma WithdrawnFollows(a: seq<Request>, r: Request, b: seq<Request>, calls: seq<seq<Node>>, cancelled: seq<Request>,
                         i: nat)
    requires Chain(a + [r] + b, calls, cancelled) && i + 1 < |a + b|
    ensures Follows((a + b)[i], (a + b)[i + 1], calls, cancelled + [r])
  {
    hide Chain, Follows, Starts, Ends;
    var line, x, y := a + [r] + b, (a + b)[i], (a + b)[i + 1];
    MoreCancelled(x, y, calls, cancelled, r);
    if i + 1 < |a| {
      assert line[i] == x && line[i + 1] == y;
      FollowsAt(line, calls, cancelled, i);
    } else if i >= |a| {
      assert line[i + 1] == x && line[i + 2] == y;
      FollowsAt(line, calls, cancelled, i + 1);
    } else {
      assert line[i] == x && line[i + 1] == r && line[i + 2] == y;
      FollowsAt(line, calls, cancelled, i);
      FollowsAt(line, calls, cancelled, i + 1);
      MoreCancelled(y, y, calls, cancelled, r);
      EndThenStart(x, y, calls, cancelled + [r]);
    }
  }

  lemma WithdrawnBounds(a: seq<Request>, r: Request, b: seq<Request>, calls: seq<seq<Node>>, cancelled: seq<Request>)
    requires Chain(a + [r] + b, calls, cancelled) && EndsWell(a + [r] + b, calls, cancelled)
    ensures a + b != [] ==> Starts((a + b)[0], cancelled + [r])
    ensures EndsWell(a + b, calls, cancelled + [r])
    ensures b != [] ==> Starts(b[0], cancelled + [r])
  {
    hide Follows, Starts, Ends, Proper;
    var line, n := a + [r] + b, |a|;
    assert line[n] == r;
    if b != [] {
      assert line[n + 1] == b[0] && line[|line| - 1] == b[|b| - 1] == (a + b)[|a + b| - 1];
      FollowsAt(line, calls, cancelled, n);
      MoreCancelled(b[0], b[0], calls, cancelled, r);
      MoreCancelled(b[|b| - 1], r, calls, cancelled, r);
    } else if a != [] {
      assert line[n - 1] == a[n - 1] == (a + b)[n - 1];
      FollowsAt(line, calls, cancelled, n - 1);
      MoreCancelled(a[n - 1], r, calls, cancelled, r);
    }
    if a != [] {
      assert line[0] == a[0] == (a + b)[0];
      MoreCancelled(a[0], r, calls, cancelled, r);
    }
  }

  lemma ChainWithdraws(a: seq<Request>, r: Request, b: seq<Request>, calls: seq<seq<Node>>, cancelled: seq<Request>)
    requires Chain(a + [r] + b, calls, cancelled) && EndsWell(a + [r] + b, calls, cancelled)
    ensures Chain(a + b, calls, cancelled + [r]) && EndsWell(a + b, calls, cancelled + [r])
    ensures b != [] ==> Starts(b[0], cancelled + [r])
  {
    hide Follows, Starts, EndsWell, Proper;
    WithdrawnBounds(a, r, b, calls, cancelled);
    forall i | 0 <= i < |a + b|
      ensures Proper((a + b)[i], calls)
    {
      assert (a + b)[i] == (a + [r] + b)[if i < |a| then i else i + 1];
    }
    forall i, j | 0 <= i && j == i + 1 < |a + b|
      ensures Follows((a + b)[i], (a + b)[j], calls, cancelled + [r])
    {
      WithdrawnFollows(a, r, b, calls, cancelled, i);
    }
  }

  lemma ChainGrows(line: seq<Request>, r: Request, calls: seq<seq<Node>>, cancelled: seq<Request>)
    requires Chain(line, calls, cancelled) && Proper(r, calls)
    requires if line == [] then Starts(r, cancelled) else Follows(line[|line| - 1], r, calls, cancelled)
    ensures Chain(line + [r], calls, cancelled)
  {
    hide Hurt, Proper, Starts, Follows;
    var after := line + [r];
    assert forall i :: 0 <= i < |line| ==> after[i] == line[i];
  }

  lemma ChainOfMoreCalls(line: seq<Request>, calls: seq<seq<Node>>, cancelled: seq<Request>, c: seq<Node>)
    requires Chain(line, calls, cancelled)
    ensures Chain(line, calls + [c], cancelled)
    ensures EndsWell(line, calls, cancelled) ==> EndsWell(line, calls + [c], cancelled)
  {
    hide Hurt;
  }

  lemma ChainOfMoreCancelled(line: seq<Request>, calls: seq<seq<Node>>, cancelled: seq<Request>, r: Request)
    requires Chain(line, calls, cancelled) && EndsWell(line, calls, cancelled)
    ensures Chain(line, calls, cancelled + [r]) && EndsWell(line, calls, cancelled + [r])
  {
    hide Hurt;
    HurtGrows(cancelled, r);
  }

  // ----- the whole call

  /** From position `p` on `line` holds the requests of the call, as far as it reaches. */
  predicate HoldsCall(line: seq<Request>, calls: seq<seq<Node>>, call: nat, p: nat) {
    call < |calls| && forall q :: p <= q < |line| && q - p < |calls[call]| ==>
      line[q].call == call && line[q].index == q - p && line[q].command == calls[call][q - p]
  }

  lemma {:induction false} CallReachesBack(line: seq<Request>, calls: seq<seq<Node>>, cancelled: seq<Request>, i: nat,
                                           j: nat)
    requires Chain(line, calls, cancelled) && i < |line| && !Hurt(cancelled, line[i].call) && j <= line[i].index
    ensures i - j >= 0 && line[i - j].call == line[i].call && line[i - j].index == line[i].index - j
  {
    if j > 0 {
      CallReachesBack(line, calls, cancelled, i, j - 1);
      var k := i - j;
      if k >= 0 {
        assert Follows(line[k], line[k + 1], calls, cancelled);
      }
    }
  }

  lemma {:induction false} CallReachesOn(line: seq<Request>, calls: seq<seq<Node>>, cancelled: seq<Request>, i: nat,
                                         j: nat)
    requires Chain(line, calls, cancelled) && i < |line| && !Hurt(cancelled, line[i].call)
    requires line[i].index + j < |calls[line[i].call]| && (i + j < |line| || EndsWell(line, calls, cancelled))
    ensures i + j < |line| && line[i + j].call == line[i].call && line[i + j].index == line[i].index + j
  {
    if j > 0 {
      CallReachesOn(line, calls, cancelled, i, j - 1);
      var k := i + j;
      if k < |line| {
        assert Follows(line[k - 1], line[k], calls, cancelled);
      }
    }
  }

  /** Around any request of a call that no cancellation has touched stand the other requests of the
      call, each in its place; all of them, if the line ends well. */
  lemma CallStaysTogether(line: seq<Request>, calls: seq<seq<Node>>, cancelled: seq<Request>, i: nat)
    requires Chain(line, calls, cancelled) && i < |line| && !Hurt(cancelled, line[i].call)
    ensures i - line[i].index >= 0 && HoldsCall(line, calls, line[i].call, i - line[i].index)
    ensures EndsWell(line, calls, cancelled) ==> i - line[i].index + |calls[line[i].call]| <= |line|
  {
    hide Hurt, Follows, Ends, Starts;
    var call, p := line[i].call, i - line[i].index;
    CallReachesBack(line, calls, cancelled, i, line[i].index);
    assert Proper(line[i], calls);
    forall q | p <= q < |line| && q - p < |calls[call]|
      ensures line[q].call == call && line[q].index == q - p && line[q].command == calls[call][q - p]
    {
      CallReachesOn(line, calls, cancelled, p, q - p);
      assert Proper(line[q], calls);
    }
    if EndsWell(line, calls, cancelled) {
      CallReachesOn(line, calls, cancelled, p, |calls[call]| - 1);
    }
  }

  // ----- what every step keeps

  predicate Drains(caller: Caller) {
    caller.Draining? || caller.Moving? || caller.Printing?
  }

  /** By call, and within a call by position. */
  predicate Sorted(issued: seq<Request>) {
    forall i, j :: 0 <= i < j < |issued| ==>
      issued[i].call < issued[j].call || (issued[i].call == issued[j].call && issued[i].index < issued[j].index)
  }

  /** Nothing has been issued that comes after what is being made. */
  predicate Bounded(issued: seq<Request>, api: Api, calls: seq<seq<Node>>) {
    forall i :: 0 <= i < |issued| ==>
      issued[i].call < |calls| && (api.Making? && issued[i].call == |calls| - 1 ==> issued[i].index < api.index)
  }

  /** How far the call in progress has come. */
  predicate Progress(api: Api, calls: seq<seq<Node>>, queue: seq<Request>, line: seq<Request>,
                     cancelled: seq<Request>) {
    match api
    case Making(rest, index, _) =>
      && calls != [] && calls[|calls| - 1] != [] && index <= |calls[|calls| - 1]| && calls[|calls| - 1][index..] == rest
      && (index == 0 ==> EndsWell(line, calls, cancelled))
      && (index > 0 ==> queue != [] && queue[|queue| - 1].call == |calls| - 1 && queue[|queue| - 1].index == index - 1)
    case _ => EndsWell(line, calls, cancelled)
  }

  predicate PastTogether(past: seq<Track>, calls: seq<seq<Node>>, cancelled: seq<Request>) {
    forall i :: 0 <= i < |past| ==> Chain(past[i].moved, calls, cancelled) && EndsWell(past[i].moved, calls, cancelled)
  }

  /** On the current connection, with what is still to go to it, calls follow one another; and a
      connection is given up only between calls. */
  predicate LineTogether(a: Ledger, api: Api, calls: seq<seq<Node>>, draining: bool) {
    && Chain(a.now.moved + a.queue, calls, a.cancelled)
    && Progress(api, calls, a.queue, a.now.moved + a.queue, a.cancelled)
    && (!draining && a.queue != [] ==> Starts(a.queue[0], a.cancelled))
  }

  predicate Together(s: State) {
    var a := Abs(s);
    && LineTogether(a, s.api, s.calls, Drains(s.caller))
    && PastTogether(a.past, s.calls, s.cancelled)
    && Sorted(s.issued) && Bounded(s.issued, s.api, s.calls)
  }

  // ----- steps

  lemma MakeKeeps(a: Ledger, api: Api, calls: seq<seq<Node>>, c: seq<Node>)
    requires LineTogether(a, api, calls, false) && PastTogether(a.past, calls, a.cancelled)
      && Bounded(a.issued, api, calls)
    requires api.NoCall? && c != []
    ensures LineTogether(a, Making(c, 0, None), calls + [c], false)
    ensures PastTogether(a.past, calls + [c], a.cancelled)
    ensures Bounded(a.issued, Making(c, 0, None), calls + [c])
  {
    hide Chain, EndsWell, Starts;
    ChainOfMoreCalls(a.now.moved + a.queue, calls, a.cancelled, c);
    forall i | 0 <= i < |a.past|
      ensures Chain(a.past[i].moved, calls + [c], a.cancelled) && EndsWell(a.past[i].moved, calls + [c], a.cancelled)
    {
      ChainOfMoreCalls(a.past[i].moved, calls, a.cancelled, c);
    }
  }

  lemma AllocKeeps(a: Ledger, api: Api, calls: seq<seq<Node>>, r: Request, api': Api)
    requires LineTogether(a, api, calls, false) && api.Making? && api.rest != []
    requires r.call == |calls| - 1 && r.index == api.index && r.command == api.rest[0]
    requires api' == Making(api.rest[1..], api.index + 1, Some(r))
    ensures LineTogether(a.(queue := a.queue + [r], issued := a.issued + [r]), api', calls, false)
  {
    hide Chain, Hurt;
    var line := a.now.moved + a.queue;
    assert a.now.moved + (a.queue + [r]) == line + [r];
    var c := calls[|calls| - 1];
    assert c[api.index..][0] == c[api.index] && c[api.index..][1..] == c[api.index + 1..];
    assert api.index > 0 ==> line[|line| - 1] == a.queue[|a.queue| - 1];
    ChainGrows(line, r, calls, a.cancelled);
  }

  lemma IssueKeepsSorted(issued: seq<Request>, api: Api, calls: seq<seq<Node>>, r: Request, api': Api)
    requires Sorted(issued) && Bounded(issued, api, calls) && api.Making? && calls != []
    requires r.call == |calls| - 1 && r.index == api.index && api'.Making? && api'.index == api.index + 1
    ensures Sorted(issued + [r]) && Bounded(issued + [r], api', calls)
  {}

  lemma ReturnKeeps(a: Ledger, api: Api, calls: seq<seq<Node>>)
    requires LineTogether(a, api, calls, false) && api.Making? && api.rest == []
    ensures LineTogether(a, NoCall, calls, false)
  {
    hide Chain, Hurt, Starts;
    var line := a.now.moved + a.queue;
    var c := calls[|calls| - 1];
    assert |c[api.index..]| == |c| - api.index;
    assert line[|line| - 1] == a.queue[|a.queue| - 1];
  }

  lemma WithdrawKeeps(a: Ledger, api: Api, calls: seq<seq<Node>>, k: nat)
    requires LineTogether(a, api, calls, false) && PastTogether(a.past, calls, a.cancelled) && !api.Making?
      && k < |a.queue|
    ensures LineTogether(a.(queue := a.queue[..k] + a.queue[k + 1..], cancelled := a.cancelled + [a.queue[k]]),
      NoCall, calls, false)
    ensures PastTogether(a.past, calls, a.cancelled + [a.queue[k]])
  {
    hide Chain, Hurt, Starts, EndsWell;
    var r, before, after := a.queue[k], a.queue[..k], a.queue[k + 1..];
    assert a.now.moved + a.queue == (a.now.moved + before) + [r] + after;
    assert a.now.moved + (before + after) == (a.now.moved + before) + after;
    ChainWithdraws(a.now.moved + before, r, after, calls, a.cancelled);
    MoreCancelled(a.queue[0], r, calls, a.cancelled, r);
    forall i | 0 <= i < |a.past|
      ensures Chain(a.past[i].moved, calls, a.cancelled + [r]) && EndsWell(a.past[i].moved, calls, a.cancelled + [r])
    {
      ChainOfMoreCancelled(a.past[i].moved, calls, a.cancelled, r);
    }
  }

  lemma GiveUpKeeps(a: Ledger, calls: seq<seq<Node>>)
    requires LineTogether(a, NoCall, calls, false) && PastTogether(a.past, calls, a.cancelled)
    ensures LineTogether(a.(now := NEW_TRACK), NoCall, calls, false)
    ensures PastTogether(a.past + [a.now.(lost := a.sent)], calls, a.cancelled)
  {
    hide Chain, Starts, EndsWell;
    ChainSplits(a.now.moved, a.queue, calls, a.cancelled);
    assert [] + a.queue == a.queue;
  }

  lemma ApiAlike(a: Ledger, api: Api, api': Api, calls: seq<seq<Node>>, draining: bool)
    requires api.Making? <==> api'.Making?
    requires api.Making? ==> api.rest == api'.rest && api.index == api'.index
    ensures LineTogether(a, api, calls, draining) <==> LineTogether(a, api', calls, draining)
    ensures Bounded(a.issued, api, calls) <==> Bounded(a.issued, api', calls)
  {
    hide Chain, Starts, EndsWell;
  }

  lemma AbsParts(s: State)
    ensures Abs(s).issued == s.issued && Abs(s).cancelled == s.cancelled
  {}

  lemma StillBounded(issued: seq<Request>, api: Api, calls: seq<seq<Node>>)
    requires Bounded(issued, api, calls)
    ensures Bounded(issued, NoCall, calls)
  {}

  lemma TogetherInterface(s: State, e: Event)
    requires Sane(s) && Together(s) && NextOfInterface(s, e).Some?
    ensures Together(NextOfInterface(s, e).value)
  {
    hide LineTogether, PastTogether, Sorted, Bounded, Abs, IndexOf;
    var s', a := NextOfInterface(s, e).value, Abs(s);
    InterfaceRefines(s, e);
    AbsParts(s);
    AbsParts(s');
    match e
    case Make(c) =>
      MakeKeeps(a, s.api, s.calls, c);
    case Alloc =>
      var r := s'.api.issuing.value;
      AllocKeeps(a, s.api, s.calls, r, s'.api);
      IssueKeepsSorted(s.issued, s.api, s.calls, r, s'.api);
    case Return =>
      ReturnKeeps(a, s.api, s.calls);
      StillBounded(s.issued, s.api, s.calls);
    case CancelStep =>
      ApiAlike(a, s.api, s'.api, s.calls, false);
      StillBounded(s.issued, s.api, s.calls);
      if s'.cancelled != s.cancelled {
        WithdrawKeeps(a, s.api, s.calls, IndexOf(s.unsent, s.api.id));
      }
    case _ =>
      ApiAlike(a, s.api, s'.api, s.calls, false);
  }

  lemma TogetherConnection(s: State, e: Event)
    requires Sane(s) && Together(s) && NextOfConnection(s, e).Some?
    ensures Together(NextOfConnection(s, e).value)
  {
    hide PastTogether, Sorted, Bounded, Chain, EndsWell, Starts, Abs;
    var s', a := NextOfConnection(s, e).value, Abs(s);
    ConnectionRefines(s, e);
    AbsParts(s);
    AbsParts(s');
    if e == Purge {
      GiveUpKeeps(a, s.calls);
    }
  }

  lemma TogetherDrain(s: State, e: Event)
    requires Sane(s) && Together(s) && NextOfDrain(s, e).Some?
    ensures Together(NextOfDrain(s, e).value)
  {
    hide PastTogether, Sorted, Bounded, Chain, EndsWell, Starts, Abs;
    var s', a := NextOfDrain(s, e).value, Abs(s);
    DrainRefines(s, e);
    AbsParts(s);
    AbsParts(s');
    match e
    case AddSent =>
      assert a.now.moved + [a.queue[0]] + a.queue[1..] == a.now.moved + a.queue;
    case EndDrain =>
      assert Abs(s').queue == Queue(s') == [] by { AbsQueue(s'); }
    case _ =>
  }

  lemma AbsQueue(s: State)
    ensures Abs(s).queue == Queue(s)
  {}

  lemma TogetherOthers(s: State, e: Event)
    requires Sane(s) && Together(s)
    ensures NextOfService(s, e).Some? ==> Together(NextOfService(s, e).value)
    ensures NextOfThread(s, e).Some? ==> Together(NextOfThread(s, e).value)
    ensures NextOfWorld(s, e).Some? ==> Together(NextOfWorld(s, e).value)
  {
    hide PastTogether, Sorted, Bounded, Chain, EndsWell, Starts, Abs, IsMessage;
    AbsParts(s);
    if NextOfService(s, e).Some? {
      ServiceRefines(s, e);
      AbsParts(NextOfService(s, e).value);
    }
    if NextOfThread(s, e).Some? {
      ThreadRefines(s, e);
      AbsParts(NextOfThread(s, e).value);
    }
    if NextOfWorld(s, e).Some? {
      WorldRefines(s, e);
      AbsParts(NextOfWorld(s, e).value);
    }
  }

  lemma TogetherStep(s: State, e: Event)
    requires Sane(s) && Together(s) && Next(s, e).Some?
    ensures Together(Next(s, e).value)
  {
    hide Sane, Together, NextOfInterface, NextOfConnection, NextOfDrain, NextOfService, NextOfThread, NextOfWorld;
    if NextOfInterface(s, e).Some? { TogetherInterface(s, e); }
    if NextOfConnection(s, e).Some? { TogetherConnection(s, e); }
    if NextOfDrain(s, e).Some? { TogetherDrain(s, e); }
    TogetherOthers(s, e);
  }

  lemma {:induction false} TogetherRun(s: State, events: seq<Event>)
    requires Sane(s) && Together(s) && Run(s, events).Some?
    ensures Together(Run(s, events).value)
    decreases |events|
  {
    hide Next, Sane, Together;
    if events != [] {
      SaneStep(s, events[0]);
      TogetherStep(s, events[0]);
      TogetherRun(Next(s, events[0]).value, events[1..]);
    }
  }

  lemma TogetherInitially()
    ensures Sane(INITIAL) && Together(INITIAL)
  {}

  lemma TogetherAlways(events: seq<Event>)
    requires Run(INITIAL, events).Some?
    ensures Together(Run(INITIAL, events).value)
  {
    hide Next, Run, Sane, Together;
    TogetherInitially();
    TogetherRun(INITIAL, events);
  }

  // ----- transactions

  /** On every connection, around each request of a call without cancellations, stand the other requests
      of that call, adjacent and in order: for a transaction MULTI, its commands and EXEC. The call is
      there completely unless the client is still emptying its unsent list onto the connection. */
  lemma TransactionContiguous(events: seq<Event>, l: Link, i: nat)
    requires Run(INITIAL, events).Some?
    requires l in Run(INITIAL, events).value.past || Run(INITIAL, events).value.link == Some(l)
    requires i < |l.moved| && !Hurt(Run(INITIAL, events).value.cancelled, l.moved[i].call)
    ensures var s := Run(INITIAL, events).value; var p := i - l.moved[i].index;
      && p >= 0 && HoldsCall(l.moved, s.calls, l.moved[i].call, p)
      && (l in s.past || (!Drains(s.caller) && s.api.NoCall?) ==> p + |s.calls[l.moved[i].call]| <= |l.moved|)
  {
    hide Next, Run, Chain, EndsWell, Hurt, Starts, Sorted, Bounded;
    TogetherAlways(events);
    var s := Run(INITIAL, events).value;
    var a := Abs(s);
    if l in s.past {
      var k :| 0 <= k < |s.past| && s.past[k] == l;
      assert Tracks(s.past)[k].moved == l.moved;
    } else {
      ChainFront(l.moved, a.queue, s.calls, s.cancelled);
      if !Drains(s.caller) && s.api.NoCall? {
        ChainSplits(l.moved, a.queue, s.calls, s.cancelled);
      }
    }
    CallStaysTogether(l.moved, s.calls, s.cancelled, i);
  }

  lemma ChainFront(a: seq<Request>, b: seq<Request>, calls: seq<seq<Node>>, cancelled: seq<Request>)
    requires Chain(a + b, calls, cancelled)
    ensures Chain(a, calls, cancelled)
  {
    hide Starts, Follows, Proper;
    assert forall i :: 0 <= i < |a| ==> (a + b)[i] == a[i];
  }

  /** Where the requests moved on connection `i` begin among all that were ever moved. */
  lemma {:induction false} MovedAt(past: seq<Track>, i: nat, k: nat)
    requires i < |past| && k < |past[i].moved|
    ensures |AllMoved(past[..i])| + |past[i].moved| <= |AllMoved(past)|
    ensures AllMoved(past)[|AllMoved(past[..i])| + k] == past[i].moved[k]
  {
    var front := past[..|past| - 1];
    if i < |past| - 1 {
      assert front[..i] == past[..i];
      MovedAt(front, i, k);
    }
  }

  lemma {:induction false} MovedGrows(past: seq<Track>, i: nat, j: nat)
    requires i < j <= |past|
    ensures |AllMoved(past[..i])| + |past[i].moved| <= |AllMoved(past[..j])|
  {
    assert past[..j][..j - 1] == past[..j - 1];
    if i < j - 1 {
      MovedGrows(past, i, j - 1);
    }
  }

  /** No two requests issued have the same call and the same position in it. */
  lemma OnlyOne(issued: seq<Request>, gone: seq<Request>, line: seq<Request>, p: nat, q: nat)
    requires Numbered(issued) && Sorted(issued) && line == Without(issued, gone)
    requires p < q < |line|
    ensures line[p].call != line[q].call || line[p].index != line[q].index
  {
    assert Increasing(issued);
    WithoutIncreasing(issued, gone);
    WithoutMembers(issued, gone, line[p]);
    WithoutMembers(issued, gone, line[q]);
    assert line[p] in line && line[q] in line;
    var i :| 0 <= i < |issued| && issued[i] == line[p];
    var j :| 0 <= j < |issued| && issued[j] == line[q];
    assert i < j;
  }

  /** A call without cancellations never goes out on two connections. */
  lemma TransactionNotSplit(events: seq<Event>, i: nat, j: nat, k: nat, m: nat)
    requires Run(INITIAL, events).Some?
    requires var s := Run(INITIAL, events).value; var links := s.past + (if s.link.Some? then [s.link.value] else []);
      && i < j < |links| && k < |links[i].moved| && m < |links[j].moved|
      && !Hurt(s.cancelled, links[i].moved[k].call)
    ensures var s := Run(INITIAL, events).value; var links := s.past + (if s.link.Some? then [s.link.value] else []);
      links[i].moved[k].call != links[j].moved[m].call
  {
    hide Next, Run, Hurt, Together, InOrder, Matched, Sane, SemaphoreAgrees, Counted, HoldsCall;
    OrderlyAlways(events);
    var s := Run(INITIAL, events).value;
    var links := s.past + (if s.link.Some? then [s.link.value] else []);
    if links[i].moved[k].call == links[j].moved[m].call {
      FirstOfCall(events, links[i], k);
      FirstOfCall(events, links[j], m);
      Apart(events, links, i, j, k - links[i].moved[k].index, m - links[j].moved[m].index);
    }
  }

  lemma FirstOfCall(events: seq<Event>, l: Link, i: nat)
    requires Run(INITIAL, events).Some?
    requires l in Run(INITIAL, events).value.past || Run(INITIAL, events).value.link == Some(l)
    requires i < |l.moved| && !Hurt(Run(INITIAL, events).value.cancelled, l.moved[i].call)
    ensures i - l.moved[i].index >= 0
    ensures l.moved[i - l.moved[i].index].call == l.moved[i].call && l.moved[i - l.moved[i].index].index == 0
  {
    hide Next, Run, Hurt;
    TransactionContiguous(events, l, i);
    var s := Run(INITIAL, events).value;
    TogetherAlways(events);
    ProperOnLink(s, l, i);
    var p := i - l.moved[i].index;
    assert l.moved[p].call == l.moved[i].call && l.moved[p].index == 0;
  }

  lemma ProperOnLink(s: State, l: Link, i: nat)
    requires Together(s) && (l in s.past || s.link == Some(l)) && i < |l.moved|
    ensures Proper(l.moved[i], s.calls)
  {
    hide Starts, Follows, Proper, Progress, EndsWell, Sorted, Bounded;
    var a := Abs(s);
    if l in s.past {
      var k :| 0 <= k < |s.past| && s.past[k] == l;
      assert Tracks(s.past)[k].moved == l.moved;
    } else {
      assert (a.now.moved + a.queue)[i] == l.moved[i];
    }
  }

  lemma MovedOnLinks(s: State, links: seq<Link>)
    requires links == s.past + (if s.link.Some? then [s.link.value] else [])
    ensures AllMoved(Tracks(links)) == AllMoved(Tracks(s.past)) + Now(s.link).moved
  {
    if s.link.Some? {
      assert Tracks(links) == Tracks(s.past) + [Now(s.link)];
      PastGrows(Tracks(s.past), Now(s.link));
    } else {
      assert links == s.past;
    }
  }

  lemma Apart(events: seq<Event>, links: seq<Link>, i: nat, j: nat, k: nat, m: nat)
    requires Run(INITIAL, events).Some?
    requires var s := Run(INITIAL, events).value; links == s.past + (if s.link.Some? then [s.link.value] else [])
    requires i < j < |links| && k < |links[i].moved| && m < |links[j].moved|
    ensures links[i].moved[k].call != links[j].moved[m].call || links[i].moved[k].index != links[j].moved[m].index
  {
    hide Next, Run, Hurt, LineTogether, PastTogether, Bounded, InOrder, Matched, Sane, SemaphoreAgrees, Counted,
         Without, Sorted, AllMoved, Now, Tracks;
    OrderlyAlways(events);
    TogetherAlways(events);
    var s := Run(INITIAL, events).value;
    var a := Abs(s);
    var tracks := Tracks(links);
    var line := AllMoved(a.past) + a.now.moved + a.queue;
    MovedOnLinks(s, links);
    MovedAt(tracks, i, k);
    MovedAt(tracks, j, m);
    MovedGrows(tracks, i, j);
    OnlyOne(s.issued, s.cancelled, line, |AllMoved(tracks[..i])| + k, |AllMoved(tracks[..j])| + m);
  }
}
