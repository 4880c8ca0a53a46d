/** In every interleaving requests come out of the pipeline in the order they went in: the step system
    refines a ledger with one queue. */
module PipelineOrder {
  import opened Protocol
  import opened Pipeline

  // ----- where requests are

  function Hand(caller: Caller): seq<Request> {
    if caller.Moving? then [caller.request] else []
  }

  function Issuing(api: Api): seq<Request> {
    if api.Making? && api.issuing.Some? then [api.issuing.value] else []
  }

  function Called(caller: Caller): seq<Served> {
    if caller.CallingBack? then [caller.served] else []
  }

  function Held(thread: Thread): seq<Served> {
    if thread.Holding? then [thread.served] else []
  }

  /** Requests that have met their response, oldest first. */
  function Done(s: State): seq<Served> {
    s.delivered + Called(s.caller) + s.served + Held(s.thread)
  }

  /** Requests not yet on the sent list, oldest first. */
  function Queue(s: State): seq<Request> {
    Hand(s.caller) + s.unsent + Issuing(s.api)
  }

  // ----- the ledger

  /** What a connection did to the order. */
  datatype Track = Track(moved: seq<Request>, taken: seq<Served>, lost: seq<Request>)

  const NEW_TRACK := Track([], [], [])

  datatype Ledger = Ledger(
    done: seq<Served>,
    sent: seq<Request>,
    queue: seq<Request>,
    issued: seq<Request>,
    cancelled: seq<Request>,
    purged: seq<Request>,
    now: Track,
    past: seq<Track>)

  function TrackOf(l: Link): Track {
    Track(l.moved, l.taken, l.lost)
  }

  function Tracks(past: seq<Link>): (r: seq<Track>)
    ensures |r| == |past| && forall i :: 0 <= i < |r| ==> r[i] == TrackOf(past[i])
  {
    seq(|past|, i requires 0 <= i < |past| => TrackOf(past[i]))
  }

  function Now(link: Option<Link>): Track {
    match link case Some(l) => TrackOf(l) case None => NEW_TRACK
  }

  function Abs(s: State): Ledger {
    Ledger(Done(s), s.sent, Queue(s), s.issued, s.cancelled, s.purged, Now(s.link), Tracks(s.past))
  }

  datatype Entry = Nothing | Issue(request: Request) | Move | Match(datum: Datum) | Withdraw(k: nat) | GiveUp

  /** The ledger after an entry. */
  function Entered(a: Ledger, entry: Entry): Option<Ledger> {
    match entry
    case Nothing => Some(a)
    case Issue(r) =>
      if r.id == |a.issued| then Some(a.(queue := a.queue + [r], issued := a.issued + [r])) else None
    case Move =>
      if a.queue == [] then None
      else Some(a.(queue := a.queue[1..], sent := a.sent + [a.queue[0]],
        now := a.now.(moved := a.now.moved + [a.queue[0]])))
    case Match(d) =>
      if a.sent == [] then None
      else
        var x := Served(a.sent[0], d);
        Some(a.(sent := a.sent[1..], done := a.done + [x], now := a.now.(taken := a.now.taken + [x])))
    case Withdraw(k) =>
      if k >= |a.queue| then None
      else Some(a.(queue := a.queue[..k] + a.queue[k + 1..], cancelled := a.cancelled + [a.queue[k]]))
    case GiveUp =>
      Some(a.(sent := [], purged := a.purged + a.sent, now := NEW_TRACK, past := a.past + [a.now.(lost := a.sent)]))
  }

  /** The entry that a step makes. */
  function EntryOf(s: State, e: Event): Entry {
    match e
    case Alloc =>
      if s.api.Making? && s.api.rest != [] && s.calls != []
      then Issue(Request(|s.issued|, |s.calls| - 1, s.api.index, s.api.rest[0])) else Nothing
    case AddSent => Move
    case Dispatch =>
      if s.thread.Parsed? && !IsMessage(s.thread.datum.node) && s.sent != [] then Match(s.thread.datum) else Nothing
    case CancelStep =>
      if s.api.Cancelling? && (s.api.stage == 0 || s.api.stage == 3) && IndexOf(s.unsent, s.api.id) < |s.unsent|
      then Withdraw(IndexOf(s.unsent, s.api.id)) else Nothing
    case Purge => GiveUp
    case _ => Nothing
  }

  /** While the interface is busy the user's code runs; without a connection nothing is sent and the
      reception thread does not run. */
  predicate Sane(s: State) {
    && (!s.api.NoCall? ==> UserRuns(s.caller))
    && (s.link.None? ==> s.sent == [] && (s.thread.NoThread? || s.thread.Exited?))
    && (s.link.Some? ==> s.link.value.lost == [])
    && (s.api.Making? && (s.api.rest != [] || s.api.issuing.Some?) ==> s.calls != [])
  }

  lemma SaneInterface(s: State, e: Event)
    requires Sane(s) && NextOfInterface(s, e).Some?
    ensures Sane(NextOfInterface(s, e).value)
  {
    hide IndexOf, Requests;
  }

  lemma SaneLoops(s: State, e: Event)
    requires Sane(s)
    ensures NextOfDrain(s, e).Some? ==> Sane(NextOfDrain(s, e).value)
    ensures NextOfService(s, e).Some? ==> Sane(NextOfService(s, e).value)
  {}

  lemma SaneOthers(s: State, e: Event)
    requires Sane(s)
    ensures NextOfConnection(s, e).Some? ==> Sane(NextOfConnection(s, e).value)
    ensures NextOfThread(s, e).Some? ==> Sane(NextOfThread(s, e).value)
    ensures NextOfWorld(s, e).Some? ==> Sane(NextOfWorld(s, e).value)
  {
    hide IsMessage;
  }

  lemma SaneStep(s: State, e: Event)
    requires Sane(s) && Next(s, e).Some?
    ensures Sane(Next(s, e).value)
  {
    hide Sane, NextOfInterface, NextOfConnection, NextOfDrain, NextOfService, NextOfThread, NextOfWorld;
    if NextOfInterface(s, e).Some? { SaneInterface(s, e); }
    SaneLoops(s, e);
    SaneOthers(s, e);
  }

  lemma DoneUnchanged(s: State, s': State)
    requires s.delivered == s'.delivered && s.caller == s'.caller && s.served == s'.served && s.thread == s'.thread
    ensures Done(s) == Done(s')
  {}

  lemma DoneAlike(s: State, s': State)
    requires s.delivered == s'.delivered && !s.caller.CallingBack? && !s'.caller.CallingBack?
    requires s.served == s'.served && s.thread == s'.thread
    ensures Done(s) == Done(s')
  {}

  lemma QueueUnchanged(s: State, s': State)
    requires s.caller == s'.caller && s.unsent == s'.unsent && s.api == s'.api
    ensures Queue(s) == Queue(s')
  {}

  lemma CancelRefines(s: State)
    requires Sane(s) && s.api.Cancelling? && s.api.stage < 6
    ensures Entered(Abs(s), EntryOf(s, CancelStep)) == Some(Abs(CancelStepped(s, s.api.id, s.api.stage)))
  {
    hide Tracks, Now, TrackOf, Called, Held, Done, IndexOf, Requests;
    var s' := CancelStepped(s, s.api.id, s.api.stage);
    DoneUnchanged(s, s');
    assert Queue(s) == s.unsent && Queue(s') == s'.unsent;
  }

  lemma InterfaceRefines(s: State, e: Event)
    requires Sane(s) && NextOfInterface(s, e).Some?
    ensures Entered(Abs(s), EntryOf(s, e)) == Some(Abs(NextOfInterface(s, e).value))
  {
    hide Tracks, Now, TrackOf, Called, Held, Done, IndexOf, Requests, CancelStepped;
    var s' := NextOfInterface(s, e).value;
    if e != CancelStep {
      DoneUnchanged(s, s');
    }
    match e
    case Alloc => assert Queue(s') == Queue(s) + Issuing(s'.api);
    case Add => assert Queue(s') == Queue(s);
    case CancelStep => CancelRefines(s);
    case _ =>
  }

  lemma ConnectionRefines(s: State, e: Event)
    requires Sane(s) && NextOfConnection(s, e).Some?
    ensures Entered(Abs(s), EntryOf(s, e)) == Some(Abs(NextOfConnection(s, e).value))
  {
    hide Issuing, IndexOf;
    var s' := NextOfConnection(s, e).value;
    if e == Purge {
      assert Tracks(s'.past) == Tracks(s.past) + [Now(s.link).(lost := s.sent)];
    }
  }

  lemma DrainRefines(s: State, e: Event)
    requires Sane(s) && NextOfDrain(s, e).Some?
    ensures Entered(Abs(s), EntryOf(s, e)) == Some(Abs(NextOfDrain(s, e).value))
  {
    hide Tracks, Held, Issuing, IndexOf, Done;
    var s' := NextOfDrain(s, e).value;
    assert Done(s') == Done(s) by { DoneAlike(s, s'); }
    match e
    case Take => assert Queue(s') == Queue(s);
    case AddSent => assert Queue(s) == Hand(s.caller) + Queue(s');
    case _ =>
  }

  lemma ServiceRefines(s: State, e: Event)
    requires Sane(s) && NextOfService(s, e).Some?
    ensures Entered(Abs(s), EntryOf(s, e)) == Some(Abs(NextOfService(s, e).value))
  {
    hide Tracks, Held, Issuing, IndexOf, Now;
    var s' := NextOfService(s, e).value;
    assert Queue(s') == Queue(s) && Done(s') == Done(s);
  }

  lemma ThreadRefines(s: State, e: Event)
    requires Sane(s) && NextOfThread(s, e).Some?
    ensures Entered(Abs(s), EntryOf(s, e)) == Some(Abs(NextOfThread(s, e).value))
  {
    hide IsMessage, Tracks, Called, Queue, IndexOf;
    var s' := NextOfThread(s, e).value;
    QueueUnchanged(s, s');
    match e
    case Dispatch => assert Done(s') == Done(s) + Held(s'.thread);
    case PutServed => assert Done(s') == Done(s);
    case _ =>
  }

  lemma WorldRefines(s: State, e: Event)
    requires Sane(s) && NextOfWorld(s, e).Some?
    ensures Entered(Abs(s), EntryOf(s, e)) == Some(Abs(NextOfWorld(s, e).value))
  {}

  /** Each step makes one entry in the ledger. */
  lemma StepRefines(s: State, e: Event)
    requires Sane(s) && Next(s, e).Some?
    ensures Sane(Next(s, e).value)
    ensures Entered(Abs(s), EntryOf(s, e)) == Some(Abs(Next(s, e).value))
  {
    hide Sane, Entered, EntryOf, Abs, NextOfInterface, NextOfConnection, NextOfDrain, NextOfService, NextOfThread,
         NextOfWorld;
    SaneStep(s, e);
    if NextOfInterface(s, e).Some? { InterfaceRefines(s, e); }
    if NextOfConnection(s, e).Some? { ConnectionRefines(s, e); }
    if NextOfDrain(s, e).Some? { DrainRefines(s, e); }
    if NextOfService(s, e).Some? { ServiceRefines(s, e); }
    if NextOfThread(s, e).Some? { ThreadRefines(s, e); }
    if NextOfWorld(s, e).Some? { WorldRefines(s, e); }
  }

  // ----- leaving requests out

  /** The requests that are not among those gone, in order. */
  function Without(all: seq<Request>, gone: seq<Request>): seq<Request> {
    if all == [] then []
    else
      var last := all[|all| - 1];
      Without(all[..|all| - 1], gone) + (if last in gone then [] else [last])
  }

  predicate Increasing(all: seq<Request>) {
    forall i, j :: 0 <= i < j < |all| ==> all[i].id < all[j].id
  }

  lemma WithoutAppended(all: seq<Request>, r: Request, gone: seq<Request>)
    ensures Without(all + [r], gone) == Without(all, gone) + (if r in gone then [] else [r])
  {
    assert (all + [r])[..|all|] == all;
  }

  lemma {:induction false} WithoutConcat(a: seq<Request>, b: seq<Request>, gone: seq<Request>)
    ensures Without(a + b, gone) == Without(a, gone) + Without(b, gone)
  {
    if b == [] {
      assert a + b == a;
    } else {
      var n := |b| - 1;
      assert a + b == (a + b[..n]) + [b[n]] && b == b[..n] + [b[n]];
      WithoutConcat(a, b[..n], gone);
      WithoutAppended(a + b[..n], b[n], gone);
      WithoutAppended(b[..n], b[n], gone);
    }
  }

  lemma {:induction false} WithoutNone(all: seq<Request>, gone: seq<Request>)
    requires forall r :: r in all ==> r !in gone
    ensures Without(all, gone) == all
  {
    if all != [] {
      var n := |all| - 1;
      assert all[n] in all;
      WithoutNone(all[..n], gone);
      assert all == all[..n] + [all[n]];
    }
  }

  lemma {:induction false} WithoutAll(all: seq<Request>, gone: seq<Request>)
    requires forall r :: r in all ==> r in gone
    ensures Without(all, gone) == []
  {
    if all != [] {
      WithoutAll(all[..|all| - 1], gone);
    }
  }

  lemma {:induction false} WithoutTwice(all: seq<Request>, gone: seq<Request>, more: seq<Request>, both: seq<Request>)
    requires forall r :: r in both <==> r in gone || r in more
    ensures Without(Without(all, gone), more) == Without(all, both)
  {
    if all != [] {
      var n := |all| - 1;
      WithoutTwice(all[..n], gone, more, both);
      WithoutAppended(Without(all[..n], gone), all[n], more);
      assert Without(all[..n], gone) + [] == Without(all[..n], gone);
    }
  }

  lemma {:induction false} WithoutMembers(all: seq<Request>, gone: seq<Request>, r: Request)
    ensures r in Without(all, gone) <==> r in all && r !in gone
  {
    if all != [] {
      var n := |all| - 1;
      WithoutMembers(all[..n], gone, r);
      assert all == all[..n] + [all[n]];
    }
  }

  lemma {:induction false} WithoutIncreasing(all: seq<Request>, gone: seq<Request>)
    requires Increasing(all)
    ensures Increasing(Without(all, gone))
  {
    if all != [] {
      var n := |all| - 1;
      var front := Without(all[..n], gone);
      WithoutIncreasing(all[..n], gone);
      forall i | 0 <= i < |front|
        ensures front[i].id < all[n].id
      {
        WithoutMembers(all[..n], gone, front[i]);
        assert front[i] in front;
      }
    }
  }

  /** Taking a stretch out of what is left amounts to adding it to what is gone. */
  lemma StretchGoes(all: seq<Request>, gone: seq<Request>, a: seq<Request>, x: seq<Request>, b: seq<Request>,
                    both: seq<Request>)
    requires Increasing(all) && Without(all, gone) == a + x + b
    requires forall r :: r in both <==> r in gone || r in x
    ensures Without(all, both) == a + b
  {
    WithoutIncreasing(all, gone);
    var kept := a + x + b;
    forall i, k | 0 <= i < |a| && 0 <= k < |x|
      ensures a[i] != x[k]
    {
      assert kept[i] == a[i] && kept[|a| + k] == x[k];
    }
    forall i, k | 0 <= i < |b| && 0 <= k < |x|
      ensures b[i] != x[k]
    {
      assert kept[|a| + |x| + i] == b[i] && kept[|a| + k] == x[k];
    }
    WithoutTwice(all, gone, x, both);
    WithoutConcat(a + x, b, x);
    WithoutConcat(a, x, x);
    WithoutNone(a, x);
    WithoutNone(b, x);
    WithoutAll(x, x);
    assert a + [] == a;
  }

  // ----- what every entry keeps

  function AllTaken(past: seq<Track>): seq<Served> {
    if past == [] then [] else AllTaken(past[..|past| - 1]) + past[|past| - 1].taken
  }

  function AllMoved(past: seq<Track>): seq<Request> {
    if past == [] then [] else AllMoved(past[..|past| - 1]) + past[|past| - 1].moved
  }

  function AllLost(past: seq<Track>): seq<Request> {
    if past == [] then [] else AllLost(past[..|past| - 1]) + past[|past| - 1].lost
  }

  lemma PastGrows(past: seq<Track>, t: Track)
    ensures AllTaken(past + [t]) == AllTaken(past) + t.taken
    ensures AllMoved(past + [t]) == AllMoved(past) + t.moved
    ensures AllLost(past + [t]) == AllLost(past) + t.lost
  {
    assert (past + [t])[..|past|] == past;
  }

  predicate Numbered(issued: seq<Request>) {
    forall i :: 0 <= i < |issued| ==> issued[i].id == i
  }

  /** All requests that have not been cancelled or purged, in the order they were issued. */
  function Line(a: Ledger): seq<Request> {
    Requests(a.done) + a.sent + a.queue
  }

  predicate InOrder(a: Ledger) {
    && Numbered(a.issued)
    && (forall r :: r in a.cancelled + a.purged ==> r.id < |a.issued|)
    && Line(a) == Without(a.issued, a.cancelled + a.purged)
  }

  /** The order in which requests were put on the sent list, over all connections. */
  predicate MovedInOrder(a: Ledger) {
    && Numbered(a.issued)
    && (forall r :: r in a.cancelled + a.purged ==> r.id < |a.issued|)
    && AllMoved(a.past) + a.now.moved + a.queue == Without(a.issued, a.cancelled)
  }

  /** On each connection requests meet their response in the order they were sent; the ones left over
      are those on the sent list, or those lost with the connection. */
  predicate Matched(a: Ledger) {
    && Requests(a.now.taken) + a.sent == a.now.moved
    && (forall i :: 0 <= i < |a.past| ==> Requests(a.past[i].taken) + a.past[i].lost == a.past[i].moved)
    && a.done == AllTaken(a.past) + a.now.taken
    && a.purged == AllLost(a.past)
  }

  lemma RequestsOf(served: seq<Served>, x: Served)
    ensures Requests(served + [x]) == Requests(served) + [x.request]
  {}

  lemma InOrderEntered(a: Ledger, entry: Entry)
    requires InOrder(a) && Entered(a, entry).Some?
    ensures InOrder(Entered(a, entry).value)
  {
    hide Without;
    var gone := a.cancelled + a.purged;
    var b := Entered(a, entry).value;
    match entry
    case Nothing =>
    case Issue(r) =>
      WithoutAppended(a.issued, r, gone);
      assert Line(b) == Line(a) + [r];
    case Move =>
      assert Line(b) == Line(a);
    case Match(d) =>
      RequestsOf(a.done, Served(a.sent[0], d));
      assert Line(b) == Line(a);
    case Withdraw(k) =>
      var r := a.queue[k];
      WithoutMembers(a.issued, gone, r);
      assert Line(a) == (Requests(a.done) + a.sent + a.queue[..k]) + [r] + a.queue[k + 1..];
      StretchGoes(a.issued, gone, Requests(a.done) + a.sent + a.queue[..k], [r], a.queue[k + 1..],
        b.cancelled + b.purged);
      assert Line(b) == Requests(a.done) + a.sent + a.queue[..k] + a.queue[k + 1..];
    case GiveUp =>
      forall r | r in a.sent
        ensures r.id < |a.issued|
      {
        assert r in Line(a);
        WithoutMembers(a.issued, gone, r);
      }
      StretchGoes(a.issued, gone, Requests(a.done), a.sent, a.queue, b.cancelled + b.purged);
      assert Line(b) == Requests(a.done) + a.queue;
  }

  lemma MovedInOrderEntered(a: Ledger, entry: Entry)
    requires MovedInOrder(a) && InOrder(a) && Entered(a, entry).Some?
    ensures MovedInOrder(Entered(a, entry).value)
  {
    hide Without, Line, AllMoved, AllTaken, AllLost, Requests;
    InOrderEntered(a, entry);
    var b := Entered(a, entry).value;
    var moved := AllMoved(a.past) + a.now.moved;
    match entry
    case Issue(r) =>
      WithoutAppended(a.issued, r, a.cancelled);
      assert moved + (a.queue + [r]) == moved + a.queue + [r];
    case Move =>
      assert AllMoved(a.past) + b.now.moved + b.queue == moved + a.queue;
    case Withdraw(k) =>
      assert moved + a.queue == (moved + a.queue[..k]) + [a.queue[k]] + a.queue[k + 1..];
      StretchGoes(a.issued, a.cancelled, moved + a.queue[..k], [a.queue[k]], a.queue[k + 1..], b.cancelled);
      assert moved + b.queue == (moved + a.queue[..k]) + a.queue[k + 1..];
    case GiveUp =>
      PastGrows(a.past, a.now.(lost := a.sent));
      assert moved + [] == moved;
    case _ =>
  }

  lemma MatchedEntered(a: Ledger, entry: Entry)
    requires Matched(a) && Entered(a, entry).Some?
    ensures Matched(Entered(a, entry).value)
  {
    match entry
    case Match(d) =>
      RequestsOf(a.now.taken, Served(a.sent[0], d));
    case GiveUp =>
      PastGrows(a.past, a.now.(lost := a.sent));
    case _ =>
  }

  // ----- the semaphore and the counter

  /** A request is on the served list for each unit of the semaphore, apart from one just put there and
      one about to be taken. */
  predicate SemaphoreAgrees(s: State) {
    |s.served| == s.semaphore + (if s.thread.Signalling? then 1 else 0) + (if s.caller.Popping? then 1 else 0)
  }

  /** The counter counts the requests in the pipeline, and also those purged. */
  predicate Counted(s: State) {
    s.inFlight == |Queue(s)| + |s.sent| + |Held(s.thread)| + |s.served| + |Called(s.caller)| + |s.purged|
  }

  lemma CountsInterface(s: State, e: Event)
    requires Sane(s) && Counted(s) && NextOfInterface(s, e).Some?
    ensures Counted(NextOfInterface(s, e).value)
    ensures SemaphoreAgrees(s) ==> SemaphoreAgrees(NextOfInterface(s, e).value)
  {
    hide Requests, Held, Called, CancelStepped;
    if e == CancelStep {
      CountsCancel(s);
    }
  }

  lemma CountsCancel(s: State)
    requires Sane(s) && Counted(s) && s.api.Cancelling? && s.api.stage < 6
    ensures var s' := CancelStepped(s, s.api.id, s.api.stage);
      Counted(s') && (SemaphoreAgrees(s) ==> SemaphoreAgrees(s'))
  {
    hide Requests, Held, Called, IndexOf, UserRuns;
  }

  lemma CountsDrain(s: State, e: Event)
    requires Sane(s) && Counted(s) && NextOfDrain(s, e).Some?
    ensures Counted(NextOfDrain(s, e).value)
    ensures SemaphoreAgrees(s) ==> SemaphoreAgrees(NextOfDrain(s, e).value)
  {
    hide Held, Issuing;
  }

  lemma CountsService(s: State, e: Event)
    requires Sane(s) && Counted(s) && NextOfService(s, e).Some?
    ensures Counted(NextOfService(s, e).value)
    ensures SemaphoreAgrees(s) ==> SemaphoreAgrees(NextOfService(s, e).value)
  {
    hide Held, Issuing;
  }

  lemma CountsConnection(s: State, e: Event)
    requires Sane(s) && Counted(s) && NextOfConnection(s, e).Some?
    ensures Counted(NextOfConnection(s, e).value)
    ensures SemaphoreAgrees(s) ==> SemaphoreAgrees(NextOfConnection(s, e).value)
  {
    hide Issuing;
  }

  lemma CountsThread(s: State, e: Event)
    requires Sane(s) && Counted(s) && NextOfThread(s, e).Some?
    ensures Counted(NextOfThread(s, e).value)
    ensures SemaphoreAgrees(s) ==> SemaphoreAgrees(NextOfThread(s, e).value)
  {
    hide IsMessage, Issuing, Called, Hand;
  }

  lemma CountsWorld(s: State, e: Event)
    requires Sane(s) && Counted(s) && NextOfWorld(s, e).Some?
    ensures Counted(NextOfWorld(s, e).value)
    ensures SemaphoreAgrees(s) ==> SemaphoreAgrees(NextOfWorld(s, e).value)
  {
    hide Issuing, Called, Hand, Held;
  }

  lemma CountsStep(s: State, e: Event)
    requires Sane(s) && Counted(s) && SemaphoreAgrees(s) && Next(s, e).Some?
    ensures Counted(Next(s, e).value) && SemaphoreAgrees(Next(s, e).value)
  {
    hide Sane, Counted, SemaphoreAgrees, NextOfInterface, NextOfConnection, NextOfDrain, NextOfService, NextOfThread,
         NextOfWorld;
    if NextOfInterface(s, e).Some? { CountsInterface(s, e); }
    if NextOfConnection(s, e).Some? { CountsConnection(s, e); }
    if NextOfDrain(s, e).Some? { CountsDrain(s, e); }
    if NextOfService(s, e).Some? { CountsService(s, e); }
    if NextOfThread(s, e).Some? { CountsThread(s, e); }
    if NextOfWorld(s, e).Some? { CountsWorld(s, e); }
  }

  // ----- runs

  predicate Orderly(s: State) {
    Sane(s) && SemaphoreAgrees(s) && Counted(s) && InOrder(Abs(s)) && MovedInOrder(Abs(s)) && Matched(Abs(s))
  }

  lemma OrderlyStep(s: State, e: Event)
    requires Orderly(s) && Next(s, e).Some?
    ensures Orderly(Next(s, e).value)
  {
    hide Sane, SemaphoreAgrees, Counted, InOrder, MovedInOrder, Matched, Abs, Entered, EntryOf, Next;
    StepRefines(s, e);
    CountsStep(s, e);
    InOrderEntered(Abs(s), EntryOf(s, e));
    MovedInOrderEntered(Abs(s), EntryOf(s, e));
    MatchedEntered(Abs(s), EntryOf(s, e));
  }

  lemma {:induction false} RunExtended(s: State, events: seq<Event>, e: Event)
    requires Run(s, events).Some?
    ensures Run(s, events + [e]) == Next(Run(s, events).value, e)
    decreases |events|
  {
    hide Next;
    if events == [] {
      assert (events + [e])[1..] == [];
      assert forall s' :: Run(s', []) == Some(s');
    } else {
      assert (events + [e])[1..] == events[1..] + [e];
      RunExtended(Next(s, events[0]).value, events[1..], e);
    }
  }

  lemma {:induction false} OrderlyRun(s: State, events: seq<Event>)
    requires Orderly(s) && Run(s, events).Some?
    ensures Orderly(Run(s, events).value)
    decreases |events|
  {
    hide Next, Orderly;
    if events != [] {
      OrderlyStep(s, events[0]);
      OrderlyRun(Next(s, events[0]).value, events[1..]);
    }
  }

  lemma OrderlyAlways(events: seq<Event>)
    requires Run(INITIAL, events).Some?
    ensures Orderly(Run(INITIAL, events).value)
  {
    hide Next, Run;
    OrderlyInitially();
    OrderlyRun(INITIAL, events);
  }

  lemma OrderlyInitially()
    ensures Orderly(INITIAL)
  {}

  /** First in, first out, in every interleaving: reading the pipeline from its far end, delivered, on
      the served list, in hand, on the sent list, unsent, gives the requests as issued, without those
      cancelled or purged. */
  lemma PipelineIsFifo(events: seq<Event>)
    requires Run(INITIAL, events).Some?
    ensures var s := Run(INITIAL, events).value;
      && Requests(s.delivered + Called(s.caller) + s.served + Held(s.thread)) + s.sent
         + (Hand(s.caller) + s.unsent + Issuing(s.api))
         == Without(s.issued, s.cancelled + s.purged)
      && Increasing(s.issued)
  {
    hide Next, Run, Without;
    OrderlyAlways(events);
  }

  /** The semaphore never promises more than the served list holds, so the removal that follows a
      decrement finds a request. */
  lemma PopFindsRequest(events: seq<Event>)
    requires Run(INITIAL, events).Some?
    ensures var s := Run(INITIAL, events).value;
      && SemaphoreAgrees(s) && s.semaphore <= |s.served|
      && (s.caller.Popping? ==>
            s.served != [] && Next(s, Pop) == Some(s.(caller := CallingBack(s.served[0]), served := s.served[1..])))
  {
    hide Run;
    OrderlyAlways(events);
  }

  /** No request is both purged, or cancelled, and served. */
  lemma PurgedIsNotServed(events: seq<Event>, r: Request)
    requires Run(INITIAL, events).Some?
    ensures var s := Run(INITIAL, events).value;
      r in s.purged || r in s.cancelled ==> r !in Requests(Done(s)) && r !in s.sent && r !in Queue(s)
  {
    hide Next, Run, Without;
    OrderlyAlways(events);
    var s := Run(INITIAL, events).value;
    var a := Abs(s);
    WithoutMembers(s.issued, s.cancelled + s.purged, r);
    assert r in Requests(Done(s)) || r in s.sent || r in Queue(s) ==> r in Line(a);
  }

  /** Every request ever issued is in one of the places, or cancelled, or purged. */
  lemma RequestIsSomewhere(events: seq<Event>, r: Request)
    requires Run(INITIAL, events).Some? && r in Run(INITIAL, events).value.issued
    ensures var s := Run(INITIAL, events).value;
      || r in s.cancelled || r in s.purged || r in Requests(Done(s)) || r in s.sent || r in Queue(s)
  {
    hide Next, Run, Without, Done, Queue;
    OrderlyAlways(events);
    var s := Run(INITIAL, events).value;
    WithoutMembers(s.issued, s.cancelled + s.purged, r);
    assert r in Line(Abs(s)) || r in s.cancelled + s.purged;
  }

  /** The counter is zero exactly when the pipeline is empty and nothing was ever purged; then every
      request has been delivered or cancelled, in order. */
  lemma FlushedExactlyWhen(events: seq<Event>)
    requires Run(INITIAL, events).Some?
    ensures var s := Run(INITIAL, events).value;
      && s.inFlight >= 0
      && (s.inFlight == 0 <==>
            Queue(s) == [] && s.sent == [] && Held(s.thread) == [] && s.served == [] && Called(s.caller) == []
              && s.purged == [])
      && (s.inFlight == 0 ==> Requests(s.delivered) == Without(s.issued, s.cancelled))
  {
    hide Next, Run, Without;
    OrderlyAlways(events);
    var s := Run(INITIAL, events).value;
    if s.inFlight == 0 {
      assert s.cancelled + s.purged == s.cancelled && Done(s) == s.delivered;
      assert Requests(s.delivered) + [] + [] == Requests(s.delivered);
    }
  }

  // ----- what the counter counts

  /** The counter goes up with each request issued, and down only when one is delivered or cancelled. */
  predicate CountsIssued(s: State) {
    |s.issued| == s.inFlight + |s.delivered| + |s.cancelled|
  }

  lemma StepCounts(s: State, e: Event)
    requires Next(s, e).Some?
    ensures CountsIssued(s) ==> CountsIssued(Next(s, e).value)
    ensures s.purged <= Next(s, e).value.purged
  {
    hide CountsIssued, NextOfInterface, NextOfConnection, NextOfDrain, NextOfService, NextOfThread, NextOfWorld;
    if NextOfInterface(s, e).Some? { InterfaceCounts(s, e); }
    if NextOfConnection(s, e).Some? { ConnectionCounts(s, e); }
    if NextOfDrain(s, e).Some? { DrainCounts(s, e); }
    if NextOfService(s, e).Some? { ServiceCounts(s, e); }
    if NextOfThread(s, e).Some? { ThreadCounts(s, e); }
    if NextOfWorld(s, e).Some? { WorldCounts(s, e); }
  }

  lemma InterfaceCounts(s: State, e: Event)
    requires NextOfInterface(s, e).Some?
    ensures CountsIssued(s) ==> CountsIssued(NextOfInterface(s, e).value)
    ensures s.purged <= NextOfInterface(s, e).value.purged
  {
    hide CancelStepped, UserRuns;
    if e == CancelStep {
      CancelCounts(s);
    }
  }

  lemma ConnectionCounts(s: State, e: Event)
    requires NextOfConnection(s, e).Some?
    ensures CountsIssued(s) ==> CountsIssued(NextOfConnection(s, e).value)
    ensures s.purged <= NextOfConnection(s, e).value.purged
  {}

  lemma DrainCounts(s: State, e: Event)
    requires NextOfDrain(s, e).Some?
    ensures CountsIssued(s) ==> CountsIssued(NextOfDrain(s, e).value)
    ensures s.purged <= NextOfDrain(s, e).value.purged
  {}

  lemma ServiceCounts(s: State, e: Event)
    requires NextOfService(s, e).Some?
    ensures CountsIssued(s) ==> CountsIssued(NextOfService(s, e).value)
    ensures s.purged <= NextOfService(s, e).value.purged
  {}

  lemma ThreadCounts(s: State, e: Event)
    requires NextOfThread(s, e).Some?
    ensures CountsIssued(s) ==> CountsIssued(NextOfThread(s, e).value)
    ensures s.purged <= NextOfThread(s, e).value.purged
  {
    hide Reading, Incoming, IsMessage;
  }

  lemma WorldCounts(s: State, e: Event)
    requires NextOfWorld(s, e).Some?
    ensures CountsIssued(s) ==> CountsIssued(NextOfWorld(s, e).value)
    ensures s.purged <= NextOfWorld(s, e).value.purged
  {
    hide Answers;
  }

  lemma CancelCounts(s: State)
    requires s.api.Cancelling?
    ensures var s' := CancelStepped(s, s.api.id, s.api.stage);
      (CountsIssued(s) ==> CountsIssued(s')) && s'.purged == s.purged
  {
    hide Requests, IndexOf;
  }

  lemma {:induction false} RunCounts(s: State, events: seq<Event>)
    requires Run(s, events).Some?
    ensures CountsIssued(s) ==> CountsIssued(Run(s, events).value)
    ensures s.purged <= Run(s, events).value.purged
    decreases |events|
  {
    hide Next, CountsIssued;
    if events != [] {
      StepCounts(s, events[0]);
      RunCounts(Next(s, events[0]).value, events[1..]);
    }
  }

  /** The counter is what has been issued and neither delivered nor cancelled: everything still in the
      pipeline, and everything purged. */
  lemma InFlightIsConserved(events: seq<Event>)
    requires Run(INITIAL, events).Some?
    ensures var s := Run(INITIAL, events).value;
      && s.inFlight == |s.issued| - |s.delivered| - |s.cancelled|
      && s.inFlight == |Queue(s)| + |s.sent| + |Held(s.thread)| + |s.served| + |Called(s.caller)| + |s.purged|
  {
    hide Next, Run;
    OrderlyAlways(events);
    RunCounts(INITIAL, events);
  }

  /** What has been purged stays purged and counted: from then on the counter is never zero again. */
  lemma PurgedStaysCounted(events: seq<Event>, more: seq<Event>)
    requires Run(INITIAL, events).Some? && Run(Run(INITIAL, events).value, more).Some?
    ensures var s := Run(INITIAL, events).value; var s' := Run(s, more).value;
      s.purged <= s'.purged && s'.inFlight >= |s.purged|
  {
    hide Next, Run;
    OrderlyAlways(events);
    var s := Run(INITIAL, events).value;
    OrderlyRun(s, more);
    RunCounts(s, more);
  }

  /** On every connection the k-th request to meet a response is the k-th that was sent, and what
      callbacks see, over all connections, is what met, in that order. */
  lemma KthTakenIsKthMoved(events: seq<Event>, l: Link, k: nat)
    requires Run(INITIAL, events).Some?
    requires l in Run(INITIAL, events).value.past || Run(INITIAL, events).value.link == Some(l)
    requires k < |l.taken|
    ensures k < |l.moved| && l.taken[k].request == l.moved[k]
    ensures var s := Run(INITIAL, events).value; Done(s) == AllTaken(Tracks(s.past)) + Now(s.link).taken
  {
    hide Next, Run, Without;
    OrderlyAlways(events);
    var s := Run(INITIAL, events).value;
    if l in s.past {
      var i :| 0 <= i < |s.past| && s.past[i] == l;
      assert Tracks(s.past)[i] == TrackOf(l);
      assert (Requests(l.taken) + l.lost)[k] == Requests(l.taken)[k];
    } else {
      assert (Requests(l.taken) + s.sent)[k] == Requests(l.taken)[k];
    }
  }
}
