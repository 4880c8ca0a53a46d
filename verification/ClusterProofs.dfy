/** What every run of the cluster client keeps. */
module ClusterProofs {
  import opened Bytes
  import opened Sequences
  import opened Protocol
  import Shapes
  import opened HashSlot
  import opened Coverage
  import opened RoutingTable
  import opened ClusterModel

  // ----- the configuration

  /** At most one CLUSTER SLOTS query is out, and only while the configuration is pending. */
  predicate QueryInv(config: ConfigState, owed: seq<Owed>) {
    && (forall i :: 0 <= i < |owed| && owed[i].Query? ==> config == QueryPending)
    && (forall i, j :: 0 <= i < j < |owed| ==> !(owed[i].Query? && owed[j].Query?))
  }

  ghost predicate StableInv(config: ConfigState, table: seq<ClusterNode>, cursor: Option<nat>) {
    && (cursor.Some? ==> config == Stable)
    && (config == Stable ==> forall slot :: 0 <= slot < SLOTS ==> Routable(table, slot))
  }

  ghost predicate ConfigInv(s: State) {
    QueryInv(s.config, s.owed) && StableInv(s.config, s.table, s.cursor)
  }

  lemma NoQueryUnlessPending(config: ConfigState, owed: seq<Owed>, config': ConfigState)
    requires QueryInv(config, owed) && config != QueryPending
    ensures QueryInv(config', owed)
  {}

  lemma QueryAppended(config: ConfigState, owed: seq<Owed>, o: Owed)
    requires QueryInv(config, owed) && !o.Query?
    ensures QueryInv(config, owed + [o])
  {}

  lemma QueryRemoved(config: ConfigState, owed: seq<Owed>, i: nat)
    requires QueryInv(config, owed) && i < |owed|
    ensures QueryInv(config, WithoutIndex(owed, i))
    ensures owed[i].Query? ==> forall config' :: QueryInv(config', WithoutIndex(owed, i))
  {
    var rest := WithoutIndex(owed, i);
    forall k | 0 <= k < |rest|
      ensures rest[k] == owed[if k < i then k else k + 1]
    {}
  }

  lemma QueryFirst(config: ConfigState, owed: seq<Owed>)
    requires QueryInv(config, owed) && config != QueryPending
    ensures QueryInv(QueryPending, owed + [Query])
  {}

  lemma ConfiguredKeeps(s: State, seed: Address)
    requires ConfigInv(s) && s.cursor.None? && s.config != Stable
    ensures ConfigInv(Configured(s, seed))
  {
    if s.config == Dirty {
      QueryFirst(s.config, s.owed);
    } else if s.config == Incomplete {
      NoQueryUnlessPending(s.config, s.owed, Dirty);
    }
  }

  lemma RepliedKeeps(s: State, reply: Node)
    requires s.cursor.None? && forall config :: QueryInv(config, s.owed)
    ensures ConfigInv(ConfigReplied(s, reply))
  {
    var table := ProcessReply(s.table, reply);
    if HasFullCoverage(AllRanges(table)) {
      forall slot | 0 <= slot < SLOTS
        ensures Routable(table, slot)
      {
        CoverageMakesRoutable(table, slot);
      }
    }
  }

  lemma AnsweredKeepsConfig(s: State, i: nat, response: Node)
    requires ConfigInv(s) && s.cursor.None? && i < |s.owed|
    ensures ConfigInv(Answered(s, i, response))
  {
    hide QueryInv, StableInv, HasFullCoverage, ProcessReply;
    var rest := s.(owed := WithoutIndex(s.owed, i));
    QueryRemoved(s.config, s.owed, i);
    match s.owed[i]
    case Query => RepliedKeeps(rest, response);
    case Response(_) =>
    case Asking(id) => QueryAppended(s.config, rest.owed, Response(id));
  }

  lemma VisitAppended(s: State, i: nat, v: Visit)
    requires i < |s.requests| && ConfigInv(s) && s.config == Stable && (v.dirty ==> v.bail)
    requires v.owed.Some? ==> !v.owed.value.Query?
    ensures ConfigInv(AfterVisit(s, i, v))
  {
    hide Routable;
    if v.owed.Some? {
      QueryAppended(s.config, s.owed, v.owed.value);
      NoQueryUnlessPending(s.config, s.owed + [v.owed.value], Dirty);
    } else {
      assert s.owed + [] == s.owed;
      NoQueryUnlessPending(s.config, s.owed, Dirty);
    }
  }

  lemma ReducedKeepsConfig(s: State, i: nat)
    requires ConfigInv(s) && s.cursor == Some(i)
    ensures ConfigInv(Reduced(s, i))
  {
    assert s.config == Stable;
    hide QueryInv, Routable, RedirectionOf, KnowsAddress, RedirectAddress;
    if i < |s.requests| {
      var r := s.requests[i];
      match r.phase
      case Unsent => VisitAppended(s, i, VisitUnsent(r, s.table));
      case Pending =>
      case Ready(response) =>
        var kind := RedirectionOf(response);
        if kind != Neither {
          RedirectionText(response);
          VisitAppended(s, i, VisitRedirected(r, s.table, kind, response.data.text));
        }
    }
  }

  lemma RedirectionText(response: Node)
    ensures RedirectionOf(response) != Neither ==> response.data.Text? && response.data.textKind == SimpleError
  {}

  lemma StepKeepsConfig(s: State, e: Event)
    requires ConfigInv(s) && Next(s, e).Some?
    ensures ConfigInv(Next(s, e).value)
  {
    hide QueryInv, Routable, Reduced, Answered, Configured;
    match e
    case Submit(_) =>
    case Configure(seed) => ConfiguredKeeps(s, seed);
    case BeginPass =>
    case ReduceNext => ReducedKeepsConfig(s, s.cursor.value);
    case Answer(i, response) => AnsweredKeepsConfig(s, i, response);
    case Lose(i) => QueryRemoved(s.config, s.owed, i);
  }

  lemma {:induction false} RunKeepsConfig(s: State, events: seq<Event>)
    requires ConfigInv(s) && Run(s, events).Some?
    ensures ConfigInv(Run(s, events).value)
    decreases |events|
  {
    hide Next, ConfigInv;
    if events != [] {
      StepKeepsConfig(s, events[0]);
      RunKeepsConfig(Next(s, events[0]).value, events[1..]);
    }
  }

  /** STABLE means routable: in every reachable stable state every slot has a node. */
  lemma StableIsRoutable(events: seq<Event>, slot: int)
    requires Run(INITIAL, events).Some? && Run(INITIAL, events).value.config == Stable
    requires 0 <= slot < SLOTS
    ensures Routable(Run(INITIAL, events).value.table, slot)
  {
    hide Next;
    assert ConfigInv(INITIAL);
    RunKeepsConfig(INITIAL, events);
  }

  /** In every reachable state at most one configuration query is out, and the state is QUERY_PENDING. */
  lemma OneQueryAtATime(events: seq<Event>)
    requires Run(INITIAL, events).Some?
    ensures QueryInv(Run(INITIAL, events).value.config, Run(INITIAL, events).value.owed)
  {
    hide Next;
    assert ConfigInv(INITIAL);
    RunKeepsConfig(INITIAL, events);
  }

  // ----- the node list

  lemma StepKeepsAddresses(s: State, e: Event)
    requires DistinctAddresses(s.table) && Next(s, e).Some?
    ensures DistinctAddresses(Next(s, e).value.table)
  {
    hide ProcessReply, HasFullCoverage, AllRanges, Routable, RedirectionOf, KnowsAddress, RedirectAddress,
         IndexOfRequest;
    if e.Answer? && s.owed[e.index].Query? {
      ReplyKeepsAddressesDistinct(s.table, e.response);
    }
  }

  lemma {:induction false} RunKeepsAddresses(s: State, events: seq<Event>)
    requires DistinctAddresses(s.table) && Run(s, events).Some?
    ensures DistinctAddresses(Run(s, events).value.table)
    decreases |events|
  {
    hide Next, DistinctAddresses;
    if events != [] {
      StepKeepsAddresses(s, events[0]);
      RunKeepsAddresses(Next(s, events[0]).value, events[1..]);
    }
  }

  /** In every reachable state the node list holds at most one node for an address. */
  lemma AddressesAreDistinct(events: seq<Event>)
    requires Run(INITIAL, events).Some?
    ensures DistinctAddresses(Run(INITIAL, events).value.table)
  {
    hide Next;
    RunKeepsAddresses(INITIAL, events);
  }

  // ----- the requests

  /** The request whose object a callback has captured. */
  function Owner(o: Owed): Option<nat> {
    match o case Query => None case Response(id) => Some(id) case Asking(id) => Some(id)
  }

  predicate DistinctIds(requests: seq<Request>) {
    forall i, j :: 0 <= i < j < |requests| ==> requests[i].id != requests[j].id
  }

  predicate IsPending(requests: seq<Request>, id: nat) {
    exists k :: 0 <= k < |requests| && requests[k].id == id && requests[k].phase.Pending?
  }

  predicate HasRequest(requests: seq<Request>, id: nat) {
    exists k :: 0 <= k < |requests| && requests[k].id == id
  }

  /** Every callback in flight belongs to a request that waits for it, and no request waits for two. */
  predicate OwedInv(requests: seq<Request>, owed: seq<Owed>) {
    && (forall i :: 0 <= i < |owed| && Owner(owed[i]).Some? ==> IsPending(requests, Owner(owed[i]).value))
    && (forall i, j :: 0 <= i < j < |owed| && Owner(owed[i]).Some? ==> Owner(owed[i]) != Owner(owed[j]))
  }

  /** No callback in flight belongs to the request. */
  predicate Free(owed: seq<Owed>, id: nat) {
    forall i :: 0 <= i < |owed| ==> Owner(owed[i]) != Some(id)
  }

  predicate SoundRequest(r: Request, nextId: nat) {
    && r.id < nextId && r.slot < SLOTS && r.redirectCount < 2 && r.hops <= 1
    && (r.phase.Unsent? || r.hops <= r.redirectCount)
  }

  predicate SoundRequests(requests: seq<Request>, nextId: nat) {
    DistinctIds(requests) && forall k :: 0 <= k < |requests| ==> SoundRequest(requests[k], nextId)
  }

  predicate WasDelivered(delivered: seq<Delivery>, id: nat) {
    exists k :: 0 <= k < |delivered| && delivered[k].id == id
  }

  /** Each callback has run once, for a request that is gone, and never with a redirection. */
  predicate DeliveredInv(requests: seq<Request>, delivered: seq<Delivery>, nextId: nat) {
    && (forall i, j :: 0 <= i < j < |delivered| ==> delivered[i].id != delivered[j].id)
    && (forall i :: 0 <= i < |delivered| ==>
          delivered[i].id < nextId && !HasRequest(requests, delivered[i].id)
            && RedirectionOf(delivered[i].response) == Neither)
    && (forall id: nat :: id < nextId ==> HasRequest(requests, id) || WasDelivered(delivered, id))
  }

  predicate RequestInv(s: State) {
    && SoundRequests(s.requests, s.nextId)
    && OwedInv(s.requests, s.owed)
    && DeliveredInv(s.requests, s.delivered, s.nextId)
  }

  // ----- callbacks in flight

  lemma OwedOverRequests(requests: seq<Request>, requests': seq<Request>, owed: seq<Owed>)
    requires OwedInv(requests, owed)
    requires forall id :: IsPending(requests, id) ==> IsPending(requests', id) || Free(owed, id)
    ensures OwedInv(requests', owed)
  {
    hide IsPending;
    forall i | 0 <= i < |owed| && Owner(owed[i]).Some?
      ensures IsPending(requests', Owner(owed[i]).value)
    {
      assert IsPending(requests, Owner(owed[i]).value);
    }
  }

  lemma PendingAppended(requests: seq<Request>, r: Request, id: nat)
    requires IsPending(requests, id)
    ensures IsPending(requests + [r], id)
  {
    var k :| 0 <= k < |requests| && requests[k].id == id && requests[k].phase.Pending?;
    assert (requests + [r])[k] == requests[k];
  }

  lemma PendingElsewhere(requests: seq<Request>, k: nat, id: nat, r: Request)
    requires k < |requests| && requests[k].id != id && IsPending(requests, id)
    ensures IsPending(WithoutIndex(requests, k), id) && IsPending(requests[k := r], id)
  {
    var j :| 0 <= j < |requests| && requests[j].id == id && requests[j].phase.Pending?;
    assert WithoutIndex(requests, k)[if j < k then j else j - 1] == requests[j];
    assert requests[k := r][j] == requests[j];
  }

  /** A request nobody owes a callback to can change or go without harm. */
  lemma OwedAroundFree(requests: seq<Request>, owed: seq<Owed>, k: nat, r: Request)
    requires k < |requests| && OwedInv(requests, owed) && Free(owed, requests[k].id)
    ensures OwedInv(requests[k := r], owed)
    ensures OwedInv(WithoutIndex(requests, k), owed)
  {
    hide OwedInv, IsPending, Free;
    forall id: nat | IsPending(requests, id)
      ensures IsPending(requests[k := r], id) || Free(owed, id)
      ensures IsPending(WithoutIndex(requests, k), id) || Free(owed, id)
    {
      if id != requests[k].id {
        PendingElsewhere(requests, k, id, r);
      }
    }
    OwedOverRequests(requests, requests[k := r], owed);
    OwedOverRequests(requests, WithoutIndex(requests, k), owed);
  }

  lemma OwedRemoved(requests: seq<Request>, owed: seq<Owed>, i: nat)
    requires i < |owed| && OwedInv(requests, owed)
    ensures OwedInv(requests, WithoutIndex(owed, i))
    ensures Owner(owed[i]).Some? ==> Free(WithoutIndex(owed, i), Owner(owed[i]).value)
  {
    hide IsPending, Owner;
    var rest := WithoutIndex(owed, i);
    forall k | 0 <= k < |rest|
      ensures rest[k] == owed[if k < i then k else k + 1]
    {}
  }

  lemma OwedAdded(requests: seq<Request>, owed: seq<Owed>, o: Owed)
    requires OwedInv(requests, owed)
    requires Owner(o).Some? ==> Free(owed, Owner(o).value) && IsPending(requests, Owner(o).value)
    ensures OwedInv(requests, owed + [o])
  {
    hide IsPending, Owner;
  }

  lemma UnlessPendingFree(requests: seq<Request>, owed: seq<Owed>, k: nat)
    requires OwedInv(requests, owed) && DistinctIds(requests) && k < |requests| && !requests[k].phase.Pending?
    ensures Free(owed, requests[k].id)
  {
    hide Owner;
    forall i | 0 <= i < |owed|
      ensures Owner(owed[i]) != Some(requests[k].id)
    {
      if Owner(owed[i]).Some? {
        assert IsPending(requests, Owner(owed[i]).value);
      }
    }
  }

  // ----- what a visit may do to a request

  predicate Fits(r: Request, v: Visit, nextId: nat) {
    && v.request.id == r.id
    && SoundRequest(v.request, nextId)
    && (v.owed.Some? ==> Owner(v.owed.value) == Some(r.id) && v.request.phase.Pending?)
  }

  lemma VisitsFit(r: Request, table: seq<ClusterNode>, kind: Redirection, text: seq<byte>, nextId: nat)
    requires SoundRequest(r, nextId)
    ensures Fits(r, VisitUnsent(r, table), nextId)
    ensures !r.phase.Unsent? ==> Fits(r, VisitRedirected(r, table, kind, text), nextId)
  {
    hide Routable, KnowsAddress, RedirectAddress;
  }

  lemma SoundUpdated(requests: seq<Request>, k: nat, r: Request, nextId: nat)
    requires k < |requests| && SoundRequests(requests, nextId) && r.id == requests[k].id && SoundRequest(r, nextId)
    ensures SoundRequests(requests[k := r], nextId)
  {
    hide SoundRequest;
    var after := requests[k := r];
    assert forall i :: 0 <= i < |requests| ==> after[i].id == requests[i].id;
  }

  lemma SoundRemoved(requests: seq<Request>, k: nat, nextId: nat)
    requires k < |requests| && SoundRequests(requests, nextId)
    ensures SoundRequests(WithoutIndex(requests, k), nextId)
  {
    hide SoundRequest;
    var rest := WithoutIndex(requests, k);
    forall i | 0 <= i < |rest|
      ensures rest[i] == requests[if i < k then i else i + 1]
    {}
  }

  lemma OthersRemain(requests: seq<Request>, k: nat, id: nat)
    requires k < |requests| && DistinctIds(requests)
    ensures HasRequest(WithoutIndex(requests, k), id) <==> HasRequest(requests, id) && id != requests[k].id
  {
    var rest := WithoutIndex(requests, k);
    if HasRequest(rest, id) {
      var i :| 0 <= i < |rest| && rest[i].id == id;
      assert rest[i] == requests[if i < k then i else i + 1];
    }
    if HasRequest(requests, id) && id != requests[k].id {
      var i :| 0 <= i < |requests| && requests[i].id == id;
      assert rest[if i < k then i else i - 1].id == id;
    }
  }

  lemma SameIdsDelivered(requests: seq<Request>, k: nat, r: Request, delivered: seq<Delivery>, nextId: nat)
    requires k < |requests| && r.id == requests[k].id && DeliveredInv(requests, delivered, nextId)
    ensures DeliveredInv(requests[k := r], delivered, nextId)
  {
    hide WasDelivered, RedirectionOf;
    var after := requests[k := r];
    forall id: nat
      ensures HasRequest(after, id) <==> HasRequest(requests, id)
    {
      assert forall i :: 0 <= i < |requests| ==> after[i].id == requests[i].id;
    }
  }

  lemma UpdatedKeeps(s: State, k: nat, r: Request)
    requires RequestInv(s) && k < |s.requests| && r.id == s.requests[k].id && SoundRequest(r, s.nextId)
    requires Free(s.owed, r.id)
    ensures RequestInv(s.(requests := s.requests[k := r]))
  {
    hide SoundRequests, OwedInv, DeliveredInv, SoundRequest, Free;
    SoundUpdated(s.requests, k, r, s.nextId);
    OwedAroundFree(s.requests, s.owed, k, r);
    SameIdsDelivered(s.requests, k, r, s.delivered, s.nextId);
  }

  lemma OwedAlsoKeeps(s: State, o: Owed)
    requires RequestInv(s)
    requires Owner(o).Some? ==> Free(s.owed, Owner(o).value) && IsPending(s.requests, Owner(o).value)
    ensures RequestInv(s.(owed := s.owed + [o]))
  {
    hide SoundRequests, OwedInv, DeliveredInv, Free, IsPending;
    OwedAdded(s.requests, s.owed, o);
  }

  lemma NowPending(requests: seq<Request>, k: nat, r: Request)
    requires k < |requests|
    ensures r.phase.Pending? ==> IsPending(requests[k := r], r.id)
    ensures forall id :: HasRequest(requests + [r], id) <==> HasRequest(requests, id) || id == r.id
  {
    assert requests[k := r][k] == r;
    AppendedRequest(requests, r);
  }

  lemma AppendedRequest(requests: seq<Request>, r: Request)
    ensures forall id :: HasRequest(requests + [r], id) <==> HasRequest(requests, id) || id == r.id
  {
    var after := requests + [r];
    forall id: nat
      ensures HasRequest(after, id) <==> HasRequest(requests, id) || id == r.id
    {
      if HasRequest(requests, id) {
        var k :| 0 <= k < |requests| && requests[k].id == id;
        assert after[k].id == id;
      }
      if id == r.id {
        assert after[|requests|].id == id;
      }
    }
  }

  lemma AfterVisitKeeps(s: State, i: nat, v: Visit)
    requires RequestInv(s) && i < |s.requests| && !s.requests[i].phase.Pending? && Fits(s.requests[i], v, s.nextId)
    ensures RequestInv(AfterVisit(s, i, v))
  {
    UnlessPendingFree(s.requests, s.owed, i);
    NowPending(s.requests, i, v.request);
    hide OwedInv, DeliveredInv, Free, IsPending, SoundRequest, HasRequest, SoundRequests, Owner, MarkDirty;
    UpdatedKeeps(s, i, v.request);
    var t := s.(requests := s.requests[i := v.request]);
    if v.owed.Some? {
      OwedAlsoKeeps(t, v.owed.value);
    } else {
      assert s.owed + [] == s.owed;
    }
  }

  // ----- every step keeps the request invariant

  lemma SubmittedKeeps(s: State, slot: nat)
    requires RequestInv(s) && slot < SLOTS && s.config != Crashed
    ensures RequestInv(Next(s, Submit(slot)).value)
  {
    var r := Request(s.nextId, slot, Unsent, 0, DEFAULT_ADDRESS, 0);
    AppendedRequest(s.requests, r);
    forall id: nat | IsPending(s.requests, id)
      ensures IsPending(s.requests + [r], id)
    {
      PendingAppended(s.requests, r, id);
    }
    OwedOverRequests(s.requests, s.requests + [r], s.owed);
    SubmittedSound(s, r);
    hide OwedInv, SoundRequests, HasRequest, WasDelivered, RedirectionOf, IsPending;
  }

  lemma SubmittedSound(s: State, r: Request)
    requires SoundRequests(s.requests, s.nextId) && r.id == s.nextId && SoundRequest(r, s.nextId + 1)
    ensures SoundRequests(s.requests + [r], s.nextId + 1)
  {
    var after := s.requests + [r];
    assert forall k :: 0 <= k < |s.requests| ==> SoundRequest(s.requests[k], s.nextId);
  }

  lemma DeliveredKeeps(s: State, i: nat, response: Node)
    requires RequestInv(s) && i < |s.requests| && s.requests[i].phase == Ready(response)
    requires RedirectionOf(response) == Neither
    ensures RequestInv(s.(requests := WithoutIndex(s.requests, i),
                          delivered := s.delivered + [Delivery(s.requests[i].id, response)]))
  {
    var id := s.requests[i].id;
    UnlessPendingFree(s.requests, s.owed, i);
    OwedAroundFree(s.requests, s.owed, i, s.requests[i]);
    SoundRemoved(s.requests, i, s.nextId);
    forall other: nat
      ensures HasRequest(WithoutIndex(s.requests, i), other) <==> HasRequest(s.requests, other) && other != id
    {
      OthersRemain(s.requests, i, other);
    }
    assert SoundRequest(s.requests[i], s.nextId);
    assert HasRequest(s.requests, id);
    hide OwedInv, SoundRequests, HasRequest, RedirectionOf, WithoutIndex, Free, SoundRequest, DistinctIds;
    DeliveredAppended(s.requests, WithoutIndex(s.requests, i), s.delivered, Delivery(id, response), s.nextId);
  }

  lemma DeliveredAppended(requests: seq<Request>, rest: seq<Request>, delivered: seq<Delivery>, d: Delivery,
                          nextId: nat)
    requires DeliveredInv(requests, delivered, nextId) && HasRequest(requests, d.id) && d.id < nextId
    requires RedirectionOf(d.response) == Neither
    requires forall id :: HasRequest(rest, id) <==> HasRequest(requests, id) && id != d.id
    ensures DeliveredInv(rest, delivered + [d], nextId)
  {
    hide HasRequest, RedirectionOf;
    var after := delivered + [d];
    forall id: nat | id < nextId && !HasRequest(rest, id)
      ensures WasDelivered(after, id)
    {
      if id == d.id {
        assert after[|delivered|].id == id;
      } else {
        assert WasDelivered(delivered, id);
        var k :| 0 <= k < |delivered| && delivered[k].id == id;
        assert after[k].id == id;
      }
    }
  }

  lemma ReducedKeepsRequests(s: State, i: nat)
    requires RequestInv(s)
    ensures RequestInv(Reduced(s, i))
  {
    if i < |s.requests| {
      var r := s.requests[i];
      assert SoundRequest(r, s.nextId);
      hide OwedInv, SoundRequests, DeliveredInv, RedirectionOf, VisitUnsent, VisitRedirected, AfterVisit,
           SoundRequest, Fits, WithoutIndex;
      match r.phase
      case Unsent =>
        VisitsFit(r, s.table, Neither, [], s.nextId);
        AfterVisitKeeps(s, i, VisitUnsent(r, s.table));
      case Pending =>
      case Ready(response) =>
        var kind := RedirectionOf(response);
        if kind == Neither {
          DeliveredKeeps(s, i, response);
        } else {
          RedirectionText(response);
          VisitsFit(r, s.table, kind, response.data.text, s.nextId);
          AfterVisitKeeps(s, i, VisitRedirected(r, s.table, kind, response.data.text));
        }
    }
  }

  lemma AnsweredRequestKeeps(s: State, k: nat, response: Node)
    requires RequestInv(s) && k < |s.requests| && Free(s.owed, s.requests[k].id)
    ensures RequestInv(s.(requests := s.requests[k := Responded(s.requests[k], response)]))
      || !s.requests[k].phase.Pending?
    ensures s.requests[k].phase.Pending? ==>
      var r := Asked(s.requests[k], s.table);
      RequestInv(s.(requests := s.requests[k := r],
                    owed := if r.phase == Pending then s.owed + [Response(r.id)] else s.owed))
  {
    var r := Asked(s.requests[k], s.table);
    assert SoundRequest(s.requests[k], s.nextId);
    if s.requests[k].phase.Pending? {
      NowPending(s.requests, k, r);
      var ready := Responded(s.requests[k], response);
      assert SoundRequest(ready, s.nextId) && SoundRequest(r, s.nextId);
      hide SoundRequests, OwedInv, DeliveredInv, SoundRequest, Free, IsPending, HasRequest, KnowsAddress;
      UpdatedKeeps(s, k, ready);
      UpdatedKeeps(s, k, r);
      if r.phase == Pending {
        OwedAlsoKeeps(s.(requests := s.requests[k := r]), Response(r.id));
      }
    }
  }

  lemma OwnerIsPending(requests: seq<Request>, owed: seq<Owed>, i: nat, id: nat)
    requires OwedInv(requests, owed) && DistinctIds(requests) && i < |owed| && Owner(owed[i]) == Some(id)
    ensures IndexOfRequest(requests, id) < |requests|
    ensures requests[IndexOfRequest(requests, id)].phase.Pending?
  {
    assert IsPending(requests, id);
    var k :| 0 <= k < |requests| && requests[k].id == id && requests[k].phase.Pending?;
    var j := IndexOfRequest(requests, id);
    assert j <= k;
    assert j == k;
  }

  lemma RepliedKeepsRequests(s: State, reply: Node)
    requires RequestInv(s)
    ensures RequestInv(ConfigReplied(s, reply))
  {
    hide SoundRequests, OwedInv, DeliveredInv, ProcessReply, HasFullCoverage, AllRanges;
  }

  lemma AnsweredKeepsRequests(s: State, i: nat, response: Node)
    requires RequestInv(s) && i < |s.owed|
    ensures RequestInv(Answered(s, i, response))
  {
    var rest := s.(owed := WithoutIndex(s.owed, i));
    OwedRemoved(s.requests, s.owed, i);
    if Owner(s.owed[i]).Some? {
      OwnerIsPending(s.requests, s.owed, i, Owner(s.owed[i]).value);
      hide SoundRequests, OwedInv, DeliveredInv, Free, WithoutIndex, Responded, Asked;
      AnsweredRequestKeeps(rest, IndexOfRequest(s.requests, Owner(s.owed[i]).value), response);
    } else {
      hide SoundRequests, OwedInv, DeliveredInv, Free, WithoutIndex;
      RepliedKeepsRequests(rest, response);
    }
  }

  lemma StepKeepsRequests(s: State, e: Event)
    requires RequestInv(s) && Next(s, e).Some?
    ensures RequestInv(Next(s, e).value)
  {
    hide SoundRequests, OwedInv, DeliveredInv, Reduced, Answered;
    match e
    case Submit(slot) => SubmittedKeeps(s, slot);
    case Configure(seed) => OwedAlsoKeeps(s, Query);
    case BeginPass =>
    case ReduceNext => ReducedKeepsRequests(s, s.cursor.value);
    case Answer(i, response) => AnsweredKeepsRequests(s, i, response);
    case Lose(i) => OwedRemoved(s.requests, s.owed, i);
  }

  lemma {:induction false} RunKeepsRequests(s: State, events: seq<Event>)
    requires RequestInv(s) && Run(s, events).Some?
    ensures RequestInv(Run(s, events).value)
    decreases |events|
  {
    hide Next, RequestInv;
    if events != [] {
      StepKeepsRequests(s, events[0]);
      RunKeepsRequests(Next(s, events[0]).value, events[1..]);
    }
  }

  // ----- the life of a request

  /** In every reachable state a callback in flight finds its request in the list and PENDING, no
      request is owed two, and no request has followed two direct redirections since its last lookup. */
  lemma CallbacksFindTheirRequests(events: seq<Event>, i: nat, id: nat)
    requires Run(INITIAL, events).Some?
    ensures var s := Run(INITIAL, events).value;
      && (i < |s.owed| && Owner(s.owed[i]) == Some(id) ==>
            && IsPending(s.requests, id)
            && (forall j :: 0 <= j < |s.owed| && j != i ==> Owner(s.owed[j]) != Some(id)))
      && (forall k :: 0 <= k < |s.requests| ==> s.requests[k].hops <= 1)
  {
    hide Next;
    assert RequestInv(INITIAL);
    RunKeepsRequests(INITIAL, events);
    var s := Run(INITIAL, events).value;
    assert forall k :: 0 <= k < |s.requests| ==> SoundRequest(s.requests[k], s.nextId);
  }

  /** In every reachable state a request is in the list or has had its callback, never both and never
      twice, and no callback saw an ASK or a MOVED error. */
  lemma CallbackRunsOnce(events: seq<Event>, id: nat)
    requires Run(INITIAL, events).Some? && id < Run(INITIAL, events).value.nextId
    ensures var s := Run(INITIAL, events).value;
      && (WasDelivered(s.delivered, id) <==> !HasRequest(s.requests, id))
      && (forall i, j :: 0 <= i < |s.delivered| && 0 <= j < |s.delivered| ==>
            s.delivered[i].id == s.delivered[j].id ==> i == j)
      && (forall i :: 0 <= i < |s.delivered| ==> RedirectionOf(s.delivered[i].response) == Neither)
  {
    hide Next, RedirectionOf;
    assert RequestInv(INITIAL);
    RunKeepsRequests(INITIAL, events);
  }

  /** A step that shortens the list visits a READY request; the others keep every id. */
  lemma AllRemain(s: State, e: Event, id: nat)
    requires Next(s, e).Some? && HasRequest(s.requests, id) && !HasRequest(Next(s, e).value.requests, id)
    ensures e == ReduceNext && s.cursor.value < |s.requests|
    ensures var r := s.requests[s.cursor.value];
      && r.phase.Ready? && RedirectionOf(r.phase.response) == Neither
      && Next(s, e).value.requests == WithoutIndex(s.requests, s.cursor.value)
      && Next(s, e).value.delivered == s.delivered + [Delivery(r.id, r.phase.response)]
  {
    hide RedirectionOf, KnowsAddress, Routable, RedirectAddress, ProcessReply, HasFullCoverage, AllRanges;
    var k :| 0 <= k < |s.requests| && s.requests[k].id == id;
    SameId(s, e, k);
  }

  lemma SameId(s: State, e: Event, k: nat)
    requires Next(s, e).Some? && k < |s.requests|
    ensures var after := Next(s, e).value.requests;
      |after| >= |s.requests| ==> after[k].id == s.requests[k].id
  {
    hide RedirectionOf, KnowsAddress, Routable, RedirectAddress, ProcessReply, HasFullCoverage, AllRanges;
  }

  /** A request leaves the list in one way only: the pass finds it READY with a response that is no
      redirection and nothing in flight for it, and its callback runs with that response. */
  lemma LeavesWhenDelivered(s: State, e: Event, id: nat)
    requires RequestInv(s) && Next(s, e).Some?
    requires HasRequest(s.requests, id) && !HasRequest(Next(s, e).value.requests, id)
    ensures e == ReduceNext && s.cursor.value < |s.requests|
    ensures var r := s.requests[s.cursor.value];
      && r.id == id && r.phase.Ready? && RedirectionOf(r.phase.response) == Neither
      && Next(s, e).value.delivered == s.delivered + [Delivery(id, r.phase.response)]
    ensures Free(s.owed, id)
  {
    hide RedirectionOf, OwedInv;
    AllRemain(s, e, id);
    UnlessPendingFree(s.requests, s.owed, s.cursor.value);
    OthersRemain(s.requests, s.cursor.value, id);
  }

  /** In every reachable state, when the pass visits an UNSENT request the lookup succeeds: the request
      is sent and waits for one callback. */
  lemma LookupNeverFails(events: seq<Event>, i: nat)
    requires Run(INITIAL, events).Some?
    requires var s := Run(INITIAL, events).value;
      s.cursor == Some(i) && i < |s.requests| && s.requests[i].phase == Unsent
    ensures var s := Run(INITIAL, events).value; var r := s.requests[i];
      && s.config == Stable && Routable(s.table, r.slot)
      && Reduced(s, i) == s.(requests := s.requests[i := r.(phase := Pending, hops := 0)],
                             owed := s.owed + [Response(r.id)], cursor := Some(i + 1))
  {
    hide Next;
    assert ConfigInv(INITIAL) && RequestInv(INITIAL);
    RunKeepsConfig(INITIAL, events);
    RunKeepsRequests(INITIAL, events);
    var s := Run(INITIAL, events).value;
    assert SoundRequest(s.requests[i], s.nextId);
  }

  // ----- when the client crashes

  /** A step leads to the crash exactly when it is the reply to CLUSTER SLOTS and the reply is an array in
      which nothing reads as an assignment, or the null array, or no array while no node has a range. */
  lemma CrashesExactlyWhen(s: State, e: Event)
    requires Next(s, e).Some?
    ensures Next(s, e).value.config == Crashed <==>
            e.Answer? && s.owed[e.index] == Query && NamesNoRange(e.response, s.table)
  {
    hide NamesNoRange, ProcessReply, AllRanges, HasFullCoverage, RedirectionOf, KnowsAddress, RedirectAddress, Routable;
    if e.Answer? {
      NoRangesExactlyWhen(s.table, e.response);
    }
  }

  // ----- the code of an error

  function FirstSpace(text: seq<byte>): (k: nat)
    ensures k <= |text| && SPACE !in text[..k] && (k < |text| ==> text[k] == SPACE)
  {
    if text == [] || text[0] == SPACE then 0
    else
      var k := FirstSpace(text[1..]);
      assert text[..1 + k] == [text[0]] + text[1..][..k];
      1 + k
  }

  /** What the source says it returns: the text before the first space, or nothing if there is none. */
  function PromisedCode(text: seq<byte>): seq<byte> {
    if SPACE in text then text[..FirstSpace(text)] else []
  }

  lemma {:induction false} ErrorCodeIs(text: seq<byte>)
    ensures ErrorCode(text) == text[..FirstSpace(text)]
    ensures SPACE !in text <==> FirstSpace(text) == |text|
  {
    if text != [] && text[0] != SPACE {
      ErrorCodeIs(text[1..]);
      assert text == [text[0]] + text[1..];
      assert text[..FirstSpace(text)] == [text[0]] + text[1..][..FirstSpace(text[1..])];
    }
  }

  /** The code is the promised one exactly when the text has a space or is empty. */
  lemma ErrorCodeExactlyWhen(text: seq<byte>)
    ensures ErrorCode(text) == PromisedCode(text) <==> SPACE in text || text == []
  {
    ErrorCodeIs(text);
  }

  /** How a response would be taken by its promised code. */
  function PromisedRedirection(response: Node): Redirection {
    match response.data
    case Text(SimpleError, text) =>
      if PromisedCode(text) == ASK then Ask else if PromisedCode(text) == MOVED then Move else Neither
    case _ => Neither
  }

  /** A response is taken for a redirection against the promise exactly when it is a simple error that
      consists of the bare word ASK or MOVED. */
  lemma RedirectionDiffersExactlyWhen(response: Node)
    ensures RedirectionOf(response) != PromisedRedirection(response) <==>
            response.data == Text(SimpleError, ASK) || response.data == Text(SimpleError, MOVED)
  {
    if response.data.Text? && response.data.textKind == SimpleError {
      var text := response.data.text;
      ErrorCodeIs(text);
      assert text[..|text|] == text;
    }
  }

  // ----- some runs

  lemma {:induction false} RunExtended(s: State, events: seq<Event>, e: Event)
    requires Run(s, events).Some?
    ensures Run(s, events + [e]) == Next(Run(s, events).value, e)
    decreases |events|
  {
    hide Next;
    if events == [] {
      assert (events + [e])[1..] == [];
      assert forall s' :: Run(s', []) == Some(s');
    } else {
      assert (events + [e])[1..] == events[1..] + [e];
      RunExtended(Next(s, events[0]).value, events[1..], e);
    }
  }

  /** "ERR" */
  const REFUSAL := Node(None, Text(SimpleError, [69, 82, 82]))

  /** A server that answers CLUSTER SLOTS with an error crashes a new client. */
  lemma CrashesWithoutCluster(seed: Address)
    ensures Run(INITIAL, [Configure(seed), Answer(0, REFUSAL)]).Some?
    ensures Run(INITIAL, [Configure(seed), Answer(0, REFUSAL)]).value.config == Crashed
  {
    var s := Next(INITIAL, Configure(seed)).value;
    RunExtended(INITIAL, [], Configure(seed));
    assert [] + [Configure(seed)] == [Configure(seed)];
    RunExtended(INITIAL, [Configure(seed)], Answer(0, REFUSAL));
    assert [Configure(seed)] + [Answer(0, REFUSAL)] == [Configure(seed), Answer(0, REFUSAL)];
    CrashesExactlyWhen(s, Answer(0, REFUSAL));
  }

  /** One range, from 0 to 16383, at the default address. */
  const WHOLE_SHARE := Node(None, Aggregate(Array, [
    Node(None, Number(0)), Node(None, Number(16383)),
    Node(None, Aggregate(Array, [Node(None, Blob(BlobString, DEFAULT_ADDRESS.ip)), Node(None, Number(6379))]))]))
  const WHOLE_REPLY := Node(None, Aggregate(Array, [WHOLE_SHARE]))

  const WHOLE_TABLE := [ClusterNode(DEFAULT_ADDRESS, [SlotRange(0, SLOTS - 1)])]

  const STABLE_RUN := [Configure(DEFAULT_ADDRESS), Answer(0, WHOLE_REPLY)]

  lemma AddressReads()
    ensures CString(DEFAULT_ADDRESS.ip) == DEFAULT_ADDRESS.ip
  {
    hide CString;
    Shapes.CStringWhole(DEFAULT_ADDRESS.ip);
  }

  lemma WholeShareReads()
    ensures ReadAssignment(WHOLE_SHARE) == Some(Assignment(DEFAULT_ADDRESS, SlotRange(0, SLOTS - 1)))
  {
    hide CString;
    AddressReads();
  }

  lemma OneNodeTable(address: Address, range: SlotRange)
    ensures AddAssignment([ClusterNode(address, [])], Assignment(address, range)) == [ClusterNode(address, [range])]
    ensures WithoutStale([ClusterNode(address, [range])]) == [ClusterNode(address, [range])]
    ensures AllRanges([ClusterNode(address, [range])]) == [range]
    ensures ClearRanges([ClusterNode(address, [])]) == [ClusterNode(address, [])]
  {
    var table := [ClusterNode(address, [])];
    assert IndexOfAddress(table, address, 0) == 0;
    assert table[0].slotRanges + [range] == [range] && [range] + [] == [range];
    assert table[0 := ClusterNode(address, [range])] == [ClusterNode(address, [range])];
  }

  lemma OneAssignment(table: seq<ClusterNode>, info: Node, a: Assignment)
    requires ReadAssignment(info) == Some(a)
    ensures AddAssignments(table, [info]) == AddAssignment(table, a)
  {
    hide ReadAssignment, AddAssignment;
    assert [info][1..] == [];
  }

  lemma WholeReplyFills()
    ensures ProcessReply([ClusterNode(DEFAULT_ADDRESS, [])], WHOLE_REPLY) == WHOLE_TABLE
    ensures AllRanges(WHOLE_TABLE) == [SlotRange(0, SLOTS - 1)]
  {
    hide ReadAssignment, AddAssignment, AddAssignments, WithoutStale, ClearRanges, AllRanges, WHOLE_SHARE,
         DEFAULT_ADDRESS;
    WholeShareReads();
    OneNodeTable(DEFAULT_ADDRESS, SlotRange(0, SLOTS - 1));
    OneAssignment([ClusterNode(DEFAULT_ADDRESS, [])], WHOLE_SHARE,
      Assignment(DEFAULT_ADDRESS, SlotRange(0, SLOTS - 1)));
  }

  lemma WholeRangeCovers()
    ensures HasFullCoverage([SlotRange(0, SLOTS - 1)])
  {
    assert Leader([SlotRange(0, SLOTS - 1)], 0) == 1;
  }

  lemma WholeReplyStabilizes(s: State)
    requires s.table == [ClusterNode(DEFAULT_ADDRESS, [])]
    ensures ConfigReplied(s, WHOLE_REPLY) == s.(table := WHOLE_TABLE, config := Stable)
  {
    hide ProcessReply, HasFullCoverage, AllRanges, WHOLE_REPLY, WHOLE_TABLE, DEFAULT_ADDRESS;
    WholeReplyFills();
    WholeRangeCovers();
  }

  /** The stable state can be reached. */
  lemma StableIsReachable()
    ensures Run(INITIAL, STABLE_RUN) == Some(INITIAL.(config := Stable, table := WHOLE_TABLE))
  {
    hide ConfigReplied, WHOLE_REPLY, WHOLE_TABLE, DEFAULT_ADDRESS, RedirectionOf, Reduced;
    var first := Configure(DEFAULT_ADDRESS);
    var s := INITIAL.(config := QueryPending, table := [ClusterNode(DEFAULT_ADDRESS, [])], owed := [Query]);
    assert INITIAL.owed + [Query] == [Query];
    assert Next(INITIAL, first) == Some(s);
    RunExtended(INITIAL, [], first);
    RunExtended(INITIAL, [first], Answer(0, WHOLE_REPLY));
    assert [] + [first] == [first] && [first] + [Answer(0, WHOLE_REPLY)] == STABLE_RUN;
    assert WithoutIndex(s.owed, 0) == [];
    WholeReplyStabilizes(s.(owed := []));
  }

  lemma Extended(events: seq<Event>, s: State, e: Event, s': State)
    requires Run(INITIAL, events) == Some(s) && Next(s, e) == Some(s')
    ensures Run(INITIAL, events + [e]) == Some(s')
  {
    hide Next;
    RunExtended(INITIAL, events, e);
  }

  /** The error MOVED without slot and address. */
  const BARE_MOVED := Node(None, Text(SimpleError, MOVED))

  const MOVED_RUN := STABLE_RUN
    + [Submit(0), BeginPass, ReduceNext, ReduceNext, Answer(0, BARE_MOVED), BeginPass, ReduceNext]

  lemma {:induction false} OneToken(text: seq<byte>)
    requires SPACE !in text && COLON !in text
    ensures Delimited(text) == |text| && |Tokens(text)| <= 1
  {
    if text != [] {
      assert text[0] in text;
      OneToken(text[1..]);
      assert text[|text|..] == [];
    }
  }

  lemma BareMovedIs()
    ensures RedirectionOf(BARE_MOVED) == Move && PromisedRedirection(BARE_MOVED) == Neither
    ensures RedirectAddress(MOVED, DEFAULT_ADDRESS) == DEFAULT_ADDRESS
  {
    hide Tokens, CString;
    RedirectionDiffersExactlyWhen(BARE_MOVED);
    ErrorCodeIs(MOVED);
    assert MOVED[..5] == MOVED;
    BareMovedNamesNone();
  }

  lemma BareMovedNamesNone()
    ensures RedirectAddress(MOVED, DEFAULT_ADDRESS) == DEFAULT_ADDRESS
  {
    hide Tokens, CString, RedirectionOf;
    Shapes.CStringWhole(MOVED);
    OneToken(MOVED);
  }

  lemma WholeTableKnows()
    ensures Routable(WHOLE_TABLE, 0) && KnowsAddress(WHOLE_TABLE, DEFAULT_ADDRESS)
  {
    assert Contains(WHOLE_TABLE[0].slotRanges[0], 0);
    assert HandlesSlot(WHOLE_TABLE[0], 0);
  }

  /** In the stable state the first pass sends the request; its answer comes. */
  lemma RequestAnswered(events: seq<Event>, table: seq<ClusterNode>, response: Node)
    requires Run(INITIAL, events) == Some(INITIAL.(config := Stable, table := table)) && Routable(table, 0)
    ensures Run(INITIAL, events + [Submit(0), BeginPass, ReduceNext, ReduceNext, Answer(0, response)]) ==
      Some(State(Stable, 0, table, [Request(0, 0, Ready(response), 0, DEFAULT_ADDRESS, 0)], [], None, [], 1))
  {
    hide DEFAULT_ADDRESS, Routable, ConfigReplied;
    var r := Request(0, 0, Unsent, 0, DEFAULT_ADDRESS, 0);
    var sent := r.(phase := Pending);
    var s0 := INITIAL.(config := Stable, table := table);
    var s1 := s0.(requests := [r], nextId := 1);
    var s2 := s1.(cursor := Some(0));
    var s3 := s2.(requests := [sent], owed := [Response(0)], cursor := Some(1));
    var s4 := s3.(cursor := None);
    var s5 := s4.(requests := [r.(phase := Ready(response))], owed := []);
    assert [] + [r] == [r] && [r][0 := sent] == [sent] && [] + [Response(0)] == [Response(0)];
    assert [sent][0 := Responded(sent, response)] == [r.(phase := Ready(response))];
    assert WithoutIndex([Response(0)], 0) == [];
    Extended(events, s0, Submit(0), s1);
    Extended(events + [Submit(0)], s1, BeginPass, s2);
    Extended(events + [Submit(0)] + [BeginPass], s2, ReduceNext, s3);
    Extended(events + [Submit(0)] + [BeginPass] + [ReduceNext], s3, ReduceNext, s4);
    Extended(events + [Submit(0)] + [BeginPass] + [ReduceNext] + [ReduceNext], s4, Answer(0, response), s5);
    assert events + [Submit(0)] + [BeginPass] + [ReduceNext] + [ReduceNext] + [Answer(0, response)]
        == events + [Submit(0), BeginPass, ReduceNext, ReduceNext, Answer(0, response)];
  }

  /** A bare MOVED, which by its promised code is an ordinary error for the user, is followed instead: the
      request goes out again and the configuration is dirty. */
  lemma BareMovedIsFollowed()
    ensures PromisedRedirection(BARE_MOVED) == Neither
    ensures Run(INITIAL, MOVED_RUN) ==
      Some(State(Dirty, 0, WHOLE_TABLE, [Request(0, 0, Pending, 1, DEFAULT_ADDRESS, 1)], [Response(0)], None, [], 1))
  {
    hide WHOLE_TABLE, DEFAULT_ADDRESS, STABLE_RUN, RedirectionOf, RedirectAddress, KnowsAddress, PromisedRedirection;
    BareMovedIs();
    WholeTableKnows();
    StableIsReachable();
    RequestAnswered(STABLE_RUN, WHOLE_TABLE, BARE_MOVED);
    var r := Request(0, 0, Ready(BARE_MOVED), 0, DEFAULT_ADDRESS, 0);
    var again := Request(0, 0, Pending, 1, DEFAULT_ADDRESS, 1);
    var events := STABLE_RUN + [Submit(0), BeginPass, ReduceNext, ReduceNext, Answer(0, BARE_MOVED)];
    var s5 := State(Stable, 0, WHOLE_TABLE, [r], [], None, [], 1);
    var s6 := s5.(cursor := Some(0));
    var s7 := State(Dirty, 0, WHOLE_TABLE, [again], [Response(0)], None, [], 1);
    assert [r][0 := again] == [again] && [] + [Response(0)] == [Response(0)];
    Extended(events, s5, BeginPass, s6);
    Extended(events + [BeginPass], s6, ReduceNext, s7);
    assert events + [BeginPass] + [ReduceNext] == MOVED_RUN;
  }

  /** A pass can stand at an UNSENT request. */
  lemma LookupIsReachable()
    ensures var run := Run(INITIAL, STABLE_RUN + [Submit(0), BeginPass]);
      run.Some? && run.value.cursor == Some(0) && |run.value.requests| == 1 && run.value.requests[0].phase == Unsent
  {
    hide WHOLE_TABLE, STABLE_RUN;
    StableIsReachable();
    var s0 := INITIAL.(config := Stable, table := WHOLE_TABLE);
    var s1 := Next(s0, Submit(0)).value;
    Extended(STABLE_RUN, s0, Submit(0), s1);
    Extended(STABLE_RUN + [Submit(0)], s1, BeginPass, s1.(cursor := Some(0)));
    assert STABLE_RUN + [Submit(0)] + [BeginPass] == STABLE_RUN + [Submit(0), BeginPass];
  }
}
