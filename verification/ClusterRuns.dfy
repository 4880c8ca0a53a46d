/** Runs of the cluster client: redirections that are followed, and a configuration that is asked for again. */
module ClusterRuns {
  import opened Bytes
  import opened Sequences
  import opened Decimal
  import opened Protocol
  import opened HashSlot
  import opened Coverage
  import opened RoutingTable
  import opened ClusterReplies
  import opened ClusterModel
  import opened ClusterProofs
  import opened Redirections
  import Shapes

  // ----- two masters

  /** "127.0.0.1" */
  const HOST: seq<byte> := [49, 50, 55, 46, 48, 46, 48, 46, 49]
  const FIRST := Address(HOST, 6379)
  const SECOND := Address(HOST, 6380)

  /** A replica, as an entry of the reply lists it. */
  const REPLICA := Node(None, Aggregate(Array, [Node(None, Blob(BlobString, HOST)), Node(None, Number(6381))]))

  const LOWER := Share(0, 8191, HOST, 6379, [], [REPLICA], i => None)
  const UPPER := Share(8192, 16383, HOST, 6380, [], [], i => None)
  const REPLY := Node(None, Aggregate(Array, Entries([LOWER, UPPER])))

  const TWO_MASTERS := [ClusterNode(FIRST, [SlotRange(0, 8191)]), ClusterNode(SECOND, [SlotRange(8192, 16383)])]

  const SETTLED := [Configure(FIRST), Answer(0, REPLY)]

  lemma SharesRead()
    ensures ReadAssignment(Entry(LOWER)) == Some(Assignment(FIRST, SlotRange(0, 8191)))
    ensures ReadAssignment(Entry(UPPER)) == Some(Assignment(SECOND, SlotRange(8192, 16383)))
  {
    hide ReadAssignment, Entry;
    EntryReads(LOWER, Assignment(FIRST, SlotRange(0, 8191)));
    EntryReads(UPPER, Assignment(SECOND, SlotRange(8192, 16383)));
  }

  lemma AddFirst(range: SlotRange)
    ensures AddAssignment([ClusterNode(FIRST, [])], Assignment(FIRST, range)) == [ClusterNode(FIRST, [range])]
  {
    assert [] + [range] == [range];
    OneNodeTable(FIRST, range);
  }

  lemma AddSecond(first: SlotRange, second: SlotRange)
    ensures AddAssignment([ClusterNode(FIRST, [first])], Assignment(SECOND, second))
         == [ClusterNode(FIRST, [first]), ClusterNode(SECOND, [second])]
  {
    assert IndexOfAddress([ClusterNode(FIRST, [first])], SECOND, 0) == 1;
  }

  lemma TwoNodes(first: SlotRange, second: SlotRange)
    ensures var table := [ClusterNode(FIRST, [first]), ClusterNode(SECOND, [second])];
      WithoutStale(table) == table && AllRanges(table) == [first, second]
  {
    var table := [ClusterNode(FIRST, [first]), ClusterNode(SECOND, [second])];
    OneNodeTable(SECOND, second);
    assert table[1..] == [ClusterNode(SECOND, [second])];
  }

  lemma ReplyFills()
    ensures ProcessReply([ClusterNode(FIRST, [])], REPLY) == TWO_MASTERS
    ensures AllRanges(TWO_MASTERS) == [SlotRange(0, 8191), SlotRange(8192, 16383)]
  {
    hide ReadAssignment, Entry, AddAssignment, WithoutStale, AllRanges, ClearRanges;
    var first, second := SlotRange(0, 8191), SlotRange(8192, 16383);
    var infos, table := Entries([LOWER, UPPER]), [ClusterNode(FIRST, [])];
    SharesRead();
    OneNodeTable(FIRST, first);
    AddFirst(first);
    AddSecond(first, second);
    TwoNodes(first, second);
    assert infos[1..] == [Entry(UPPER)];
    OneAssignment([ClusterNode(FIRST, [first])], Entry(UPPER), Assignment(SECOND, second));
    assert AddAssignments(table, infos) == TWO_MASTERS;
  }

  lemma TwoMastersCover()
    ensures HasFullCoverage([SlotRange(0, 8191), SlotRange(8192, 16383)])
  {
    CoverageIsExact([SlotRange(0, 8191), SlotRange(8192, 16383)]);
  }

  lemma TwoMastersKnown()
    ensures Routable(TWO_MASTERS, 0) && HasNode(TWO_MASTERS, SECOND)
  {
    assert TWO_MASTERS[1].address == SECOND;
    assert Contains(TWO_MASTERS[0].slotRanges[0], 0);
    assert HandlesSlot(TWO_MASTERS[0], 0);
  }

  lemma Settles()
    ensures Run(INITIAL, SETTLED) == Some(INITIAL.(config := Stable, table := TWO_MASTERS))
  {
    hide ProcessReply, HasFullCoverage, AllRanges, REPLY, TWO_MASTERS, RedirectionOf, Reduced;
    var first := Configure(FIRST);
    var s := INITIAL.(config := QueryPending, table := [ClusterNode(FIRST, [])], owed := [Query]);
    assert INITIAL.owed + [Query] == [Query];
    RunExtended(INITIAL, [], first);
    RunExtended(INITIAL, [first], Answer(0, REPLY));
    assert [] + [first] == [first] && [first] + [Answer(0, REPLY)] == SETTLED;
    assert WithoutIndex(s.owed, 0) == [];
    ReplyFills();
    TwoMastersCover();
  }

  // ----- redirections that are followed

  lemma HostIsWord()
    ensures IsWord(HOST) && IsWord([48])
  {}

  /** The error "code 0 127.0.0.1:6380". */
  function RedirectTo(code: seq<byte>): Node {
    Node(None, Text(SimpleError, RedirectText(code, [48], HOST, 6380)))
  }

  const MOVED_TO_SECOND := RedirectTo([77, 79, 86, 69, 68])
  const ASK_SECOND := RedirectTo([65, 83, 75])

  function AnsweredRun(response: Node): seq<Event> {
    SETTLED + [Submit(0), BeginPass, ReduceNext, ReduceNext, Answer(0, response)]
  }

  /** The answer "MOVED 0 127.0.0.1:6380" of the first master sends the request to the second, and the
      configuration is dirty. */
  lemma MovedGoesThere()
    ensures Run(INITIAL, AnsweredRun(MOVED_TO_SECOND) + [BeginPass, ReduceNext]) ==
      Some(State(Dirty, 0, TWO_MASTERS, [Request(0, 0, Pending, 1, SECOND, 1)], [Response(0)], None, [], 1))
  {
    hide TWO_MASTERS, SETTLED, Routable, HasNode, Next, RedirectText, IsWord, DEFAULT_ADDRESS;
    Settles();
    TwoMastersKnown();
    HostIsWord();
    RequestAnswered(SETTLED, TWO_MASTERS, MOVED_TO_SECOND);
    var r := Request(0, 0, Ready(MOVED_TO_SECOND), 0, DEFAULT_ADDRESS, 0);
    var s0 := State(Stable, 0, TWO_MASTERS, [r], [], None, [], 1);
    var s1 := s0.(cursor := Some(0));
    PassBegins(s0);
    MovedIsFollowed(s1, None, [48], HOST, 6380, 0);
    var again := Request(0, 0, Pending, 1, SECOND, 1);
    assert [r][0 := again] == [again] && [] + [Response(0)] == [Response(0)];
    var s2 := State(Dirty, 0, TWO_MASTERS, [again], [Response(0)], None, [], 1);
    Extended(AnsweredRun(MOVED_TO_SECOND), s0, BeginPass, s1);
    Extended(AnsweredRun(MOVED_TO_SECOND) + [BeginPass], s1, ReduceNext, s2);
    assert AnsweredRun(MOVED_TO_SECOND) + [BeginPass] + [ReduceNext]
        == AnsweredRun(MOVED_TO_SECOND) + [BeginPass, ReduceNext];
  }

  lemma PassBegins(s: State)
    requires s.cursor.None? && s.config == Stable
    ensures Next(s, BeginPass) == Some(s.(cursor := Some(0)))
  {}

  lemma PassEnds(s: State)
    requires s.cursor.Some? && s.cursor.value >= |s.requests| && s.config != Crashed
    ensures Next(s, ReduceNext) == Some(s.(cursor := None))
  {}

  /** The answer "ASK 0 127.0.0.1:6380" sends ASKING there first; whatever the answer to that, the request
      follows, and the configuration stays. */
  lemma AskGoesThere(asked: Node)
    ensures Run(INITIAL, AnsweredRun(ASK_SECOND) + [BeginPass, ReduceNext]) ==
      Some(State(Stable, 0, TWO_MASTERS, [Request(0, 0, Pending, 1, SECOND, 1)], [Asking(0)], Some(1), [], 1))
    ensures Run(INITIAL, AnsweredRun(ASK_SECOND) + [BeginPass, ReduceNext, ReduceNext, Answer(0, asked)]) ==
      Some(State(Stable, 0, TWO_MASTERS, [Request(0, 0, Pending, 1, SECOND, 1)], [Response(0)], None, [], 1))
  {
    hide TWO_MASTERS, SETTLED, Routable, HasNode, Next, RedirectText, IsWord, DEFAULT_ADDRESS;
    Settles();
    TwoMastersKnown();
    HostIsWord();
    RequestAnswered(SETTLED, TWO_MASTERS, ASK_SECOND);
    var r := Request(0, 0, Ready(ASK_SECOND), 0, DEFAULT_ADDRESS, 0);
    var s0 := State(Stable, 0, TWO_MASTERS, [r], [], None, [], 1);
    var s1 := s0.(cursor := Some(0));
    PassBegins(s0);
    AskIsFollowed(s1, None, [48], HOST, 6380, 0);
    var again := Request(0, 0, Pending, 1, SECOND, 1);
    assert [r][0 := again] == [again] && [] + [Asking(0)] == [Asking(0)];
    var s2 := State(Stable, 0, TWO_MASTERS, [again], [Asking(0)], Some(1), [], 1);
    var s3 := s2.(cursor := None);
    PassEnds(s2);
    AskedGoesOn(s3, 0, 0, 0, asked);
    assert s3.owed[..0] + s3.owed[1..] == [] && [] + [Response(0)] == [Response(0)] && [again][0 := again] == [again];
    var s4 := s3.(owed := [Response(0)]);
    var events := AnsweredRun(ASK_SECOND);
    Extended(events, s0, BeginPass, s1);
    Extended(events + [BeginPass], s1, ReduceNext, s2);
    Extended(events + [BeginPass] + [ReduceNext], s2, ReduceNext, s3);
    Extended(events + [BeginPass] + [ReduceNext] + [ReduceNext], s3, Answer(0, asked), s4);
    assert events + [BeginPass] + [ReduceNext] == events + [BeginPass, ReduceNext];
    assert events + [BeginPass] + [ReduceNext] + [ReduceNext] + [Answer(0, asked)]
        == events + [BeginPass, ReduceNext, ReduceNext, Answer(0, asked)];
  }

  // ----- what the answer to CLUSTER SLOTS does

  /** In any state with a query out, its answer brings the client to STABLE exactly when the entries list every
      slot once; it crashes exactly when there are none; and after it each slot is found at the master of
      the entry that lists it. */
  lemma AnswerSettlesExactlyWhen(s: State, j: nat, mark: Option<Table>, shares: seq<Share>, slot: int)
    requires s.cursor.None? && s.config != Crashed && j < |s.owed| && s.owed[j] == Query
    requires forall k :: 0 <= k < |shares| ==> 0 !in shares[k].ip && shares[k].lo <= shares[k].hi
    ensures Next(s, Answer(j, Node(mark, Aggregate(Array, Entries(shares))))).Some?
    ensures var s' := Next(s, Answer(j, Node(mark, Aggregate(Array, Entries(shares))))).value;
      && (s'.config == Stable <==> SharedOut(shares))
      && (s'.config == Crashed <==> shares == [])
      && (s'.config == Stable || s'.config == Crashed || s'.config == Incomplete)
      && (SharedOut(shares) && 0 <= slot < 16384 ==>
            exists k :: 0 <= k < |shares| && Lists(shares[k], slot) && IndexOfSlot(s'.table, slot, 0) < |s'.table|
              && s'.table[IndexOfSlot(s'.table, slot, 0)].address == Address(shares[k].ip, shares[k].port))
  {
    hide ProcessReply, AllRanges, Entries, HasFullCoverage, IndexOfSlot, RedirectionOf, Routable, Lists;
    var reply := Node(mark, Aggregate(Array, Entries(shares)));
    CoveredExactlyWhen(s.table, mark, shares);
    RangesOfReply(s.table, mark, shares);
    assert |AllRanges(ProcessReply(s.table, reply))| == |multiset(Ranges(shares))| == |shares|;
    SlotIsAtItsMaster(s.table, mark, shares, slot);
    if SharedOut(shares) {
      NoneSharesOutNothing(shares);
    }
  }

  lemma NoneSharesOutNothing(shares: seq<Share>)
    requires SharedOut(shares)
    ensures shares != []
  {
    assert Listed(shares, 0);
  }

  // ----- asking for the configuration again

  /** `n` updates, one after the other. */
  function Updates(seed: Address, n: nat): seq<Event> {
    if n == 0 then [] else Updates(seed, n - 1) + [Configure(seed)]
  }

  /** While the countdown runs, an update only counts down. */
  lemma {:induction false} CountsDown(s: State, seed: Address, n: nat)
    requires s.config == Incomplete && s.cursor.None? && n <= s.countdown
    ensures Run(s, Updates(seed, n)) == Some(s.(countdown := s.countdown - n))
  {
    if n > 0 {
      CountsDown(s, seed, n - 1);
      RunExtended(s, Updates(seed, n - 1), Configure(seed));
    }
  }

  /** An incomplete configuration is dirty again after one update more than the countdown, and the next one
      asks for it. */
  lemma IncompleteAsksAgain(s: State, seed: Address)
    requires s.config == Incomplete && s.cursor.None?
    ensures Run(s, Updates(seed, s.countdown + 1)) == Some(s.(countdown := 0, config := Dirty))
    ensures Run(s, Updates(seed, s.countdown + 2)) ==
      Some(s.(countdown := 0, config := QueryPending, owed := s.owed + [Query],
              table := if s.table == [] then [ClusterNode(seed, [])] else s.table))
  {
    var n := s.countdown;
    CountsDown(s, seed, n);
    RunExtended(s, Updates(seed, n), Configure(seed));
    RunExtended(s, Updates(seed, n + 1), Configure(seed));
  }

  /** A reply whose ranges do not cover all slots starts the countdown at 32. */
  lemma IncompleteCountsFrom32(s: State, e: Event)
    requires Next(s, e).Some? && s.config != Incomplete && Next(s, e).value.config == Incomplete
    ensures Next(s, e).value.countdown == 32
  {
    hide ProcessReply, HasFullCoverage, AllRanges, Routable, RedirectionOf, KnowsAddress, RedirectAddress,
         IndexOfRequest;
  }
}
