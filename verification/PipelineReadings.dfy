/** Reading a connection: which bytes went into which value, and which were lost to a parse that failed. */
module PipelineReadings {
  import opened Bytes
  import opened Protocol
  import opened Pipeline

  // ----- selections from what a server has sent

  function Select(data: seq<Datum>, p: Datum -> bool): seq<Datum> {
    if data == [] then []
    else
      var last := data[|data| - 1];
      Select(data[..|data| - 1], p) + (if p(last) then [last] else [])
  }

  /** What the client takes for a response. */
  predicate IsResponse(d: Datum) {
    !IsMessage(d.node)
  }

  predicate IsPushed(d: Datum) {
    IsMessage(d.node)
  }

  lemma SelectAppended(data: seq<Datum>, d: Datum, p: Datum -> bool)
    ensures Select(data + [d], p) == Select(data, p) + (if p(d) then [d] else [])
  {
    assert (data + [d])[..|data|] == data;
  }

  lemma {:induction false} SelectConcat(a: seq<Datum>, b: seq<Datum>, p: Datum -> bool)
    ensures Select(a + b, p) == Select(a, p) + Select(b, p)
  {
    if b == [] {
      assert a + b == a;
    } else {
      var n := |b| - 1;
      assert a + b == (a + b[..n]) + [b[n]] && b == b[..n] + [b[n]];
      SelectConcat(a, b[..n], p);
      SelectAppended(a + b[..n], b[n], p);
      SelectAppended(b[..n], b[n], p);
    }
  }

  lemma {:induction false} SelectSize(data: seq<Datum>, p: Datum -> bool)
    ensures |Select(data, p)| <= |data|
    ensures |Select(data, p)| == |data| <==> forall i :: 0 <= i < |data| ==> p(data[i])
  {
    if data != [] {
      SelectSize(data[..|data| - 1], p);
    }
  }

  // ----- where a sending stands among all bytes sent

  function Start(sendings: seq<Sending>, i: nat): nat
    requires i <= |sendings|
  {
    |Incoming(sendings[..i])|
  }

  lemma SendingsGrow(sendings: seq<Sending>, x: Sending)
    ensures Incoming(sendings + [x]) == Incoming(sendings) + x.bytes
    ensures Answers(sendings + [x]) == Answers(sendings) + (if x.solicited then 1 else 0)
    ensures forall i: nat :: i <= |sendings| ==> Start(sendings + [x], i) == Start(sendings, i)
  {
    assert (sendings + [x])[..|sendings|] == sendings;
    forall i: nat | i <= |sendings|
      ensures (sendings + [x])[..i] == sendings[..i]
    {}
  }

  lemma NextStart(sendings: seq<Sending>, i: nat)
    requires i < |sendings|
    ensures Start(sendings, i + 1) == Start(sendings, i) + |sendings[i].bytes|
    ensures Answers(sendings[..i + 1]) == Answers(sendings[..i]) + (if sendings[i].solicited then 1 else 0)
    ensures Start(sendings, |sendings|) == |Incoming(sendings)| && sendings[..|sendings|] == sendings
  {
    assert sendings[..i + 1][..i] == sendings[..i];
  }

  lemma {:induction false} StartsIncrease(sendings: seq<Sending>, i: nat, j: nat)
    requires i <= j <= |sendings|
    ensures Start(sendings, i) <= Start(sendings, j) <= |Incoming(sendings)|
    ensures Answers(sendings[..i]) <= Answers(sendings[..j]) <= Answers(sendings)
    ensures i < j ==> Start(sendings, i + 1) <= Start(sendings, j)
    ensures i < j && sendings[i].solicited ==> Answers(sendings[..i]) < Answers(sendings[..j])
    decreases |sendings| - i
  {
    hide Incoming, Answers;
    assert sendings[..|sendings|] == sendings;
    if i < |sendings| {
      NextStart(sendings, i);
      StartsIncrease(sendings, i + 1, if i < j then j else i + 1);
    }
  }

  // ----- what has been read

  /** The bytes of sending `i`, and no others. */
  predicate IsPart(sendings: seq<Sending>, d: Datum, i: nat) {
    i < |sendings| && d.from == Start(sendings, i) && d.to == Start(sendings, i + 1)
  }

  predicate IsAnswerPart(sendings: seq<Sending>, d: Datum, i: nat) {
    IsPart(sendings, d, i) && sendings[i].solicited
  }

  /** Values and failures took their bytes one after the other. */
  predicate Ordered(l: Link) {
    && l.consumed <= |Incoming(l.sendings)|
    && (forall j :: 0 <= j < |l.arrived| ==> l.arrived[j].from < l.arrived[j].to <= l.consumed)
    && (forall j, m :: 0 <= j < m < |l.arrived| ==> l.arrived[j].to <= l.arrived[m].from)
    && (forall g :: 0 <= g < |l.failed| ==> l.failed[g].from <= l.failed[g].to <= l.consumed)
    && (forall j, g :: 0 <= j < |l.arrived| && 0 <= g < |l.failed| ==>
          l.arrived[j].to <= l.failed[g].from || l.failed[g].to <= l.arrived[j].from)
  }

  predicate InDatum(d: Datum, p: int) {
    d.from <= p < d.to
  }

  /** A parse that failed has used up the byte. */
  predicate Failed(l: Link, p: int) {
    exists g :: 0 <= g < |l.failed| && l.failed[g].from <= p < l.failed[g].to
  }

  predicate Taken(l: Link, p: int) {
    exists j :: 0 <= j < |l.arrived| && InDatum(l.arrived[j], p)
  }

  /** The byte went into something that is taken for a message. */
  predicate Misled(l: Link, p: int) {
    exists j :: 0 <= j < |l.arrived| && !IsResponse(l.arrived[j]) && InDatum(l.arrived[j], p)
  }

  /** Every byte read went into a value or was lost to a parse that failed. */
  predicate Tiled(l: Link) {
    forall p :: 0 <= p < l.consumed ==> Taken(l, p) || Failed(l, p)
  }

  lemma ParseTiles(l: Link, d: Datum, errno: bool)
    requires Ordered(l) && Tiled(l) && d.from == l.consumed < d.to <= |Incoming(l.sendings)|
    ensures var l' := l.(consumed := d.to, errno := errno, arrived := l.arrived + [d]); Ordered(l') && Tiled(l')
  {
    hide Incoming;
    var l' := l.(consumed := d.to, errno := errno, arrived := l.arrived + [d]);
    forall p | 0 <= p < l'.consumed
      ensures Taken(l', p) || Failed(l', p)
    {
      if p < l.consumed {
        if Taken(l, p) {
          var j :| 0 <= j < |l.arrived| && InDatum(l.arrived[j], p);
          assert l'.arrived[j] == l.arrived[j];
        }
      } else {
        assert InDatum(l'.arrived[|l.arrived|], p);
      }
    }
  }

  lemma FailTiles(l: Link, to: nat)
    requires Ordered(l) && Tiled(l) && l.consumed <= to <= |Incoming(l.sendings)|
    ensures var l' := l.(consumed := to, failed := l.failed + [Gap(l.consumed, to)]); Ordered(l') && Tiled(l')
  {
    hide Incoming;
    var l' := l.(consumed := to, failed := l.failed + [Gap(l.consumed, to)]);
    forall p | 0 <= p < l'.consumed
      ensures Taken(l', p) || Failed(l', p)
    {
      if p >= l.consumed {
        assert l'.failed[|l.failed|] == Gap(l.consumed, to);
      } else if Failed(l, p) {
        var g :| 0 <= g < |l.failed| && l.failed[g].from <= p < l.failed[g].to;
        assert l'.failed[g] == l.failed[g];
      }
    }
  }

  // ----- values that are answers

  /** Answers have bytes, and every response is what one of them consists of. */
  ghost predicate Exact(l: Link) {
    && (forall i :: 0 <= i < |l.sendings| && l.sendings[i].solicited ==> l.sendings[i].bytes != [])
    && (forall j :: 0 <= j < |l.arrived| && IsResponse(l.arrived[j]) ==>
          exists i: nat :: IsAnswerPart(l.sendings, l.arrived[j], i))
  }

  /** Among the first `n` values is a response that is what sending `i` consists of. */
  ghost predicate Hit(l: Link, n: nat, i: nat) {
    exists j :: 0 <= j < n <= |l.arrived| && IsResponse(l.arrived[j]) && IsAnswerPart(l.sendings, l.arrived[j], i)
  }

  ghost predicate AllHit(l: Link, n: nat, b: nat) {
    forall i: nat :: i < b <= |l.sendings| && l.sendings[i].solicited ==> Hit(l, n, i)
  }

  /** Among the first `n` values no response reaches beyond the first `b` sendings. */
  predicate Within(l: Link, n: nat, b: nat)
    requires b <= |l.sendings|
  {
    forall j :: 0 <= j < n <= |l.arrived| && IsResponse(l.arrived[j]) ==> l.arrived[j].to <= Start(l.sendings, b)
  }

  // ----- counting responses

  lemma {:induction false} SelectNone(data: seq<Datum>)
    requires forall j :: 0 <= j < |data| ==> !IsResponse(data[j])
    ensures Select(data, IsResponse) == []
  {
    hide IsResponse;
    if data != [] {
      SelectNone(data[..|data| - 1]);
    }
  }

  /** The values up to and with the `j`-th, and those behind. */
  lemma SelectSplits(data: seq<Datum>, n: nat, j: nat)
    requires j < n <= |data| && IsResponse(data[j])
    ensures Select(data[..n], IsResponse) == Select(data[..j], IsResponse) + [data[j]]
      + Select(data[j + 1..n], IsResponse)
  {
    hide IsResponse;
    assert data[..n] == data[..j] + [data[j]] + data[j + 1..n];
    SelectConcat(data[..j] + [data[j]], data[j + 1..n], IsResponse);
    SelectAppended(data[..j], data[j], IsResponse);
  }

  lemma PartsApart(l: Link, d: Datum, i: nat, i': nat)
    requires IsPart(l.sendings, d, i) && IsPart(l.sendings, d, i') && d.from < d.to
    ensures i == i'
  {
    hide Start;
    StartsIncrease(l.sendings, if i < i' then i else i', if i < i' then i' else i);
  }

  /** A value that ends before another begins comes before it. */
  lemma ComesBefore(l: Link, j: nat, m: nat)
    requires Ordered(l) && j < |l.arrived| && m < |l.arrived| && l.arrived[j].to <= l.arrived[m].from
    ensures j < m
  {}

  /** A hit among the first `n` values comes before the hit of a later sending. */
  lemma EarlierHit(l: Link, n: nat, j: nat, i: nat, b: nat)
    requires Ordered(l) && j < n <= |l.arrived| && i < b && IsAnswerPart(l.sendings, l.arrived[j], b)
    ensures Hit(l, n, i) <==> Hit(l, j, i)
  {
    hide Start, IsResponse;
    StartsIncrease(l.sendings, i, b);
    if Hit(l, n, i) {
      var m :| 0 <= m < n && IsResponse(l.arrived[m]) && IsAnswerPart(l.sendings, l.arrived[m], i);
      ComesBefore(l, m, j);
    }
  }

  lemma HitsBefore(l: Link, n: nat, j: nat, b: nat)
    requires Ordered(l) && j < n <= |l.arrived| && IsResponse(l.arrived[j]) && IsAnswerPart(l.sendings, l.arrived[j], b)
    ensures AllHit(l, n, b + 1) <==> AllHit(l, j, b)
  {
    hide Start, IsResponse, Hit, Ordered;
    assert Hit(l, n, b) by { HitAt(l, n, j, b); }
    forall i: nat | i < b
      ensures Hit(l, n, i) <==> Hit(l, j, i)
    {
      EarlierHit(l, n, j, i, b);
    }
  }

  lemma HitAt(l: Link, n: nat, j: nat, i: nat)
    requires j < n <= |l.arrived| && IsResponse(l.arrived[j]) && IsAnswerPart(l.sendings, l.arrived[j], i)
    ensures Hit(l, n, i)
  {}

  /** Behind the response that is sending `b` nothing fits before sending `b + 1`. */
  lemma NothingBehind(l: Link, n: nat, j: nat, b: nat)
    requires Ordered(l) && j < n <= |l.arrived| && b < |l.sendings| && Within(l, n, b + 1)
      && IsPart(l.sendings, l.arrived[j], b)
    ensures Within(l, j, b) && Select(l.arrived[j + 1..n], IsResponse) == []
  {
    hide Start, IsResponse;
    SelectNone(l.arrived[j + 1..n]);
  }

  lemma WithinLess(l: Link, n: nat, b: nat)
    requires Ordered(l) && Exact(l) && n <= |l.arrived| && b < |l.sendings| && Within(l, n, b + 1)
    requires !(l.sendings[b].solicited && Hit(l, n, b))
    ensures Within(l, n, b)
  {
    hide Start, IsResponse;
    forall j | 0 <= j < n && IsResponse(l.arrived[j])
      ensures l.arrived[j].to <= Start(l.sendings, b)
    {
      var i: nat :| IsAnswerPart(l.sendings, l.arrived[j], i);
      if i < b {
        StartsIncrease(l.sendings, i, b);
      } else if i > b {
        StartsIncrease(l.sendings, b, i);
      }
    }
  }

  /** No more responses than answers, and as many exactly when every answer has been hit. */
  lemma {:induction false} CountHits(l: Link, n: nat, b: nat)
    requires Ordered(l) && Exact(l) && n <= |l.arrived| && b <= |l.sendings| && Within(l, n, b)
    ensures |Select(l.arrived[..n], IsResponse)| <= Answers(l.sendings[..b])
    ensures |Select(l.arrived[..n], IsResponse)| == Answers(l.sendings[..b]) <==> AllHit(l, n, b)
    decreases b
  {
    hide Ordered, Exact, IsResponse, Hit, Within, Start, IsAnswerPart, Select, Answers;
    if b == 0 {
      NoneWithin(l, n);
    } else {
      NextStart(l.sendings, b - 1);
      if l.sendings[b - 1].solicited && Hit(l, n, b - 1) {
        var j := HitBy(l, n, b - 1);
        NothingBehind(l, n, j, b - 1);
        SelectSplits(l.arrived, n, j);
        HitsBefore(l, n, j, b - 1);
        CountHits(l, j, b - 1);
      } else {
        WithinLess(l, n, b - 1);
        CountHits(l, n, b - 1);
      }
    }
  }

  lemma HitBy(l: Link, n: nat, i: nat) returns (j: nat)
    requires Hit(l, n, i)
    ensures j < n <= |l.arrived| && IsResponse(l.arrived[j]) && IsAnswerPart(l.sendings, l.arrived[j], i)
      && IsPart(l.sendings, l.arrived[j], i)
  {
    j :| 0 <= j < n <= |l.arrived| && IsResponse(l.arrived[j]) && IsAnswerPart(l.sendings, l.arrived[j], i);
  }

  lemma NoneWithin(l: Link, n: nat)
    requires Ordered(l) && n <= |l.arrived| && Within(l, n, 0)
    ensures Select(l.arrived[..n], IsResponse) == [] && Answers(l.sendings[..0]) == 0
  {
    hide IsResponse;
    SelectNone(l.arrived[..n]);
  }

  /** If every answer has been hit there are at least as many responses. */
  lemma {:induction false} HitsCount(l: Link, n: nat, b: nat)
    requires Ordered(l) && n <= |l.arrived| && b <= |l.sendings| && AllHit(l, n, b)
    ensures |Select(l.arrived[..n], IsResponse)| >= Answers(l.sendings[..b])
    decreases b
  {
    hide Ordered, IsResponse, Hit, Start, IsAnswerPart, Select, Answers;
    if b == 0 {
      NoAnswers(l.sendings);
    } else {
      NextStart(l.sendings, b - 1);
      if l.sendings[b - 1].solicited {
        assert Hit(l, n, b - 1);
        var j := HitBy(l, n, b - 1);
        SelectSplits(l.arrived, n, j);
        HitsBefore(l, n, j, b - 1);
        HitsCount(l, j, b - 1);
      } else {
        HitsCount(l, n, b - 1);
      }
    }
  }

  lemma NoAnswers(sendings: seq<Sending>)
    ensures Answers(sendings[..0]) == 0
  {}

  /** There are never more responses than answers. */
  lemma ResponsesBound(l: Link)
    requires Ordered(l) && Exact(l)
    ensures |Select(l.arrived, IsResponse)| <= Answers(l.sendings)
  {
    hide Exact, IsResponse, Incoming, Select, Answers;
    if l.sendings != [] {
      NextStart(l.sendings, 0);
    }
    assert l.arrived[..|l.arrived|] == l.arrived && l.sendings[..|l.sendings|] == l.sendings;
    CountHits(l, |l.arrived|, |l.sendings|);
  }

  // ----- whose answer it is

  /** The value is what the server's answer number `k` consists of. */
  ghost predicate IsAnswerNumber(sendings: seq<Sending>, d: Datum, k: nat) {
    exists i: nat :: IsAnswerPart(sendings, d, i) && Answers(sendings[..i]) == k
  }

  /** The first byte of each of the first `k + 1` answers was neither taken for part of a message nor lost
      to a parse that failed. */
  predicate Unspoilt(l: Link, k: nat) {
    forall i :: 0 <= i < |l.sendings| && l.sendings[i].solicited && Answers(l.sendings[..i]) <= k ==>
      !Misled(l, Start(l.sendings, i)) && !Failed(l, Start(l.sendings, i))
  }

  lemma HitIsUnspoilt(l: Link, n: nat, i: nat)
    requires Ordered(l) && Hit(l, n, i)
    ensures !Misled(l, Start(l.sendings, i)) && !Failed(l, Start(l.sendings, i))
  {
    hide Start, IsResponse;
    var j := HitBy(l, n, i);
  }

  lemma UnspoiltIsHit(l: Link, m: nat, i: nat, i': nat)
    requires Ordered(l) && Tiled(l) && Exact(l) && m < |l.arrived| && IsPart(l.sendings, l.arrived[m], i')
    requires i < i' && l.sendings[i].solicited && !Misled(l, Start(l.sendings, i)) && !Failed(l, Start(l.sendings, i))
    ensures Hit(l, m, i)
  {
    hide Start, IsResponse, Answers, Incoming;
    var p := Start(l.sendings, i);
    StartsIncrease(l.sendings, i, i');
    assert Taken(l, p);
    var j :| 0 <= j < |l.arrived| && InDatum(l.arrived[j], p);
    var h: nat :| IsAnswerPart(l.sendings, l.arrived[j], h);
    NextStart(l.sendings, i);
    if h < i {
      StartsIncrease(l.sendings, h, i);
    } else if i < h {
      StartsIncrease(l.sendings, i, h);
    }
    ComesBefore(l, j, m);
  }

  lemma {:induction false} NumberedAnswer(sendings: seq<Sending>, b: nat, k: nat) returns (i: nat)
    requires b <= |sendings| && k < Answers(sendings[..b])
    ensures i < b && sendings[i].solicited && Answers(sendings[..i]) == k
    decreases b
  {
    hide Incoming;
    if b > 0 {
      NextStart(sendings, b - 1);
    }
    if b > 0 && sendings[b - 1].solicited && Answers(sendings[..b - 1]) == k {
      i := b - 1;
    } else {
      i := NumberedAnswer(sendings, b - 1, k);
    }
  }

  /** Value `m` is answer part `i`, with `k` responses before it. */
  predicate Stands(l: Link, m: nat, i: nat, k: nat) {
    && m < |l.arrived| && IsResponse(l.arrived[m]) && IsAnswerPart(l.sendings, l.arrived[m], i)
    && |Select(l.arrived[..m], IsResponse)| == k
  }

  lemma StandsWithin(l: Link, m: nat, i: nat, k: nat)
    requires Ordered(l) && Exact(l) && Stands(l, m, i, k)
    ensures k <= Answers(l.sendings[..i])
    ensures k == Answers(l.sendings[..i]) <==> AllHit(l, m, i)
  {
    hide Exact, IsResponse, Select, Answers, Start;
    CountHits(l, m, i);
  }

  lemma OwnIsUnspoilt(l: Link, m: nat, i: nat, k: nat)
    requires Ordered(l) && Exact(l) && Stands(l, m, i, k) && AllHit(l, m, i)
    ensures Unspoilt(l, Answers(l.sendings[..i]))
  {
    hide Ordered, Exact, IsResponse, Select, Answers, Start, Hit, Misled, Failed, Incoming;
    forall h | 0 <= h < |l.sendings| && l.sendings[h].solicited && Answers(l.sendings[..h]) <= Answers(l.sendings[..i])
      ensures !Misled(l, Start(l.sendings, h)) && !Failed(l, Start(l.sendings, h))
    {
      if h < i {
        HitIsUnspoilt(l, m, h);
      } else {
        if i < h {
          StartsIncrease(l.sendings, i, h);
        }
        HitAt(l, m + 1, m, i);
        HitIsUnspoilt(l, m + 1, i);
      }
    }
  }

  lemma UnspoiltIsOwn(l: Link, m: nat, i: nat, k: nat)
    requires Ordered(l) && Tiled(l) && Exact(l) && Stands(l, m, i, k) && Unspoilt(l, k)
    ensures Answers(l.sendings[..i]) <= k
  {
    hide Ordered, Tiled, Exact, IsResponse, Select, Answers, Start, Hit, Misled, Failed, Incoming;
    if k < Answers(l.sendings[..i]) {
      var h := NumberedAnswer(l.sendings, i, k);
      NextStart(l.sendings, h);
      forall g: nat | g < h + 1 && l.sendings[g].solicited
        ensures Hit(l, m, g)
      {
        StartsIncrease(l.sendings, g, h);
        UnspoiltIsHit(l, m, g, i);
      }
      HitsCount(l, m, h + 1);
    }
  }

  /** The response with `k` responses before it is answer number `k` exactly when the first `k + 1` answers
      are unspoilt. */
  lemma OwnExactlyWhen(l: Link, m: nat, k: nat)
    requires Ordered(l) && Tiled(l) && Exact(l)
    requires m < |l.arrived| && IsResponse(l.arrived[m]) && |Select(l.arrived[..m], IsResponse)| == k
    ensures IsAnswerNumber(l.sendings, l.arrived[m], k) <==> Unspoilt(l, k)
  {
    hide Tiled, Select, Answers, Start, Unspoilt, IsResponse, Incoming;
    var i: nat :| IsAnswerPart(l.sendings, l.arrived[m], i);
    StandsWithin(l, m, i, k);
    if Unspoilt(l, k) {
      UnspoiltIsOwn(l, m, i, k);
    }
    if IsAnswerNumber(l.sendings, l.arrived[m], k) {
      var h: nat :| IsAnswerPart(l.sendings, l.arrived[m], h) && Answers(l.sendings[..h]) == k;
      PartsApart(l, l.arrived[m], i, h);
      OwnIsUnspoilt(l, m, i, k);
    }
  }

  /** The `k`-th response and its place among all values. */
  lemma {:induction false} ResponsePlace(data: seq<Datum>, k: nat) returns (m: nat)
    requires k < |Select(data, IsResponse)|
    ensures m < |data| && IsResponse(data[m]) && |Select(data[..m], IsResponse)| == k
      && Select(data, IsResponse)[k] == data[m]
  {
    hide IsResponse;
    var n := |data| - 1;
    if k < |Select(data[..n], IsResponse)| {
      m := ResponsePlace(data[..n], k);
      assert data[..n][..m] == data[..m];
    } else {
      m := n;
    }
  }

  // ----- responses read before a byte

  function ResponsesBefore(data: seq<Datum>, p: nat): seq<Datum> {
    Select(data, d => IsResponse(d) && d.to <= p)
  }

  lemma {:induction false} SelectAlike(data: seq<Datum>, p: Datum -> bool, q: Datum -> bool)
    requires forall i :: 0 <= i < |data| ==> p(data[i]) == q(data[i])
    ensures Select(data, p) == Select(data, q)
  {
    if data != [] {
      SelectAlike(data[..|data| - 1], p, q);
    }
  }

  lemma {:induction false} SelectEmpty(data: seq<Datum>, p: Datum -> bool)
    requires forall i :: 0 <= i < |data| ==> !p(data[i])
    ensures Select(data, p) == []
  {
    if data != [] {
      SelectEmpty(data[..|data| - 1], p);
    }
  }

  /** The responses read before a value are those among the values in front of it. */
  lemma BeforeIsFront(l: Link, m: nat)
    requires Ordered(l) && m < |l.arrived|
    ensures ResponsesBefore(l.arrived, l.arrived[m].from) == Select(l.arrived[..m], IsResponse)
  {
    hide IsResponse, Select;
    var p := (d: Datum) => IsResponse(d) && d.to <= l.arrived[m].from;
    var front, back := l.arrived[..m], l.arrived[m..];
    assert l.arrived == front + back;
    SelectConcat(front, back, p);
    SelectAlike(front, p, IsResponse);
    SelectEmpty(back, p);
    assert ResponsesBefore(l.arrived, l.arrived[m].from) == Select(l.arrived, p);
  }

  /** A response with `k` responses read before it is the k-th. */
  lemma PlaceOfResponse(l: Link, m: nat, k: nat)
    requires Ordered(l) && m < |l.arrived| && IsResponse(l.arrived[m])
    requires |ResponsesBefore(l.arrived, l.arrived[m].from)| == k
    ensures k < |Select(l.arrived, IsResponse)| && Select(l.arrived, IsResponse)[k] == l.arrived[m]
  {
    hide IsResponse, Ordered;
    BeforeIsFront(l, m);
    SelectSplits(l.arrived, |l.arrived|, m);
    assert l.arrived[..|l.arrived|] == l.arrived;
  }
}
