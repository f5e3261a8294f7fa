/** Personal ranking: how far a habit may lift a hit within the returned page, and the
    bounded table of habits behind it. */
module Frecency {
  import opened Common
  import opened Sorting

  const MAX_LIFT := 10
  const MAX_TOTAL_RANK := 10000.0
  const PRUNE_EPSILON := 1.0
  const RETENTION_DAYS := 90.0
  const DAY := 86400.0

  // --- Lift ------------------------------------------------------------------

  function Pow2(n: nat): real { if n == 0 then 1.0 else 2.0 * Pow2(n - 1) }

  // A positive score s earns the number of doublings of 1 it has reached, plus one,
  // capped; no score earns nothing.
  ghost predicate IsLift(s: real, n: nat) {
    if s <= 0.0 then n == 0
    else 1 <= n <= MAX_LIFT && (n < MAX_LIFT ==> s < Pow2(n)) && (n > 1 ==> s >= Pow2(n - 1))
  }

  function LiftFrom(s: real, n: nat): (r: nat)
    requires s > 0.0 && 1 <= n <= MAX_LIFT && (n > 1 ==> s >= Pow2(n - 1))
    ensures IsLift(s, r)
    decreases MAX_LIFT - n
  {
    if s >= Pow2(n) && n < MAX_LIFT then LiftFrom(s, n + 1) else n
  }

  function LiftOf(s: real): (n: nat)
    ensures IsLift(s, n)
  {
    if s <= 0.0 then 0 else LiftFrom(s, 1)
  }

  method Lift(s: real) returns (n: nat)
    ensures n == LiftOf(s)
  {
    if s <= 0.0 {
      return 0;
    }
    n := 1;
    var threshold := 2.0;
    while s >= threshold && n < MAX_LIFT
      invariant 1 <= n <= MAX_LIFT && threshold == Pow2(n)
      invariant n > 1 ==> s >= Pow2(n - 1)
    {
      n := n + 1;
      threshold := threshold * 2.0;
    }
    LiftUnique(s, n, LiftOf(s));
  }

  lemma {:induction false} Pow2Grows(m: nat, n: nat)
    requires m <= n
    ensures 1.0 <= Pow2(m) <= Pow2(n)
  {
    if m < n {
      Pow2Grows(m, n - 1);
    } else if n > 0 {
      Pow2Grows(m - 1, n - 1);
    }
  }

  lemma LiftUnique(s: real, m: nat, n: nat)
    requires IsLift(s, m) && IsLift(s, n)
    ensures m == n
  {
    if m < n {
      Pow2Grows(m, n - 1);
    } else if n < m {
      Pow2Grows(n, m - 1);
    }
  }

  // The lift passes k exactly when the score has reached the k-th doubling.
  lemma LiftExceeds(s: real, k: nat)
    requires 1 <= k < MAX_LIFT
    ensures LiftOf(s) > k <==> s >= Pow2(k)
  {
    var n := LiftOf(s);
    Pow2Grows(0, k);
    if n > k {
      Pow2Grows(k, n - 1);
    } else if n > 0 {
      Pow2Grows(n, k);
    }
  }

  lemma LiftExamples()
    ensures LiftOf(4.0) == 3 && LiftOf(28.0) == 5
  {
    assert Pow2(2) == 4.0 && Pow2(3) == 8.0 && Pow2(4) == 16.0 && Pow2(5) == 32.0;
    LiftExceeds(4.0, 2);
    LiftExceeds(4.0, 3);
    LiftExceeds(28.0, 4);
    LiftExceeds(28.0, 5);
  }

  // A better score never earns less.
  lemma LiftMonotone(s: real, t: real)
    requires s <= t
    ensures LiftOf(s) <= LiftOf(t)
  {
    var n := LiftOf(t);
    if 1 <= n < MAX_LIFT {
      LiftExceeds(s, n);
      LiftExceeds(t, n);
    }
  }

  // --- Re-ranking ------------------------------------------------------------

  datatype Hit = Hit(id: string, body: string)

  function LiftAt(hits: seq<Hit>, scores: map<string, real>, i: nat): (n: nat)
    requires i < |hits|
    ensures n <= MAX_LIFT
  {
    var id := hits[i].id;
    LiftOf(if id in scores then scores[id] else 0.0)
  }

  // A hit without a positive score is not boosted; any other earns what its score earns.
  lemma LiftAtMeans(hits: seq<Hit>, scores: map<string, real>, i: nat)
    requires i < |hits|
    ensures LiftAt(hits, scores, i) == 0 <==> hits[i].id !in scores || scores[hits[i].id] <= 0.0
    ensures hits[i].id in scores ==> IsLift(scores[hits[i].id], LiftAt(hits, scores, i))
  {
  }

  function Lifts(hits: seq<Hit>, scores: map<string, real>): seq<nat> {
    seq(|hits|, i requires 0 <= i < |hits| => LiftAt(hits, scores, i))
  }

  // Twice the effective position, so that the half step is whole.
  function Effective(lifts: seq<nat>, i: nat): int {
    if i < |lifts| then 2 * i - 2 * lifts[i] - (if lifts[i] > 0 then 1 else 0) else 2 * i
  }

  function ByEffective(lifts: seq<nat>): (nat, nat) -> bool {
    (i: nat, j: nat) => Effective(lifts, i) <= Effective(lifts, j)
  }

  function Indices(n: nat): seq<nat> { seq(n, i => i) }

  // The original places of the re-ranked hits.
  function Order(lifts: seq<nat>): seq<nat> { Sort(Indices(|lifts|), ByEffective(lifts)) }

  function Pick(hits: seq<Hit>, order: seq<nat>): seq<Hit>
    requires forall i <- order :: i < |hits|
  {
    seq(|order|, p requires 0 <= p < |order| => assert order[p] in order; hits[order[p]])
  }

  function Rerank(hits: seq<Hit>, scores: map<string, real>): seq<Hit> {
    if scores == map[] then hits
    else
      OrderPermutes(Lifts(hits, scores));
      Pick(hits, Order(Lifts(hits, scores)))
  }

  // Ties go to the hit that came first.
  function ByPlace(lifts: seq<nat>): (nat, nat) -> bool {
    (i: nat, j: nat) =>
      Effective(lifts, i) < Effective(lifts, j) || (Effective(lifts, i) == Effective(lifts, j) && i <= j)
  }

  ghost predicate Bounded(s: seq<nat>, n: nat) { forall i <- s :: i < n }

  lemma OrderPermutes(lifts: seq<nat>)
    ensures |Order(lifts)| == |lifts| && Bounded(Order(lifts), |lifts|) && NoDuplicates(Order(lifts))
    ensures forall i: nat | i < |lifts| :: i in Order(lifts)
  {
    var ids := Indices(|lifts|);
    SortPermutes(ids, ByEffective(lifts));
    PermutationDistinct(ids, Order(lifts));
    forall i: nat | i < |lifts| ensures i in Order(lifts) {
      assert ids[i] == i;
    }
  }

  // Orders that agree on pairs in input order sort alike.
  lemma {:induction false} InsertAgrees<T>(x: T, s: seq<T>, leq: (T, T) -> bool, leq': (T, T) -> bool)
    requires forall y <- s :: leq(x, y) <==> leq'(x, y)
    ensures Insert(x, s, leq) == Insert(x, s, leq')
  {
    if s != [] && !leq(x, s[0]) {
      InsertAgrees(x, s[1..], leq, leq');
    }
  }

  lemma {:induction false} SortAgrees<T>(s: seq<T>, leq: (T, T) -> bool, leq': (T, T) -> bool)
    requires forall a, b | 0 <= a < b < |s| :: leq(s[a], s[b]) <==> leq'(s[a], s[b])
    ensures Sort(s, leq) == Sort(s, leq')
  {
    if s != [] {
      var tail, sorted := s[1..], Sort(s[1..], leq);
      SortAgrees(tail, leq, leq');
      SortPermutes(tail, leq);
      forall y <- sorted ensures leq(s[0], y) <==> leq'(s[0], y) {
        assert y in multiset(sorted);
        var b :| 0 <= b < |tail| && tail[b] == y;
        assert s[b + 1] == y;
      }
      InsertAgrees(s[0], sorted, leq, leq');
    }
  }

  lemma OrderSorted(lifts: seq<nat>)
    ensures SortedBy(Order(lifts), ByPlace(lifts))
  {
    ByPlaceOrdering(lifts);
    SortAgrees(Indices(|lifts|), ByEffective(lifts), ByPlace(lifts));
    SortSorts(Indices(|lifts|), ByPlace(lifts));
  }

  lemma ByPlaceOrdering(lifts: seq<nat>)
    ensures Ordering(ByPlace(lifts))
  {
    var leq := ByPlace(lifts);
    forall a, b ensures leq(a, b) || leq(b, a) {
    }
    forall a, b, c | leq(a, b) && leq(b, c) ensures leq(a, c) {
    }
  }

  // A later hit overtakes an earlier one.
  ghost predicate Overtakes(lifts: seq<nat>, i: nat, j: nat)
    requires i < j < |lifts|
  {
    lifts[j] >= j - i + lifts[i] + (if lifts[i] > 0 then 1 else 0)
  }

  // Who comes first is decided pair by pair: an unboosted hit is passed by every later
  // hit whose lift spans the distance, a boosted one only by a strictly better one.
  lemma OvertakesExactly(lifts: seq<nat>, p: nat, q: nat)
    requires p < |lifts| == |Order(lifts)| && q < |lifts| && Order(lifts)[p] < Order(lifts)[q] < |lifts|
    ensures q < p <==> Overtakes(lifts, Order(lifts)[p], Order(lifts)[q])
  {
    OrderPermutes(lifts);
    OrderSorted(lifts);
    var i, j := Order(lifts)[p], Order(lifts)[q];
    if q < p {
      assert ByPlace(lifts)(j, i);
    } else if p < q {
      assert ByPlace(lifts)(i, j);
    }
  }

  ghost function Below(n: nat): set<nat> { Elements(Indices(n)) }

  lemma InBelow(n: nat)
    ensures forall i: nat :: i in Below(n) <==> i < n
  {
    forall i: nat | i < n ensures i in Below(n) {
      assert Indices(n)[i] == i;
    }
  }

  lemma BelowCount(n: nat)
    ensures |Below(n)| == n
    ensures forall i: nat :: i in Below(n) <==> i < n
  {
    DistinctCount(Indices(n));
    InBelow(n);
  }

  lemma PrefixElements(order: seq<nat>, p: nat)
    requires NoDuplicates(order) && p < |order|
    ensures |Elements(order[..p])| == p
    ensures forall j: nat :: j in Elements(order[..p]) <==> exists q :: 0 <= q < p && order[q] == j
  {
    DistinctCount(order[..p]);
  }

  // No hit rises past its own lift.
  lemma RiseBounded(lifts: seq<nat>, p: nat)
    requires p < |lifts| == |Order(lifts)| && Order(lifts)[p] < |lifts|
    ensures Order(lifts)[p] - p <= lifts[Order(lifts)[p]]
  {
    OrderPermutes(lifts);
    var order, i := Order(lifts), Order(lifts)[p];
    if i > lifts[i] {
      PrefixElements(order, p);
      forall j: nat | j < i - lifts[i] ensures j in Elements(order[..p]) {
        assert j in order;
        var q :| 0 <= q < |order| && order[q] == j;
        OvertakesExactly(lifts, q, p);
      }
      BelowCount(i - lifts[i]);
      SubsetCount(Below(i - lifts[i]), Elements(order[..p]));
    }
  }

  // A hit falls at most as far as the greatest lift behind it reaches.
  lemma FallBounded(lifts: seq<nat>, p: nat, most: nat)
    requires p < |lifts| == |Order(lifts)| && Order(lifts)[p] < |lifts|
    requires forall j | Order(lifts)[p] < j < |lifts| :: lifts[j] <= most
    ensures p - Order(lifts)[p] <= most
  {
    OrderPermutes(lifts);
    var order, i := Order(lifts), Order(lifts)[p];
    PrefixElements(order, p);
    BelowCount(i + most + 1);
    forall j: nat | j in Elements(order[..p]) ensures j in Below(i + most + 1) - {i} {
      var q :| 0 <= q < p && order[q] == j;
      assert order[q] in order;
      if j > i {
        OvertakesExactly(lifts, p, q);
      }
    }
    SubsetCount(Elements(order[..p]), Below(i + most + 1) - {i});
  }

  // Re-ranking shuffles the page and nothing more. Told by the original place o[p] of
  // the hit at place p, since a page may list equal hits.
  ghost predicate Shuffled(hits: seq<Hit>, out: seq<Hit>, o: seq<nat>) {
    && |o| == |hits| == |out| && NoDuplicates(o)
    && (forall p | 0 <= p < |o| :: o[p] < |hits| && out[p] == hits[o[p]])
  }

  // A hit rises at most its lift, so an unboosted one never rises; none moves more
  // than MAX_LIFT places.
  ghost predicate BoundedMoves(lifts: seq<nat>, o: seq<nat>) {
    forall p | 0 <= p < |o| :: o[p] < |lifts| && o[p] - p <= lifts[o[p]] && -MAX_LIFT <= o[p] - p <= MAX_LIFT
  }

  ghost predicate EqualLiftsInOrder(lifts: seq<nat>, o: seq<nat>) {
    forall p, q | 0 <= p < q < |o| && o[p] < |lifts| && o[q] < |lifts| && lifts[o[p]] == lifts[o[q]] :: o[p] < o[q]
  }

  // Where each hit of the re-ranked page came from.
  function Places(hits: seq<Hit>, scores: map<string, real>): seq<nat> {
    if scores == map[] then Indices(|hits|) else Order(Lifts(hits, scores))
  }

  lemma RerankIsBounded(hits: seq<Hit>, scores: map<string, real>)
    ensures Shuffled(hits, Rerank(hits, scores), Places(hits, scores))
    ensures BoundedMoves(Lifts(hits, scores), Places(hits, scores))
    ensures EqualLiftsInOrder(Lifts(hits, scores), Places(hits, scores))
  {
    if scores != map[] {
      RerankShuffles(hits, scores);
      OrderBoundsMoves(hits, scores);
      OrderKeepsEqualLifts(Lifts(hits, scores));
    }
  }

  lemma RerankShuffles(hits: seq<Hit>, scores: map<string, real>)
    requires scores != map[]
    ensures Shuffled(hits, Rerank(hits, scores), Order(Lifts(hits, scores)))
  {
    var o := Order(Lifts(hits, scores));
    OrderPermutes(Lifts(hits, scores));
    forall p: nat | p < |o| ensures o[p] < |hits| {
      assert o[p] in o;
    }
  }

  lemma OrderBoundsMoves(hits: seq<Hit>, scores: map<string, real>)
    ensures BoundedMoves(Lifts(hits, scores), Order(Lifts(hits, scores)))
  {
    OrderPermutes(Lifts(hits, scores));
    forall p: nat | p < |hits|
      ensures var lifts := Lifts(hits, scores); var o := Order(lifts);
              o[p] < |lifts| && o[p] - p <= lifts[o[p]] && -MAX_LIFT <= o[p] - p <= MAX_LIFT
    {
      MoveBounded(hits, scores, p);
    }
  }

  lemma OrderKeepsEqualLifts(lifts: seq<nat>)
    ensures EqualLiftsInOrder(lifts, Order(lifts))
  {
    OrderPermutes(lifts);
    var o := Order(lifts);
    forall p: nat, q: nat | p < q < |o| && o[p] < |lifts| && o[q] < |lifts| && lifts[o[p]] == lifts[o[q]]
      ensures o[p] < o[q]
    {
      EqualLiftsKeepOrder(lifts, p, q);
    }
  }

  lemma MoveBounded(hits: seq<Hit>, scores: map<string, real>, p: nat)
    requires p < |hits|
    ensures var lifts := Lifts(hits, scores); var o := Order(lifts);
            |o| == |hits| && o[p] < |hits| && o[p] - p <= lifts[o[p]] && -MAX_LIFT <= o[p] - p <= MAX_LIFT
  {
    var lifts := Lifts(hits, scores);
    OrderPermutes(lifts);
    assert Order(lifts)[p] in Order(lifts);
    RiseBounded(lifts, p);
    FallBounded(lifts, p, MAX_LIFT);
  }

  lemma EqualLiftsKeepOrder(lifts: seq<nat>, p: nat, q: nat)
    requires p < q < |lifts| == |Order(lifts)| && Order(lifts)[p] < |lifts| && Order(lifts)[q] < |lifts|
    requires lifts[Order(lifts)[p]] == lifts[Order(lifts)[q]]
    ensures Order(lifts)[p] < Order(lifts)[q]
  {
    OrderPermutes(lifts);
    if Order(lifts)[q] < Order(lifts)[p] {
      OvertakesExactly(lifts, q, p);
    }
  }

  // The page keeps its hits: nothing is lost, repeated or invented.
  lemma RerankPermutes(hits: seq<Hit>, scores: map<string, real>)
    ensures multiset(Rerank(hits, scores)) == multiset(hits)
  {
    if scores != map[] {
      var lifts := Lifts(hits, scores);
      var ids, o := Indices(|lifts|), Order(lifts);
      OrderPermutes(lifts);
      SortPermutes(ids, ByEffective(lifts));
      PickPermutes(hits, ids, o);
      assert Pick(hits, ids) == hits;
    }
  }

  lemma {:induction false} PickPermutes(hits: seq<Hit>, a: seq<nat>, b: seq<nat>)
    requires Bounded(a, |hits|) && Bounded(b, |hits|) && multiset(a) == multiset(b)
    ensures multiset(Pick(hits, a)) == multiset(Pick(hits, b))
  {
    if a == [] {
      SameElements(a, b);
    } else {
      var k := Whereabouts(a, b);
      TailMultiset(a);
      RemovedMultiset(b, k);
      forall i <- a[1..] ensures i < |hits| {
        assert i in a;
      }
      PickSplit(hits, b, k);
      PickSplit(hits, a, 0);
      assert a[..0] + a[0 + 1..] == a[1..];
      PickPermutes(hits, a[1..], b[..k] + b[k + 1..]);
    }
  }

  lemma Whereabouts(a: seq<nat>, b: seq<nat>) returns (k: nat)
    requires a != [] && multiset(a) == multiset(b)
    ensures k < |b| && b[k] == a[0]
  {
    SameElements(a, b);
    assert a[0] in b;
    k :| 0 <= k < |b| && b[k] == a[0];
  }

  lemma RemovedMultiset(b: seq<nat>, k: nat)
    requires k < |b|
    ensures multiset(b[..k] + b[k + 1..]) == multiset(b) - multiset{b[k]}
  {
    assert b == b[..k] + [b[k]] + b[k + 1..];
  }

  lemma PickSplit(hits: seq<Hit>, b: seq<nat>, k: nat)
    requires Bounded(b, |hits|) && k < |b|
    ensures Bounded(b[..k] + b[k + 1..], |hits|) && b[k] < |hits|
    ensures multiset(Pick(hits, b)) == multiset{hits[b[k]]} + multiset(Pick(hits, b[..k] + b[k + 1..]))
  {
    assert b[k] in b;
    var rest := b[..k] + b[k + 1..];
    forall i <- rest ensures i < |hits| {
      assert i in b;
    }
    var all, without := Pick(hits, b), Pick(hits, rest);
    assert all == all[..k] + [hits[b[k]]] + all[k + 1..];
    assert without == all[..k] + all[k + 1..];
  }

  // "Lifted n positions" is literal: a hit boosted alone rises exactly its lift, or to
  // the top.
  lemma LoneHitRisesExactly(lifts: seq<nat>, p: nat)
    requires p < |lifts| == |Order(lifts)| && Order(lifts)[p] < |lifts|
    requires forall j | 0 <= j < |lifts| && j != Order(lifts)[p] :: lifts[j] == 0
    ensures var i := Order(lifts)[p]; p == if i > lifts[i] then i - lifts[i] else 0
  {
    OrderPermutes(lifts);
    var order, i := Order(lifts), Order(lifts)[p];
    var top: nat := if i > lifts[i] then i - lifts[i] else 0;
    RiseBounded(lifts, p);
    PrefixElements(order, p);
    BelowCount(top);
    forall j: nat | j in Elements(order[..p]) ensures j in Below(top) {
      var q :| 0 <= q < p && order[q] == j;
      assert order[q] in order;
      if j > i {
        OvertakesExactly(lifts, p, q);
      } else {
        OvertakesExactly(lifts, q, p);
      }
    }
    SubsetCount(Elements(order[..p]), Below(top));
  }

  // --- The table of habits ---------------------------------------------------

  datatype Key = Key(owner: string, item: string)

  datatype Row = Row(key: Key, rank: real, lastUsed: real)

  function Upsert(rows: seq<Row>, key: Key, now: real): seq<Row> {
    if rows == [] then [Row(key, 1.0, now)]
    else if rows[0].key == key then [Bumped(rows[0], now)] + rows[1..]
    else [rows[0]] + Upsert(rows[1..], key, now)
  }

  function Bumped(r: Row, now: real): Row { r.(rank := r.rank + 1.0, lastUsed := now) }

  function Delete(rows: seq<Row>, gone: Row -> bool): seq<Row> {
    if rows == [] then []
    else if gone(rows[0]) then Delete(rows[1..], gone)
    else [rows[0]] + Delete(rows[1..], gone)
  }

  function Update(rows: seq<Row>, f: Row -> Row): seq<Row> {
    if rows == [] then [] else [f(rows[0])] + Update(rows[1..], f)
  }

  function TotalRank(rows: seq<Row>, owner: string): real {
    if rows == [] then 0.0 else (if rows[0].key.owner == owner then rows[0].rank else 0.0) + TotalRank(rows[1..], owner)
  }

  function Expired(owner: string, cutoff: real): Row -> bool { (r: Row) => r.key.owner == owner && r.lastUsed < cutoff }

  function Faded(owner: string): Row -> bool { (r: Row) => r.key.owner == owner && r.rank < PRUNE_EPSILON }

  function Halved(owner: string): Row -> Row {
    (r: Row) => if r.key.owner == owner then r.(rank := r.rank / 2.0) else r
  }

  // What is left before the cap is looked at.
  function Recent(rows: seq<Row>, key: Key, now: real): seq<Row> {
    Delete(Upsert(rows, key, now), Expired(key.owner, now - RETENTION_DAYS * DAY))
  }

  function Decayed(rows: seq<Row>, owner: string): seq<Row> { Delete(Update(rows, Halved(owner)), Faded(owner)) }

  function Touched(rows: seq<Row>, key: Key, now: real): seq<Row> {
    var recent := Recent(rows, key, now);
    if TotalRank(recent, key.owner) > MAX_TOTAL_RANK then Decayed(recent, key.owner) else recent
  }

  class FrecencyStore {
    var rows: seq<Row>

    method RecordTouch(key: Key, now: real)
      modifies this
      ensures rows == Touched(old(rows), key, now)
    {
      rows := Upsert(rows, key, now);
      rows := Delete(rows, Expired(key.owner, now - RETENTION_DAYS * DAY));
      if TotalRank(rows, key.owner) > MAX_TOTAL_RANK {
        rows := Update(rows, Halved(key.owner));
        rows := Delete(rows, Faded(key.owner));
      }
    }
  }

  ghost predicate OneRowEach(rows: seq<Row>) { forall a, b | 0 <= a < b < |rows| :: rows[a].key != rows[b].key }

  ghost predicate RanksFrom(rows: seq<Row>, least: real) { forall r <- rows :: r.rank >= least }

  ghost predicate Capped(rows: seq<Row>) { forall owner :: TotalRank(rows, owner) <= MAX_TOTAL_RANK }

  // One row per owner and item, none faded, every owner within the cap.
  ghost predicate Valid(rows: seq<Row>) { OneRowEach(rows) && RanksFrom(rows, PRUNE_EPSILON) && Capped(rows) }

  function Find(rows: seq<Row>, key: Key): Option<Row> {
    if rows == [] then None else if rows[0].key == key then Some(rows[0]) else Find(rows[1..], key)
  }

  lemma {:induction false} FindAll(rows: seq<Row>, key: Key)
    ensures Find(rows, key).Some? ==> Find(rows, key).value in rows && Find(rows, key).value.key == key
    ensures Find(rows, key).None? ==> forall r <- rows :: r.key != key
  {
    if rows != [] && rows[0].key != key {
      FindAll(rows[1..], key);
    }
  }

  // --- Each statement on the table

  lemma {:induction false} UpsertTotals(rows: seq<Row>, key: Key, now: real, o: string)
    ensures TotalRank(Upsert(rows, key, now), o) == TotalRank(rows, o) + if o == key.owner then 1.0 else 0.0
  {
    if rows != [] && rows[0].key != key {
      UpsertTotals(rows[1..], key, now, o);
    }
  }

  lemma {:induction false} UpsertKeeps(rows: seq<Row>, key: Key, now: real)
    requires OneRowEach(rows) && RanksFrom(rows, PRUNE_EPSILON)
    ensures OneRowEach(Upsert(rows, key, now)) && RanksFrom(Upsert(rows, key, now), PRUNE_EPSILON)
    ensures forall r <- Upsert(rows, key, now) :: r.key == key || r in rows
  {
    if rows != [] {
      assert rows[0] in rows;
      if rows[0].key != key {
        forall r <- rows[1..] ensures r.rank >= PRUNE_EPSILON {
          assert r in rows;
        }
        UpsertKeeps(rows[1..], key, now);
      }
    }
  }

  lemma {:induction false} UpsertFinds(rows: seq<Row>, key: Key, now: real, k: Key)
    ensures Find(Upsert(rows, key, now), k)
            == if k != key then Find(rows, k)
               else if Find(rows, k).Some? then Some(Bumped(Find(rows, k).value, now)) else Some(Row(k, 1.0, now))
  {
    if rows != [] && rows[0].key != key {
      UpsertFinds(rows[1..], key, now, k);
    }
  }

  lemma {:induction false} UpdateTotals(rows: seq<Row>, owner: string, o: string)
    ensures TotalRank(Update(rows, Halved(owner)), o)
            == if o == owner then TotalRank(rows, o) / 2.0 else TotalRank(rows, o)
  {
    if rows != [] {
      UpdateTotals(rows[1..], owner, o);
    }
  }

  lemma {:induction false} UpdateShape(rows: seq<Row>, f: Row -> Row)
    ensures |Update(rows, f)| == |rows| && forall a | 0 <= a < |rows| :: Update(rows, f)[a] == f(rows[a])
  {
    if rows != [] {
      UpdateShape(rows[1..], f);
    }
  }

  lemma {:induction false} DeleteMembers(rows: seq<Row>, gone: Row -> bool, r: Row)
    ensures r in Delete(rows, gone) <==> r in rows && !gone(r)
  {
    if rows != [] {
      DeleteMembers(rows[1..], gone, r);
      assert r in rows <==> r == rows[0] || r in rows[1..];
    }
  }

  lemma {:induction false} DeleteKeeps(rows: seq<Row>, gone: Row -> bool)
    requires OneRowEach(rows)
    ensures OneRowEach(Delete(rows, gone))
  {
    if rows != [] {
      DeleteKeeps(rows[1..], gone);
      forall r <- Delete(rows[1..], gone) ensures r.key != rows[0].key {
        DeleteMembers(rows[1..], gone, r);
        var a :| 0 <= a < |rows| - 1 && rows[1..][a] == r;
        assert rows[a + 1] == r;
      }
    }
  }

  lemma {:induction false} DeleteTotals(rows: seq<Row>, gone: Row -> bool, o: string)
    requires RanksFrom(rows, 0.0)
    ensures TotalRank(Delete(rows, gone), o) <= TotalRank(rows, o)
  {
    if rows != [] {
      assert rows[0] in rows;
      forall r <- rows[1..] ensures r.rank >= 0.0 {
        assert r in rows;
      }
      DeleteTotals(rows[1..], gone, o);
    }
  }

  // --- What a touch keeps

  lemma RecentKeeps(rows: seq<Row>, key: Key, now: real, o: string)
    requires Valid(rows)
    ensures OneRowEach(Recent(rows, key, now)) && RanksFrom(Recent(rows, key, now), PRUNE_EPSILON)
    ensures TotalRank(Recent(rows, key, now), o) <= MAX_TOTAL_RANK + if o == key.owner then 1.0 else 0.0
  {
    var upserted := Upsert(rows, key, now);
    var gone := Expired(key.owner, now - RETENTION_DAYS * DAY);
    UpsertKeeps(rows, key, now);
    UpsertTotals(rows, key, now, o);
    DeleteKeeps(upserted, gone);
    DeleteTotals(upserted, gone, o);
    forall r <- Delete(upserted, gone) ensures r.rank >= PRUNE_EPSILON {
      DeleteMembers(upserted, gone, r);
    }
  }

  lemma DecayKeeps(rows: seq<Row>, owner: string, o: string)
    requires OneRowEach(rows) && RanksFrom(rows, PRUNE_EPSILON)
    requires TotalRank(rows, o) <= if o == owner then 2.0 * MAX_TOTAL_RANK else MAX_TOTAL_RANK
    ensures OneRowEach(Decayed(rows, owner)) && RanksFrom(Decayed(rows, owner), PRUNE_EPSILON)
    ensures TotalRank(Decayed(rows, owner), o) <= MAX_TOTAL_RANK
  {
    var halved := Update(rows, Halved(owner));
    UpdateShape(rows, Halved(owner));
    UpdateTotals(rows, owner, o);
    DeleteKeeps(halved, Faded(owner));
    forall r <- halved ensures r.rank >= 0.0 && (r.key.owner != owner ==> r.rank >= PRUNE_EPSILON) {
      var a :| 0 <= a < |halved| && halved[a] == r;
      assert rows[a] in rows;
    }
    DeleteTotals(halved, Faded(owner), o);
    forall r <- Decayed(rows, owner) ensures r.rank >= PRUNE_EPSILON {
      DeleteMembers(halved, Faded(owner), r);
    }
  }

  lemma TouchKeeps(rows: seq<Row>, key: Key, now: real)
    requires Valid(rows)
    ensures Valid(Touched(rows, key, now))
  {
    var recent := Recent(rows, key, now);
    RecentKeeps(rows, key, now, key.owner);
    forall o ensures TotalRank(Touched(rows, key, now), o) <= MAX_TOTAL_RANK {
      RecentKeeps(rows, key, now, o);
      if TotalRank(recent, key.owner) > MAX_TOTAL_RANK {
        DecayKeeps(recent, key.owner, o);
      }
    }
    if TotalRank(recent, key.owner) > MAX_TOTAL_RANK {
      DecayKeeps(recent, key.owner, key.owner);
    }
  }

  datatype Touch = Touch(key: Key, now: real)

  function After(touches: seq<Touch>): seq<Row> {
    if touches == [] then []
    else
      var last := touches[|touches| - 1];
      Touched(After(touches[..|touches| - 1]), last.key, last.now)
  }

  function RowsOf(rows: seq<Row>, owner: string): nat {
    if rows == [] then 0 else (if rows[0].key.owner == owner then 1 else 0) + RowsOf(rows[1..], owner)
  }

  lemma {:induction false} RowsBelowRank(rows: seq<Row>, owner: string)
    requires RanksFrom(rows, PRUNE_EPSILON)
    ensures RowsOf(rows, owner) as real <= TotalRank(rows, owner)
  {
    if rows != [] {
      assert rows[0] in rows;
      forall r <- rows[1..] ensures r.rank >= PRUNE_EPSILON {
        assert r in rows;
      }
      RowsBelowRank(rows[1..], owner);
    }
  }

  // Whatever is touched, by whom and when, the table stays valid, so that no owner ever
  // has more than 10,000 rows.
  lemma {:induction false} TableStaysBounded(touches: seq<Touch>, owner: string)
    ensures Valid(After(touches)) && RowsOf(After(touches), owner) <= 10000
  {
    if touches != [] {
      var last := touches[|touches| - 1];
      TableStaysBounded(touches[..|touches| - 1], owner);
      TouchKeeps(After(touches[..|touches| - 1]), last.key, last.now);
    }
    RowsBelowRank(After(touches), owner);
  }

  // --- Owners do not affect each other

  function Others(owner: string): Row -> bool { (r: Row) => r.key.owner != owner }

  // The rows of one owner.
  function Own(rows: seq<Row>, owner: string): seq<Row> { Delete(rows, Others(owner)) }

  lemma OwnHead(r: Row, rows: seq<Row>, owner: string)
    ensures Own([r] + rows, owner) == if r.key.owner == owner then [r] + Own(rows, owner) else Own(rows, owner)
  {
    assert ([r] + rows)[1..] == rows;
  }

  lemma {:induction false} UpsertElsewhere(rows: seq<Row>, key: Key, now: real, o: string)
    requires o != key.owner
    ensures Own(Upsert(rows, key, now), o) == Own(rows, o)
  {
    if rows == [] {
      OwnHead(Row(key, 1.0, now), [], o);
      assert [Row(key, 1.0, now)] + [] == [Row(key, 1.0, now)];
    } else if rows[0].key == key {
      OwnHead(Bumped(rows[0], now), rows[1..], o);
    } else {
      UpsertElsewhere(rows[1..], key, now, o);
      OwnHead(rows[0], Upsert(rows[1..], key, now), o);
    }
  }

  lemma {:induction false} DeleteElsewhere(rows: seq<Row>, gone: Row -> bool, o: string)
    requires forall r: Row | r.key.owner == o :: !gone(r)
    ensures Own(Delete(rows, gone), o) == Own(rows, o)
  {
    if rows != [] {
      DeleteElsewhere(rows[1..], gone, o);
      OwnHead(rows[0], Delete(rows[1..], gone), o);
    }
  }

  lemma {:induction false} UpdateElsewhere(rows: seq<Row>, owner: string, o: string)
    requires o != owner
    ensures Own(Update(rows, Halved(owner)), o) == Own(rows, o)
  {
    if rows != [] {
      UpdateElsewhere(rows[1..], owner, o);
      OwnHead(Halved(owner)(rows[0]), Update(rows[1..], Halved(owner)), o);
    }
  }

  // A touch never changes another owner's rows.
  lemma OwnersApart(rows: seq<Row>, key: Key, now: real, o: string)
    requires o != key.owner
    ensures Own(Touched(rows, key, now), o) == Own(rows, o)
  {
    var upserted, recent := Upsert(rows, key, now), Recent(rows, key, now);
    UpsertElsewhere(rows, key, now, o);
    DeleteElsewhere(upserted, Expired(key.owner, now - RETENTION_DAYS * DAY), o);
    UpdateElsewhere(recent, key.owner, o);
    DeleteElsewhere(Update(recent, Halved(key.owner)), Faded(key.owner), o);
  }

  // --- What a touch is remembered as

  lemma {:induction false} DeleteFinds(rows: seq<Row>, gone: Row -> bool, k: Key)
    requires OneRowEach(rows)
    ensures Find(Delete(rows, gone), k)
            == if Find(rows, k).Some? && !gone(Find(rows, k).value) then Find(rows, k) else None
  {
    if rows != [] {
      DeleteFinds(rows[1..], gone, k);
      if rows[0].key == k {
        FindAll(rows[1..], k);
      }
    }
  }

  lemma {:induction false} UpdateFinds(rows: seq<Row>, owner: string, k: Key)
    ensures Find(Update(rows, Halved(owner)), k)
            == if Find(rows, k).Some? then Some(Halved(owner)(Find(rows, k).value)) else None
  {
    if rows != [] {
      UpdateFinds(rows[1..], owner, k);
    }
  }

  // A use is remembered unless it is the item's first and trips the cap: then halving
  // puts it below the prune line, and the use is forgotten at once.
  lemma TouchRemembered(rows: seq<Row>, key: Key, now: real)
    requires Valid(rows)
    ensures var before, after := Find(rows, key), Find(Touched(rows, key, now), key);
            && (after.Some? <==> before.Some? || TotalRank(Recent(rows, key, now), key.owner) <= MAX_TOTAL_RANK)
            && (after.Some? ==> after.value.lastUsed == now)
  {
    var upserted, recent := Upsert(rows, key, now), Recent(rows, key, now);
    RecentKeeps(rows, key, now, key.owner);
    UpsertKeeps(rows, key, now);
    UpsertFinds(rows, key, now, key);
    FindAll(rows, key);
    DeleteFinds(upserted, Expired(key.owner, now - RETENTION_DAYS * DAY), key);
    UpdateFinds(recent, key.owner, key);
    UpdateShape(recent, Halved(key.owner));
    DeleteFinds(Update(recent, Halved(key.owner)), Faded(key.owner), key);
  }

  // An owner at the cap: the first use of a new item leaves no trace.
  lemma FirstUseForgotten(owner: string, now: real)
    ensures var rows, key' := [Row(Key(owner, "old"), MAX_TOTAL_RANK, now)], Key(owner, "new");
            Valid(rows) && Find(Touched(rows, key', now), key').None?
  {
    var row, key := Row(Key(owner, "old"), MAX_TOTAL_RANK, now), Key(owner, "new");
    var rows := [row];
    assert rows[1..] == [];
    forall o ensures TotalRank(rows, o) <= MAX_TOTAL_RANK {
      assert TotalRank(rows[1..], o) == 0.0;
    }
    var added := Row(key, 1.0, now);
    assert [row, added][1..] == [added] && [added][1..] == [];
    assert Upsert(rows, key, now) == [row, added];
    var gone := Expired(owner, now - RETENTION_DAYS * DAY);
    assert !gone(row) && !gone(added);
    assert Delete([added][1..], gone) == [] && TotalRank([added][1..], owner) == 0.0;
    assert Delete([added], gone) == [added] && TotalRank([added], owner) == 1.0;
    assert TotalRank([row, added], owner) == MAX_TOTAL_RANK + TotalRank([added], owner);
    assert Recent(rows, key, now) == [row, added];
    TouchRemembered(rows, key, now);
  }

  // The row of k once a touch of key is written and the old rows are pruned.
  ghost function Used(before: Option<Row>, key: Key, now: real, k: Key): Option<Row> {
    var used := if k != key then before
                else if before.Some? then Some(Row(k, before.value.rank + 1.0, now))
                else Some(Row(k, 1.0, now));
    if used.Some? && k.owner == key.owner && used.value.lastUsed < now - 7776000.0 then None else used
  }

  lemma RecentFinds(rows: seq<Row>, key: Key, now: real, k: Key)
    requires Valid(rows)
    ensures Find(Recent(rows, key, now), k) == Used(Find(rows, k), key, now, k)
  {
    UpsertKeeps(rows, key, now);
    UpsertFinds(rows, key, now, k);
    FindAll(rows, k);
    DeleteFinds(Upsert(rows, key, now), Expired(key.owner, now - RETENTION_DAYS * DAY), k);
  }

  lemma DecayFinds(rows: seq<Row>, owner: string, k: Key)
    requires OneRowEach(rows)
    ensures var row := Find(rows, k);
            Find(Decayed(rows, owner), k)
            == if row.None? || k.owner != owner then row
               else if row.value.rank < 2.0 then None
               else Some(Row(k, row.value.rank / 2.0, row.value.lastUsed))
  {
    FindAll(rows, k);
    UpdateFinds(rows, owner, k);
    UpdateShape(rows, Halved(owner));
    DeleteFinds(Update(rows, Halved(owner)), Faded(owner), k);
  }

  // Row by row, what a touch by an owner leaves: the touched row one use richer and
  // stamped, rows of the owner unused for 90 days gone, and past a total of 10,000 the
  // owner's ranks halved and those under 1 gone. Rows of other owners stay as they are.
  lemma TouchExactly(rows: seq<Row>, key: Key, now: real, k: Key)
    requires Valid(rows)
    ensures var row := Used(Find(rows, k), key, now, k);
            Find(Touched(rows, key, now), k)
            == if row.None? || k.owner != key.owner || TotalRank(Recent(rows, key, now), key.owner) <= 10000.0 then row
               else if row.value.rank < 2.0 then None
               else Some(Row(k, row.value.rank / 2.0, row.value.lastUsed))
  {
    RecentKeeps(rows, key, now, key.owner);
    RecentFinds(rows, key, now, k);
    DecayFinds(Recent(rows, key, now), key.owner, k);
  }
}
