/** What the greedy placement does to the totals, and how it evens out a cluster that was uneven. */
module Balance {
  import opened Assignment
  import opened NodeLoad
  import opened TopicMeta

  function Sum(s: seq<nat>): nat {
    if s == [] then 0 else Sum(s[..|s| - 1]) + s[|s| - 1]
  }

  ghost predicate AtMost(s: seq<nat>, t: seq<nat>) {
    |s| == |t| && forall i :: 0 <= i < |s| ==> s[i] <= t[i]
  }

  lemma {:induction false} SumAtMost(s: seq<nat>, t: seq<nat>)
    requires AtMost(s, t)
    ensures Sum(s) <= Sum(t)
  {
    if s != [] {
      SumAtMost(s[..|s| - 1], t[..|s| - 1]);
    }
  }

  lemma SumLess(s: seq<nat>, t: seq<nat>, k: nat)
    requires AtMost(s, t) && k < |s| && s[k] < t[k]
    ensures Sum(s) < Sum(t)
  {
    SumAtMost(s[k := s[k] + 1], t);
    SumPlusOne(s, k);
  }

  lemma {:induction false} SumPlusOne(s: seq<nat>, i: nat)
    requires i < |s|
    ensures Sum(s[i := s[i] + 1]) == Sum(s) + 1
  {
    var n := |s| - 1;
    if i < n {
      SumPlusOne(s[..n], i);
      assert s[i := s[i] + 1][..n] == s[..n][i := s[..n][i] + 1];
    } else {
      assert s[i := s[i] + 1][..n] == s[..n];
    }
  }

  lemma {:induction false} SumBelow(s: seq<nat>, bound: nat)
    requires forall i :: 0 <= i < |s| ==> s[i] <= bound
    ensures Sum(s) <= |s| * bound
  {
    if s != [] {
      SumBelow(s[..|s| - 1], bound);
      assert |s| * bound == (|s| - 1) * bound + bound;
    }
  }

  // --- Totals ---

  function Counts(c: Counters, ids: seq<NodeId>): (s: seq<nat>)
    ensures |s| == |ids| && forall i :: 0 <= i < |ids| ==> s[i] == Count(c, ids[i])
  {
    seq(|ids|, i requires 0 <= i < |ids| => Count(c, ids[i]))
  }

  lemma {:induction false} BumpAllTotal(c: Counters, chosen: seq<NodeId>, ids: seq<NodeId>)
    requires Distinct(ids) && forall id :: id in chosen ==> id in ids
    ensures Sum(Counts(BumpAll(c, chosen), ids)) == Sum(Counts(c, ids)) + |chosen|
  {
    if chosen != [] {
      var front, last := chosen[..|chosen| - 1], chosen[|chosen| - 1];
      assert last in chosen;
      BumpAllTotal(c, front, ids);
      var before := BumpAll(c, front);
      var i :| 0 <= i < |ids| && ids[i] == last;
      SumPlusOne(Counts(before, ids), i);
      assert Counts(Bump(before, last), ids) == Counts(before, ids)[i := Counts(before, ids)[i] + 1];
    }
  }

  /** A plan for n partitions adds rf * n to the replica counts of the alive nodes and n to their leader counts. */
  lemma {:induction false} TotalsGrow(replicas: Counters, leaders: Counters, ids: seq<NodeId>, rf: nat, n: nat)
    requires Enough(ids, rf)
    ensures var plan := PlanFor(replicas, leaders, ids, rf, n);
            && Sum(Counts(plan.replicas, ids)) == Sum(Counts(replicas, ids)) + rf * n
            && Sum(Counts(plan.leaders, ids)) == Sum(Counts(leaders, ids)) + n
  {
    hide Place;
    if n > 0 {
      TotalsGrow(replicas, leaders, ids, rf, n - 1);
      PlaceTotals(PlanFor(replicas, leaders, ids, rf, n - 1), ids, rf);
      assert rf * n == rf * (n - 1) + rf;
    }
  }

  lemma PlaceTotals(plan: Plan, ids: seq<NodeId>, rf: nat)
    requires Enough(ids, rf)
    ensures Sum(Counts(Place(plan, ids, rf).replicas, ids)) == Sum(Counts(plan.replicas, ids)) + rf
    ensures Sum(Counts(Place(plan, ids, rf).leaders, ids)) == Sum(Counts(plan.leaders, ids)) + 1
  {
    hide SortByLoad, Sum;
    ChosenIsLeast(plan.replicas, ids, rf);
    var chosen := Chosen(plan.replicas, ids, rf);
    LeaderIsLeast(plan.leaders, chosen);
    var leader := LeaderOf(plan.leaders, chosen);
    BumpAllTotal(plan.replicas, chosen, ids);
    BumpAllTotal(plan.leaders, [leader], ids);
    assert BumpAll(plan.leaders, [leader]) == Bump(plan.leaders, leader) by {
      assert [leader][..0] == [];
    }
  }

  // --- An uneven cluster evens out ---

  /** The lowest count. */
  function Lowest(c: Counters, ids: seq<NodeId>): (m: nat)
    requires ids != []
    ensures forall id :: id in ids ==> m <= Count(c, id)
    ensures exists id :: id in ids && Count(c, id) == m
  {
    if |ids| == 1 then assert ids[0] in ids; Count(c, ids[0])
    else
      var m := Lowest(c, ids[..|ids| - 1]);
      var last := Count(c, ids[|ids| - 1]);
      assert ids[|ids| - 1] in ids;
      assert forall id :: id in ids ==> id in ids[..|ids| - 1] || id == ids[|ids| - 1];
      if last < m then last else m
  }

  /** By how much each node exceeds the lowest count plus one. */
  function Excess(c: Counters, ids: seq<NodeId>, m: nat): (s: seq<nat>)
    ensures |s| == |ids|
    ensures forall i :: 0 <= i < |ids| ==> s[i] == if Count(c, ids[i]) > m + 1 then Count(c, ids[i]) - m - 1 else 0
  {
    seq(|ids|, i requires 0 <= i < |ids| => if Count(c, ids[i]) > m + 1 then Count(c, ids[i]) - m - 1 else 0)
  }

  /** Which nodes have the lowest count. */
  function Low(c: Counters, ids: seq<NodeId>, m: nat): (s: seq<nat>)
    ensures |s| == |ids|
    ensures forall i :: 0 <= i < |ids| ==> s[i] == if Count(c, ids[i]) == m then 1 else 0
  {
    seq(|ids|, i requires 0 <= i < |ids| => if Count(c, ids[i]) == m then 1 else 0)
  }

  /** How far the counts are from even: the total excess, and between two changes of the lowest count
      the number of nodes that still have it. */
  function Unevenness(c: Counters, ids: seq<NodeId>): nat
    requires ids != []
  {
    var m := Lowest(c, ids);
    Sum(Excess(c, ids, m)) * (|ids| + 1) + Sum(Low(c, ids, m))
  }

  /** `chosen` are some but not all of `ids`, none of them with more than the others; c' counts them once more. */
  ghost predicate Raised(c: Counters, c': Counters, ids: seq<NodeId>, chosen: seq<NodeId>) {
    && chosen != [] && (forall id :: id in chosen ==> id in ids) && (exists id :: id in ids && id !in chosen)
    && (forall a, b {:trigger Count(c, a), Count(c, b)} ::
          a in chosen && b in ids && b !in chosen ==> Count(c, a) <= Count(c, b))
    && (forall id :: Count(c', id) == Count(c, id) + if id in chosen then 1 else 0)
  }

  lemma SomeFarAbove(c: Counters, c': Counters, ids: seq<NodeId>, chosen: seq<NodeId>, m: nat) returns (other: NodeId)
    requires Raised(c, c', ids, chosen) && !Within(c, ids, 1)
    requires forall id :: id in ids ==> m <= Count(c, id)
    ensures other in ids && other !in chosen && Count(c, other) >= m + 2
  {
    var a, b :| a in ids && b in ids && Count(c, a) > Count(c, b) + 1;
    var out :| out in ids && out !in chosen;
    assert a in chosen ==> Count(c, a) <= Count(c, out);
    other := if a in chosen then out else a;
  }

  lemma LowestPlusOne(c: Counters, c': Counters, ids: seq<NodeId>, chosen: seq<NodeId>)
    requires ids != [] && Raised(c, c', ids, chosen)
    requires forall id :: id in ids && Count(c, id) == Lowest(c, ids) ==> id in chosen
    ensures Lowest(c', ids) == Lowest(c, ids) + 1
  {
    var m := Lowest(c, ids);
    var low :| low in ids && Count(c, low) == m;
    assert Count(c', low) == m + 1;
  }

  /** If every node with the lowest count is chosen, the lowest count grows and the excess falls. */
  lemma LowestRises(c: Counters, c': Counters, ids: seq<NodeId>, chosen: seq<NodeId>)
    requires ids != [] && Raised(c, c', ids, chosen) && !Within(c, ids, 1)
    requires forall id :: id in ids && Count(c, id) == Lowest(c, ids) ==> id in chosen
    ensures Sum(Excess(c', ids, Lowest(c', ids))) < Sum(Excess(c, ids, Lowest(c, ids)))
  {
    hide Within, Count, Sum, Lowest, Excess;
    LowestPlusOne(c, c', ids, chosen);
    var m := Lowest(c, ids);
    var other := SomeFarAbove(c, c', ids, chosen, m);
    var k :| 0 <= k < |ids| && ids[k] == other;
    ExcessFalls(c, c', ids, m, k);
  }

  lemma ExcessFalls(c: Counters, c': Counters, ids: seq<NodeId>, m: nat, k: nat)
    requires forall id :: Count(c', id) <= Count(c, id) + 1
    requires k < |ids| && Count(c', ids[k]) == Count(c, ids[k]) >= m + 2
    ensures Sum(Excess(c', ids, m + 1)) < Sum(Excess(c, ids, m))
  {
    hide Count, Sum;
    var e, e' := Excess(c, ids, m), Excess(c', ids, m + 1);
    forall i | 0 <= i < |ids| ensures e'[i] <= e[i] {
      assert Count(c', ids[i]) <= Count(c, ids[i]) + 1;
    }
    SumLess(e', e, k);
  }

  /** Otherwise only nodes with the lowest count are chosen, and fewer are left with it. */
  lemma LowestStays(c: Counters, c': Counters, ids: seq<NodeId>, chosen: seq<NodeId>, left: NodeId)
    requires ids != [] && Raised(c, c', ids, chosen)
    requires left in ids && left !in chosen && Count(c, left) == Lowest(c, ids)
    ensures Lowest(c', ids) == Lowest(c, ids)
    ensures Sum(Excess(c', ids, Lowest(c', ids))) <= Sum(Excess(c, ids, Lowest(c, ids)))
    ensures Sum(Low(c', ids, Lowest(c', ids))) < Sum(Low(c, ids, Lowest(c, ids)))
  {
    var m := Lowest(c, ids);
    assert Count(c', left) == m;
    assert forall id :: id in chosen ==> Count(c, id) == m;
    assert Lowest(c', ids) == m;
    var e, e', l, l' := Excess(c, ids, m), Excess(c', ids, m), Low(c, ids, m), Low(c', ids, m);
    forall i | 0 <= i < |ids| ensures e'[i] <= e[i] && l'[i] <= l[i] {
      assert Count(c', ids[i]) == Count(c, ids[i]) + if ids[i] in chosen then 1 else 0;
    }
    assert chosen[0] in chosen;
    var k :| 0 <= k < |ids| && ids[k] == chosen[0];
    SumAtMost(e', e);
    SumLess(l', l, k);
  }

  lemma Lexicographic(e': nat, l': nat, e: nat, l: nat, n: nat)
    requires (e' < e && l' <= n) || (e' <= e && l' < l)
    ensures e' * (n + 1) + l' < e * (n + 1) + l
  {
    if e' < e {
      assert e' * (n + 1) + (n + 1) == (e' + 1) * (n + 1) <= e * (n + 1);
    } else {
      assert e' == e;
    }
  }

  lemma UnevennessFalls(c: Counters, c': Counters, ids: seq<NodeId>, chosen: seq<NodeId>)
    requires ids != [] && Raised(c, c', ids, chosen) && !Within(c, ids, 1)
    ensures Unevenness(c', ids) < Unevenness(c, ids)
  {
    hide Raised, Sum, Within, Lowest, Excess, Low, Count;
    var m, m' := Lowest(c, ids), Lowest(c', ids);
    if left :| left in ids && left !in chosen && Count(c, left) == m {
      LowestStays(c, c', ids, chosen, left);
    } else {
      LowestRises(c, c', ids, chosen);
      SumBelow(Low(c', ids, m'), 1);
    }
    Lexicographic(Sum(Excess(c', ids, m')), Sum(Low(c', ids, m')), Sum(Excess(c, ids, m)), Sum(Low(c, ids, m)), |ids|);
  }

  lemma PlaceRaises(plan: Plan, ids: seq<NodeId>, rf: nat)
    requires Enough(ids, rf) && rf < |ids|
    ensures Raised(plan.replicas, Place(plan, ids, rf).replicas, ids, Chosen(plan.replicas, ids, rf))
  {
    hide SortByLoad;
    var chosen := Chosen(plan.replicas, ids, rf);
    ChosenIsLeast(plan.replicas, ids, rf);
    BumpDistinct(plan.replicas, chosen);
    SomeNotChosen(ids, chosen);
    forall a, b | a in chosen && b in ids && b !in chosen ensures Count(plan.replicas, a) <= Count(plan.replicas, b) {
      assert Before(plan.replicas, a, b);
    }
  }

  lemma {:induction false} SomeNotChosen(ids: seq<NodeId>, chosen: seq<NodeId>)
    requires Distinct(ids) && |chosen| < |ids|
    ensures exists id :: id in ids && id !in chosen
  {
    var last := ids[|ids| - 1];
    assert last in ids;
    if last in chosen {
      var i :| 0 <= i < |chosen| && chosen[i] == last;
      var rest := chosen[..i] + chosen[i + 1..];
      SomeNotChosen(ids[..|ids| - 1], rest);
      var id :| id in ids[..|ids| - 1] && id !in rest;
      assert id in ids && id != last;
      assert chosen == chosen[..i] + [last] + chosen[i + 1..];
    }
  }

  /** Placement repairs balance: when the replication factor is below the number of alive nodes, after
      as many partitions as the cluster was uneven no node has more than one replica above another,
      whatever the counts were, and it stays so. */
  lemma SpreadSettles(replicas: Counters, leaders: Counters, ids: seq<NodeId>, rf: nat, n: nat)
    requires Enough(ids, rf) && rf < |ids| && n >= Unevenness(replicas, ids)
    ensures Within(PlanFor(replicas, leaders, ids, rf, n).replicas, ids, 1)
  {
    hide Within, Unevenness;
    Settling(replicas, leaders, ids, rf, n);
    if !Within(PlanFor(replicas, leaders, ids, rf, n).replicas, ids, 1) {
      SomeUnevenness(PlanFor(replicas, leaders, ids, rf, n).replicas, ids);
    }
  }

  lemma {:induction false} SumAtLeast(s: seq<nat>, k: nat)
    requires k < |s|
    ensures Sum(s) >= s[k]
  {
    if k < |s| - 1 {
      SumAtLeast(s[..|s| - 1], k);
    }
  }

  lemma SomeUnevenness(c: Counters, ids: seq<NodeId>)
    requires ids != []
    ensures Unevenness(c, ids) > 0
  {
    hide Sum, Count, Excess;
    var m := Lowest(c, ids);
    var id :| id in ids && Count(c, id) == m;
    var i :| 0 <= i < |ids| && ids[i] == id;
    SumAtLeast(Low(c, ids, m), i);
  }

  lemma {:induction false} Settling(replicas: Counters, leaders: Counters, ids: seq<NodeId>, rf: nat, n: nat)
    requires Enough(ids, rf) && rf < |ids|
    ensures var c := PlanFor(replicas, leaders, ids, rf, n).replicas;
            Within(c, ids, 1) || Unevenness(c, ids) + n <= Unevenness(replicas, ids)
  {
    hide Within, Unevenness, Place, Raised, Enough;
    if n > 0 {
      Settling(replicas, leaders, ids, rf, n - 1);
      var before := PlanFor(replicas, leaders, ids, rf, n - 1);
      if Within(before.replicas, ids, 1) {
        ReplicaPlacement(before, ids, rf, 1);
      } else {
        PlaceRaises(before, ids, rf);
        UnevennessFalls(before.replicas, Place(before, ids, rf).replicas, ids, Chosen(before.replicas, ids, rf));
      }
    }
  }

  /** When every alive node gets every partition, nothing evens out: the spread never changes. */
  lemma {:induction false} FullReplicationKeepsSpread(replicas: Counters, leaders: Counters, ids: seq<NodeId>, n: nat, d: nat)
    requires Enough(ids, |ids|)
    ensures Within(PlanFor(replicas, leaders, ids, |ids|, n).replicas, ids, d) <==> Within(replicas, ids, d)
  {
    hide Within, Place, Enough;
    if n > 0 {
      FullReplicationKeepsSpread(replicas, leaders, ids, n - 1, d);
      FullPlacementKeepsSpread(PlanFor(replicas, leaders, ids, |ids|, n - 1), ids, d);
    }
  }

  lemma FullPlacementKeepsSpread(plan: Plan, ids: seq<NodeId>, d: nat)
    requires Enough(ids, |ids|)
    ensures Within(Place(plan, ids, |ids|).replicas, ids, d) <==> Within(plan.replicas, ids, d)
  {
    hide SortByLoad;
    var c, c' := plan.replicas, Place(plan, ids, |ids|).replicas;
    ChosenIsLeast(c, ids, |ids|);
    AllChosen(c, ids);
    BumpDistinct(c, Chosen(c, ids, |ids|));
    if Within(c', ids, d) {
      forall a, b | a in ids && b in ids ensures Count(c, a) <= Count(c, b) + d {
        assert Count(c', a) <= Count(c', b) + d;
      }
    }
  }

  // --- When the leader counts are balanced ---

  /** Whatever the counters are, the leader counts stay within the larger of 1 and their spread. */
  ghost predicate LeadersBounded(ids: seq<NodeId>, rf: nat)
    requires Enough(ids, rf)
  {
    forall replicas, leaders, n: nat, d: nat {:trigger PlanFor(replicas, leaders, ids, rf, n), Within(leaders, ids, d)} ::
      d >= 1 && Within(leaders, ids, d) ==> Within(PlanFor(replicas, leaders, ids, rf, n).leaders, ids, d)
  }

  /** The bound on leader counts holds exactly when every alive node is a replica of every partition. */
  lemma LeadersBoundedIff(ids: seq<NodeId>, rf: nat)
    requires Enough(ids, rf)
    ensures LeadersBounded(ids, rf) <==> rf == |ids|
  {
    hide Within;
    if rf == |ids| {
      forall replicas, leaders, n: nat, d: nat | d >= 1 && Within(leaders, ids, d)
        ensures Within(PlanFor(replicas, leaders, ids, rf, n).leaders, ids, d)
      {
        LeadersStayBalanced(replicas, leaders, ids, n, d);
      }
    } else {
      NoLeaders(ids);
      LeadersPileUp(ids, rf);
      assert Within(map[], ids, 1) && !Within(PlanFor(Skewed(ids, rf), map[], ids, rf, rf + 1).leaders, ids, 1);
    }
  }

  lemma NoLeaders(ids: seq<NodeId>)
    ensures Within(map[], ids, 1)
  {
  }

  /** The first rf nodes hold nothing; each of the others is a replica of rf + 1 partitions whose leaders
      are no longer alive. */
  function Skewed(ids: seq<NodeId>, rf: nat): Counters
    requires Enough(ids, rf)
  {
    map id | id in ids[rf..] :: rf + 1
  }

  /** After k partitions: the first nodes hold all of them, and nobody else leads one. */
  ghost predicate PilingUp(plan: Plan, ids: seq<NodeId>, rf: nat, k: nat)
    requires Enough(ids, rf)
  {
    && (forall id :: id in ids[..rf] ==> Count(plan.replicas, id) == k)
    && (forall id :: id in ids[rf..] ==> Count(plan.replicas, id) == rf + 1 && Count(plan.leaders, id) == 0)
  }

  lemma {:induction false} Remove(s: seq<NodeId>, x: NodeId) returns (rest: seq<NodeId>)
    requires x in s
    ensures |rest| == |s| - 1 && forall id :: id in s ==> id == x || id in rest
  {
    var i :| 0 <= i < |s| && s[i] == x;
    rest := s[..i] + s[i + 1..];
    assert s == s[..i] + [x] + s[i + 1..];
  }

  lemma FirstChosen(plan: Plan, ids: seq<NodeId>, rf: nat, k: nat)
    requires Enough(ids, rf) && k <= rf && PilingUp(plan, ids, rf, k)
    ensures forall id :: id in Chosen(plan.replicas, ids, rf) <==> id in ids[..rf]
  {
    hide SortByLoad, Chosen;
    var chosen, first := Chosen(plan.replicas, ids, rf), ids[..rf];
    ChosenIsLeast(plan.replicas, ids, rf);
    assert forall id :: id in ids <==> id in first || id in ids[rf..] by {
      assert ids == first + ids[rf..];
    }
    if x :| x in chosen && x !in first {
      var rest := Remove(chosen, x);
      SomeNotChosen(first, rest);
      assert false;
    }
    if y :| y in first && y !in chosen {
      var rest := Remove(first, y);
      SomeNotChosen(chosen, rest);
      assert false;
    }
  }

  lemma PilingStep(plan: Plan, ids: seq<NodeId>, rf: nat, k: nat)
    requires Enough(ids, rf) && k <= rf && PilingUp(plan, ids, rf, k)
    ensures PilingUp(Place(plan, ids, rf), ids, rf, k + 1)
  {
    hide SortByLoad;
    FirstChosen(plan, ids, rf, k);
    ChosenIsLeast(plan.replicas, ids, rf);
    var chosen := Chosen(plan.replicas, ids, rf);
    LeaderIsLeast(plan.leaders, chosen);
    BumpDistinct(plan.replicas, chosen);
    forall id | id in ids[rf..] ensures id !in ids[..rf] {
      var j :| rf <= j < |ids| && ids[j] == id;
      assert forall i :: 0 <= i < rf ==> ids[..rf][i] == ids[i];
    }
  }

  lemma {:induction false} Piling(ids: seq<NodeId>, rf: nat, k: nat)
    requires Enough(ids, rf) && k <= rf + 1
    ensures PilingUp(PlanFor(Skewed(ids, rf), map[], ids, rf, k), ids, rf, k)
  {
    hide Place;
    if k > 0 {
      Piling(ids, rf, k - 1);
      PilingStep(PlanFor(Skewed(ids, rf), map[], ids, rf, k - 1), ids, rf, k - 1);
    } else {
      forall id | id in ids[..rf] ensures id !in ids[rf..] {
        var i :| 0 <= i < rf && ids[i] == id;
        assert forall j :: rf <= j < |ids| ==> ids[rf..][j - rf] == ids[j];
      }
    }
  }

  lemma {:induction false} SumOfOnes(n: nat, rf: nat)
    requires rf <= n
    ensures Sum(seq(n, i requires 0 <= i => if i < rf then 1 else 0)) == rf
  {
    if n > 0 {
      var s := seq(n, i requires 0 <= i => if i < rf then 1 else 0);
      SumOfOnes(n - 1, if rf < n then rf else rf - 1);
      assert s[..n - 1] == seq(n - 1, i requires 0 <= i => if i < (if rf < n then rf else rf - 1) then 1 else 0);
    }
  }

  /** rf + 1 partitions in a row are led by the same rf nodes, so one of these leads two, beside an
      alive node that leads none. */
  lemma LeadersPileUp(ids: seq<NodeId>, rf: nat)
    requires Enough(ids, rf) && rf < |ids|
    ensures !Within(PlanFor(Skewed(ids, rf), map[], ids, rf, rf + 1).leaders, ids, 1)
  {
    hide Sum, PlanFor, Skewed;
    Piling(ids, rf, rf + 1);
    TotalsGrow(Skewed(ids, rf), map[], ids, rf, rf + 1);
    NothingCounted(ids);
    var leaders := PlanFor(Skewed(ids, rf), map[], ids, rf, rf + 1).leaders;
    if Within(leaders, ids, 1) {
      var counts, ones := Counts(leaders, ids), seq(|ids|, i requires 0 <= i => if i < rf then 1 else 0);
      forall i | 0 <= i < |ids| ensures counts[i] <= ones[i] {
        assert ids[rf..][0] in ids[rf..] && ids[rf] in ids && ids[i] in ids;
        assert rf <= i ==> ids[rf..][i - rf] in ids[rf..];
        assert Count(leaders, ids[i]) <= Count(leaders, ids[rf]) + 1;
      }
      SumAtMost(counts, ones);
      SumOfOnes(|ids|, rf);
      assert false;
    }
  }

  lemma NothingCounted(ids: seq<NodeId>)
    ensures Sum(Counts(map[], ids)) == 0
  {
    SumBelow(Counts(map[], ids), 0);
  }
}
