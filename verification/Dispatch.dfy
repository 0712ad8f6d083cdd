/** Multimethod resolution (src/dispatch.rs:601-807): scoring the variants of
    one class, then the depth-first walk own -> mixins -> parent with a visited
    list.  Guards answer through an oracle here; guards that run code are in
    `DispatchVm`. */
module Dispatch {
  import opened Wrappers
  import opened ClassGraph

  /** What running a variant's guard gives. */
  datatype Verdict = Passes | Refuses | Throws

  type Guards = MethodId -> Verdict

  const I64_MAX: int := 0x7FFF_FFFF_FFFF_FFFF

  /** Lower is more specific; a passed guard (rank 0) beats none (rank 1). */
  datatype Rank = Rank(score: int, guard: nat)

  predicate Below(a: Rank, b: Rank) {
    a.score < b.score || (a.score == b.score && a.guard < b.guard)
  }

  datatype Fit = Inapplicable | Applies(rank: Rank) | Raised

  function FitOf(score: Option<int>, guard: nat): Fit {
    if score.None? then Inapplicable else Applies(Rank(score.value, guard))
  }

  function MatchScore(h: Heap, m: MethodId, views: seq<View>, g: Guards): Fit {
    match BodyOf(h, m)
    case TypedNative(params) => FitOf(Score(h, params, [], views), 1)
    case UntypedNative => Applies(Rank(I64_MAX, 1))
    case Block(params, tags, guarded) =>
      var score := Score(h, params, tags, views);
      if !guarded || score.None? then FitOf(score, 1)
      else
        match g(m)
        case Throws => Raised
        case Refuses => Inapplicable
        case Passes => FitOf(score, 0)
  }

  /** Scoring this variant makes the lookup uncacheable: it requires an element
      tag, or its guard runs. */
  predicate Taints(h: Heap, m: MethodId, views: seq<View>) {
    match BodyOf(h, m)
    case Block(params, tags, guarded) => Tagged(tags) || (guarded && Score(h, params, tags, views).Some?)
    case _ => false
  }

  datatype Entry = Entry(m: MethodId, rank: Rank)

  /** The applicable variants in chain order, or a raised guard. */
  datatype Tally = Tally(applicable: seq<Entry>, raised: bool, tainted: bool)

  function TallyUp(h: Heap, ms: seq<MethodId>, acc: seq<Entry>, tainted: bool, views: seq<View>, g: Guards): Tally
    decreases |ms|
  {
    if ms == [] then Tally(acc, false, tainted)
    else
      var tainted' := tainted || Taints(h, ms[0], views);
      match MatchScore(h, ms[0], views, g)
      case Raised => Tally(acc, true, tainted')
      case Inapplicable => TallyUp(h, ms[1..], acc, tainted', views, g)
      case Applies(rank) => TallyUp(h, ms[1..], acc + [Entry(ms[0], rank)], tainted', views, g)
  }

  datatype Outcome = NotFound | Found(m: MethodId) | Ambiguous | GuardRaised

  function MinRank(es: seq<Entry>): Rank
    requires es != []
    decreases |es|
  {
    if |es| == 1 then es[0].rank
    else
      var rest := MinRank(es[..|es| - 1]);
      if Below(es[|es| - 1].rank, rest) then es[|es| - 1].rank else rest
  }

  /** The positions of the entries with rank `r`, in order. */
  function AtRank(es: seq<Entry>, r: Rank): (at: seq<nat>)
    ensures forall k :: 0 <= k < |at| ==> at[k] < |es| && es[at[k]].rank == r
    ensures forall j, k :: 0 <= j < k < |at| ==> at[j] < at[k]
    ensures forall i :: 0 <= i < |es| && es[i].rank == r ==> i in at
    decreases |es|
  {
    if es == [] then []
    else
      var n := |es| - 1;
      var init := AtRank(es[..n], r);
      assert forall i :: 0 <= i < n ==> es[..n][i] == es[i];
      if es[n].rank == r then init + [n] else init
  }

  function Select(es: seq<Entry>): Outcome {
    if es == [] then NotFound
    else
      var min := MinRank(es);
      var atMin := AtRank(es, min);
      if |atMin| >= 2 && min.score != I64_MAX then Ambiguous
      else if atMin == [] then NotFound
      else Found(es[atMin[0]].m)
  }

  datatype WalkOut = WalkOut(outcome: Outcome, tainted: bool)

  /** Resolution among one class's own variants. */
  function Local(h: Heap, c: Addr, sel: Selector, side: bool, views: seq<View>, g: Guards): WalkOut {
    var t := TallyUp(h, Candidates(h, c, sel, side), [], false, views, g);
    WalkOut(if t.raised then GuardRaised else Select(t.applicable), t.tainted)
  }

  ghost function Unvisited(h: Heap, visited: seq<Addr>): set<Addr> {
    set c | c in h.classes && c !in visited
  }

  /** The recursive walk of the source; it threads the visited list. */
  function Walk(h: Heap, c: Addr, sel: Selector, side: bool, views: seq<View>, g: Guards, visited: seq<Addr>)
    : (r: (WalkOut, seq<Addr>))
    ensures visited <= r.1
    decreases Unvisited(h, visited), 0
  {
    if c in visited then (WalkOut(NotFound, false), visited)
    else
      var own := Local(h, c, sel, side, views, g);
      if !own.outcome.NotFound? then (own, visited + [c])
      else if c !in h.classes then (own, visited + [c])
      else
        assert c in Unvisited(h, visited) && c !in Unvisited(h, visited + [c]);
        var (rest, visited') := WalkEdges(h, Edges(h, c), sel, side, views, g, visited + [c]);
        (rest.(tainted := own.tainted || rest.tainted), visited')
  }

  function WalkEdges(h: Heap, cs: seq<Addr>, sel: Selector, side: bool, views: seq<View>, g: Guards, visited: seq<Addr>)
    : (r: (WalkOut, seq<Addr>))
    ensures visited <= r.1
    decreases Unvisited(h, visited), 1 + |cs|
  {
    if cs == [] then (WalkOut(NotFound, false), visited)
    else
      var (first, visited1) := Walk(h, cs[0], sel, side, views, g, visited);
      if !first.outcome.NotFound? then (first, visited1)
      else
        assert Unvisited(h, visited1) <= Unvisited(h, visited);
        var (rest, visited2) := WalkEdges(h, cs[1..], sel, side, views, g, visited1);
        (rest.(tainted := first.tainted || rest.tainted), visited2)
  }

  // ---- Selection specification ---------------------------------------------------

  predicate Lowest(es: seq<Entry>, k: nat)
    requires k < |es|
  {
    forall j :: 0 <= j < |es| ==> !Below(es[j].rank, es[k].rank)
  }

  lemma {:induction false} MinRankIsLowest(es: seq<Entry>)
    requires es != []
    ensures exists k :: 0 <= k < |es| && es[k].rank == MinRank(es)
    ensures forall j :: 0 <= j < |es| ==> !Below(es[j].rank, MinRank(es))
    decreases |es|
  {
    if |es| == 1 {
      assert es[0].rank == MinRank(es);
    } else {
      var init := es[..|es| - 1];
      MinRankIsLowest(init);
      var k :| 0 <= k < |init| && init[k].rank == MinRank(init);
      assert es[k].rank == MinRank(init);
      assert es[k].rank == MinRank(es) || es[|es| - 1].rank == MinRank(es);
      forall j | 0 <= j < |es| ensures !Below(es[j].rank, MinRank(es)) {
        if j < |init| {
          assert init[j] == es[j];
        }
      }
    }
  }

  /** The chosen variant has the lowest rank and is the first that has it; it is
      the only one unless it is a signatureless native; ambiguity is exactly two
      variants at a lowest rank that is not the fallback score. */
  lemma SelectSpec(es: seq<Entry>)
    ensures Select(es) == NotFound <==> es == []
    ensures Select(es).Ambiguous? <==>
              exists j, k :: 0 <= j < k < |es| && es[j].rank == es[k].rank && Lowest(es, j) && es[j].rank.score != I64_MAX
    ensures Select(es).Found? ==>
              exists k :: 0 <= k < |es| && es[k].m == Select(es).m && Lowest(es, k)
                          && (forall j :: 0 <= j < k ==> !Lowest(es, j))
                          && (es[k].rank.score != I64_MAX ==> forall j :: 0 <= j < |es| && Lowest(es, j) ==> j == k)
    ensures !Select(es).GuardRaised?
  {
    if es != [] {
      var min := MinRank(es);
      var at := AtRank(es, min);
      MinRankIsLowest(es);
      forall j | 0 <= j < |es| ensures Lowest(es, j) <==> j in at {
        var k :| 0 <= k < |es| && es[k].rank == min;
        if es[j].rank != min {
          assert Below(min, es[j].rank);
        }
      }
      assert |at| > 0;
      assert Lowest(es, at[0]);
      if |at| >= 2 {
        assert at[0] < at[1] && Lowest(es, at[1]);
      }
    }
  }

  // ---- The walk answers from the first class in depth-first order ----------------

  /** Depth-first preorder with a visited list: the order of the walk, without
      any selector. */
  function Order(h: Heap, c: Addr, visited: seq<Addr>): (r: seq<Addr>)
    ensures visited <= r
    decreases Unvisited(h, visited), 0
  {
    if c in visited then visited
    else if c !in h.classes then visited + [c]
    else
      assert c in Unvisited(h, visited) && c !in Unvisited(h, visited + [c]);
      OrderEdges(h, Edges(h, c), visited + [c])
  }

  function OrderEdges(h: Heap, cs: seq<Addr>, visited: seq<Addr>): (r: seq<Addr>)
    ensures visited <= r
    decreases Unvisited(h, visited), 1 + |cs|
  {
    if cs == [] then visited
    else
      assert Unvisited(h, Order(h, cs[0], visited)) <= Unvisited(h, visited);
      OrderEdges(h, cs[1..], Order(h, cs[0], visited))
  }

  /** The answer of the first class in `order` that has one. */
  function FirstAnswer(h: Heap, order: seq<Addr>, sel: Selector, side: bool, views: seq<View>, g: Guards): WalkOut {
    if order == [] then WalkOut(NotFound, false)
    else
      var own := Local(h, order[0], sel, side, views, g);
      if !own.outcome.NotFound? then own
      else
        var rest := FirstAnswer(h, order[1..], sel, side, views, g);
        rest.(tainted := own.tainted || rest.tainted)
  }

  lemma {:induction false} FirstAnswerAppend(h: Heap, a: seq<Addr>, b: seq<Addr>, sel: Selector, side: bool, views: seq<View>, g: Guards)
    ensures var fa := FirstAnswer(h, a, sel, side, views, g);
            var fb := FirstAnswer(h, b, sel, side, views, g);
            FirstAnswer(h, a + b, sel, side, views, g) ==
            if !fa.outcome.NotFound? then fa else fb.(tainted := fa.tainted || fb.tainted)
    decreases |a|
  {
    if a == [] {
      assert a + b == b;
    } else {
      assert (a + b)[1..] == a[1..] + b;
      FirstAnswerAppend(h, a[1..], b, sel, side, views, g);
    }
  }

  lemma {:induction false} WalkIsFirstAnswer(h: Heap, c: Addr, sel: Selector, side: bool, views: seq<View>, g: Guards, visited: seq<Addr>)
    ensures var w := Walk(h, c, sel, side, views, g, visited);
            && w.0 == FirstAnswer(h, Order(h, c, visited)[|visited|..], sel, side, views, g)
            && w.1 <= Order(h, c, visited)
            && (w.0.outcome.NotFound? ==> w.1 == Order(h, c, visited))
    decreases Unvisited(h, visited), 0
  {
    var order := Order(h, c, visited);
    if c !in visited {
      assert order[|visited|] == c;
      if c !in h.classes {
        assert order[|visited|..] == [c];
      } else {
        assert c in Unvisited(h, visited) && c !in Unvisited(h, visited + [c]);
        EdgesFirstAnswer(h, Edges(h, c), sel, side, views, g, visited + [c]);
        assert order[|visited|..] == [c] + order[|visited| + 1..];
        assert order[|visited|..][1..] == order[|visited + [c]|..];
      }
    } else {
      assert order[|visited|..] == [];
    }
  }

  lemma {:induction false} EdgesFirstAnswer(h: Heap, cs: seq<Addr>, sel: Selector, side: bool, views: seq<View>, g: Guards, visited: seq<Addr>)
    ensures var w := WalkEdges(h, cs, sel, side, views, g, visited);
            && w.0 == FirstAnswer(h, OrderEdges(h, cs, visited)[|visited|..], sel, side, views, g)
            && w.1 <= OrderEdges(h, cs, visited)
            && (w.0.outcome.NotFound? ==> w.1 == OrderEdges(h, cs, visited))
    decreases Unvisited(h, visited), 1 + |cs|
  {
    var order := OrderEdges(h, cs, visited);
    if cs == [] {
      assert order[|visited|..] == [];
    } else {
      var mid := Order(h, cs[0], visited);
      WalkIsFirstAnswer(h, cs[0], sel, side, views, g, visited);
      assert Unvisited(h, mid) <= Unvisited(h, visited);
      EdgesFirstAnswer(h, cs[1..], sel, side, views, g, mid);
      SplitAnswer(h, visited, mid, order, sel, side, views, g);
    }
  }

  lemma SplitAnswer(h: Heap, a: seq<Addr>, b: seq<Addr>, c: seq<Addr>, sel: Selector, side: bool, views: seq<View>, g: Guards)
    requires a <= b <= c
    ensures var fa := FirstAnswer(h, b[|a|..], sel, side, views, g);
            var fb := FirstAnswer(h, c[|b|..], sel, side, views, g);
            FirstAnswer(h, c[|a|..], sel, side, views, g) ==
            if !fa.outcome.NotFound? then fa else fb.(tainted := fa.tainted || fb.tainted)
  {
    assert c[|a|..] == b[|a|..] + c[|b|..];
    FirstAnswerAppend(h, b[|a|..], c[|b|..], sel, side, views, g);
  }

  /** The order lists no class twice, diamonds and cycles included. */
  lemma {:induction false} OrderDistinct(h: Heap, c: Addr, visited: seq<Addr>)
    requires Distinct(visited)
    ensures Distinct(Order(h, c, visited))
    decreases Unvisited(h, visited), 0
  {
    if c !in visited && c in h.classes {
      assert c in Unvisited(h, visited) && c !in Unvisited(h, visited + [c]);
      OrderEdgesDistinct(h, Edges(h, c), visited + [c]);
    }
  }

  lemma {:induction false} OrderEdgesDistinct(h: Heap, cs: seq<Addr>, visited: seq<Addr>)
    requires Distinct(visited)
    ensures Distinct(OrderEdges(h, cs, visited))
    decreases Unvisited(h, visited), 1 + |cs|
  {
    if cs != [] {
      OrderDistinct(h, cs[0], visited);
      assert Unvisited(h, Order(h, cs[0], visited)) <= Unvisited(h, visited);
      OrderEdgesDistinct(h, cs[1..], Order(h, cs[0], visited));
    }
  }

  ghost predicate EdgesIn(h: Heap, a: Addr, order: seq<Addr>) {
    forall e <- Edges(h, a) :: e in order
  }

  /** Everything the search adds to the visited list has all its edges there. */
  lemma {:induction false} OrderClosed(h: Heap, c: Addr, visited: seq<Addr>)
    ensures c in Order(h, c, visited)
    ensures forall a <- Order(h, c, visited) :: a in visited || EdgesIn(h, a, Order(h, c, visited))
    decreases Unvisited(h, visited), 0
  {
    if c !in visited && c in h.classes {
      assert c in Unvisited(h, visited) && c !in Unvisited(h, visited + [c]);
      OrderEdgesClosed(h, Edges(h, c), visited + [c]);
    }
  }

  lemma {:induction false} OrderEdgesClosed(h: Heap, cs: seq<Addr>, visited: seq<Addr>)
    ensures forall e <- cs :: e in OrderEdges(h, cs, visited)
    ensures forall a <- OrderEdges(h, cs, visited) :: a in visited || EdgesIn(h, a, OrderEdges(h, cs, visited))
    decreases Unvisited(h, visited), 1 + |cs|
  {
    if cs != [] {
      var mid := Order(h, cs[0], visited);
      OrderClosed(h, cs[0], visited);
      assert Unvisited(h, mid) <= Unvisited(h, visited);
      OrderEdgesClosed(h, cs[1..], mid);
      forall a <- OrderEdges(h, cs, visited) ensures a in visited || EdgesIn(h, a, OrderEdges(h, cs, visited)) {
        if a in mid && a !in visited {
          assert EdgesIn(h, a, mid);
        }
      }
    }
  }

  lemma {:induction false} FirstAnswerSpec(h: Heap, order: seq<Addr>, sel: Selector, side: bool, views: seq<View>, g: Guards)
    ensures var w := FirstAnswer(h, order, sel, side, views, g);
            && (w.outcome.NotFound? <==> forall i :: 0 <= i < |order| ==> Local(h, order[i], sel, side, views, g).outcome.NotFound?)
            && (!w.outcome.NotFound? ==>
                  exists i :: 0 <= i < |order| && Local(h, order[i], sel, side, views, g).outcome == w.outcome
                              && forall j :: 0 <= j < i ==> Local(h, order[j], sel, side, views, g).outcome.NotFound?)
    decreases |order|
  {
    if order != [] {
      var w := FirstAnswer(h, order, sel, side, views, g);
      var rest := order[1..];
      FirstAnswerSpec(h, rest, sel, side, views, g);
      if Local(h, order[0], sel, side, views, g).outcome.NotFound? {
        assert forall i :: 1 <= i < |order| ==> order[i] == rest[i - 1];
        if !w.outcome.NotFound? {
          var i :| 0 <= i < |rest| && Local(h, rest[i], sel, side, views, g).outcome == w.outcome
                   && forall j :: 0 <= j < i ==> Local(h, rest[j], sel, side, views, g).outcome.NotFound?;
          assert order[i + 1] == rest[i];
        }
      }
    }
  }

  // ---- What one class answers, in terms of its variants ----------------------------------

  ghost predicate AppliesAt(h: Heap, cands: seq<MethodId>, views: seq<View>, g: Guards, i: nat, r: Rank) {
    i < |cands| && MatchScore(h, cands[i], views, g) == Applies(r)
  }

  /** Variant `i` applies with rank `r`, and no applicable variant ranks below it. */
  ghost predicate BestAt(h: Heap, cands: seq<MethodId>, views: seq<View>, g: Guards, i: nat, r: Rank) {
    AppliesAt(h, cands, views, g, i, r) &&
    forall j: nat, q: Rank :: AppliesAt(h, cands, views, g, j, q) ==> !Below(q, r)
  }

  ghost predicate SomeThrows(h: Heap, cands: seq<MethodId>, views: seq<View>, g: Guards) {
    exists i :: 0 <= i < |cands| && MatchScore(h, cands[i], views, g).Raised?
  }

  /** Two variants share the lowest rank, and it is not the fallback score. */
  ghost predicate BestShared(h: Heap, cands: seq<MethodId>, views: seq<View>, g: Guards) {
    exists i: nat, j: nat, r: Rank ::
      i < j && BestAt(h, cands, views, g, i, r) && BestAt(h, cands, views, g, j, r) && r.score != I64_MAX
  }

  /** Variant `k` is the first of the lowest rank. */
  ghost predicate FirstBest(h: Heap, cands: seq<MethodId>, views: seq<View>, g: Guards, k: nat) {
    && (exists r: Rank :: BestAt(h, cands, views, g, k, r))
    && forall j: nat, r: Rank :: BestAt(h, cands, views, g, j, r) ==> k <= j
  }

  /** The answer of one class, read off its variants: an error exactly if a guard
      throws; else nothing exactly when no variant applies; ambiguous exactly when
      the lowest rank is shared; else the first variant of the lowest rank. */
  ghost predicate AnswersOf(h: Heap, cands: seq<MethodId>, views: seq<View>, g: Guards, out: Outcome) {
    && (out.GuardRaised? <==> SomeThrows(h, cands, views, g))
    && (out.NotFound? <==> forall i :: 0 <= i < |cands| ==> MatchScore(h, cands[i], views, g).Inapplicable?)
    && (out.Ambiguous? <==> !SomeThrows(h, cands, views, g) && BestShared(h, cands, views, g))
    && (out.Found? ==> exists k: nat :: FirstBest(h, cands, views, g, k) && k < |cands| && cands[k] == out.m)
  }

  /** `at` lists the applicable variants among the first `n`, and `es` are their entries. */
  ghost predicate Tallied(h: Heap, cands: seq<MethodId>, views: seq<View>, g: Guards, n: nat, at: seq<nat>, es: seq<Entry>) {
    && n <= |cands| && |at| == |es|
    && (forall i :: 0 <= i < n ==> !MatchScore(h, cands[i], views, g).Raised?)
    && (forall p, q :: 0 <= p < q < |at| ==> at[p] < at[q])
    && (forall p :: 0 <= p < |at| ==> at[p] < n && es[p].m == cands[at[p]] && MatchScore(h, cands[at[p]], views, g) == Applies(es[p].rank))
    && (forall i :: 0 <= i < n && MatchScore(h, cands[i], views, g).Applies? ==> i in at)
  }

  lemma TallyGrows(h: Heap, cands: seq<MethodId>, views: seq<View>, g: Guards, n: nat, at: seq<nat>, es: seq<Entry>) returns (at': seq<nat>, es': seq<Entry>)
    requires Tallied(h, cands, views, g, n, at, es) && n < |cands| && !MatchScore(h, cands[n], views, g).Raised?
    ensures Tallied(h, cands, views, g, n + 1, at', es')
    ensures var fit := MatchScore(h, cands[n], views, g);
            es' == if fit.Applies? then es + [Entry(cands[n], fit.rank)] else es
  {
    var fit := MatchScore(h, cands[n], views, g);
    if fit.Applies? {
      at', es' := at + [n], es + [Entry(cands[n], fit.rank)];
      forall i | 0 <= i < n + 1 && MatchScore(h, cands[i], views, g).Applies? ensures i in at' {
        assert i < n ==> i in at;
        assert at'[|at|] == n;
      }
    } else {
      at', es' := at, es;
    }
  }

  lemma {:induction false} TallySpec(h: Heap, cands: seq<MethodId>, views: seq<View>, g: Guards, n: nat, at: seq<nat>, es: seq<Entry>, tainted: bool)
    returns (at': seq<nat>)
    requires Tallied(h, cands, views, g, n, at, es)
    ensures var t := TallyUp(h, cands[n..], es, tainted, views, g);
            && (t.raised ==> SomeThrows(h, cands, views, g))
            && (!t.raised ==> Tallied(h, cands, views, g, |cands|, at', t.applicable))
    decreases |cands| - n
  {
    hide Tallied, Taints, MatchScore;
    at' := at;
    if n < |cands| {
      assert cands[n..][0] == cands[n] && cands[n..][1..] == cands[n + 1..];
      if !MatchScore(h, cands[n], views, g).Raised? {
        var at1, es1 := TallyGrows(h, cands, views, g, n, at, es);
        at' := TallySpec(h, cands, views, g, n + 1, at1, es1, tainted || Taints(h, cands[n], views));
      }
    } else {
      TalliedBound(h, cands, views, g, n, at, es);
    }
  }

  lemma TalliedBound(h: Heap, cands: seq<MethodId>, views: seq<View>, g: Guards, n: nat, at: seq<nat>, es: seq<Entry>)
    requires Tallied(h, cands, views, g, n, at, es)
    ensures n <= |cands|
  {
  }

  lemma LowestIsBest(h: Heap, cands: seq<MethodId>, views: seq<View>, g: Guards, at: seq<nat>, es: seq<Entry>, p: nat)
    requires Tallied(h, cands, views, g, |cands|, at, es) && p < |es| && Lowest(es, p)
    ensures BestAt(h, cands, views, g, at[p], es[p].rank)
  {
    hide MatchScore;
    forall j: nat, q: Rank | AppliesAt(h, cands, views, g, j, q) ensures !Below(q, es[p].rank) {
      var k :| 0 <= k < |at| && at[k] == j;
    }
  }

  lemma BestIsLowest(h: Heap, cands: seq<MethodId>, views: seq<View>, g: Guards, at: seq<nat>, es: seq<Entry>, i: nat, r: Rank) returns (p: nat)
    requires Tallied(h, cands, views, g, |cands|, at, es) && BestAt(h, cands, views, g, i, r)
    ensures p < |es| && p < |at| && at[p] == i && es[p].rank == r && Lowest(es, p)
  {
    hide MatchScore;
    p :| 0 <= p < |at| && at[p] == i;
    forall j | 0 <= j < |es| ensures !Below(es[j].rank, es[p].rank) {
      assert AppliesAt(h, cands, views, g, at[j], es[j].rank);
    }
  }

  lemma AtIncreases(h: Heap, cands: seq<MethodId>, views: seq<View>, g: Guards, at: seq<nat>, es: seq<Entry>, p: nat, q: nat)
    requires Tallied(h, cands, views, g, |cands|, at, es) && p < |es| && q < |es|
    ensures |at| == |es| && (at[p] < at[q] <==> p < q) && at[p] < |cands| && cands[at[p]] == es[p].m
  {
  }

  lemma AmbiguousIff(h: Heap, cands: seq<MethodId>, views: seq<View>, g: Guards, at: seq<nat>, es: seq<Entry>)
    requires Tallied(h, cands, views, g, |cands|, at, es)
    ensures Select(es).Ambiguous? <==> BestShared(h, cands, views, g)
  {
    hide MatchScore, Select, BestAt, Lowest, Tallied;
    SelectSpec(es);
    if Select(es).Ambiguous? {
      var p, q :| 0 <= p < q < |es| && es[p].rank == es[q].rank && Lowest(es, p) && es[p].rank.score != I64_MAX;
      LowestShared(es, p, q);
      LowestIsBest(h, cands, views, g, at, es, p);
      LowestIsBest(h, cands, views, g, at, es, q);
      AtIncreases(h, cands, views, g, at, es, p, q);
    }
    if BestShared(h, cands, views, g) {
      var i: nat, j: nat, r: Rank :|
        i < j && BestAt(h, cands, views, g, i, r) && BestAt(h, cands, views, g, j, r) && r.score != I64_MAX;
      var p := BestIsLowest(h, cands, views, g, at, es, i, r);
      var q := BestIsLowest(h, cands, views, g, at, es, j, r);
      AtIncreases(h, cands, views, g, at, es, p, q);
    }
  }

  lemma FoundIsFirst(h: Heap, cands: seq<MethodId>, views: seq<View>, g: Guards, at: seq<nat>, es: seq<Entry>)
    requires Tallied(h, cands, views, g, |cands|, at, es) && Select(es).Found?
    ensures exists k: nat :: FirstBest(h, cands, views, g, k) && k < |cands| && cands[k] == Select(es).m
  {
    hide MatchScore, Select, BestAt, Lowest, Tallied;
    SelectSpec(es);
    var p :| 0 <= p < |es| && es[p].m == Select(es).m && Lowest(es, p) && (forall j :: 0 <= j < p ==> !Lowest(es, j));
    LowestIsBest(h, cands, views, g, at, es, p);
    AtIncreases(h, cands, views, g, at, es, p, p);
    forall j: nat, r: Rank | BestAt(h, cands, views, g, j, r) ensures at[p] <= j {
      var q := BestIsLowest(h, cands, views, g, at, es, j, r);
      AtIncreases(h, cands, views, g, at, es, q, p);
    }
    assert FirstBest(h, cands, views, g, at[p]);
  }

  lemma SelectedAnswers(h: Heap, cands: seq<MethodId>, views: seq<View>, g: Guards, at: seq<nat>, es: seq<Entry>)
    requires Tallied(h, cands, views, g, |cands|, at, es)
    ensures AnswersOf(h, cands, views, g, Select(es))
  {
    hide MatchScore, Select, FirstBest, BestShared;
    SelectSpec(es);
    AmbiguousIff(h, cands, views, g, at, es);
    if Select(es).Found? {
      FoundIsFirst(h, cands, views, g, at, es);
    }
  }

  lemma LowestShared(es: seq<Entry>, p: nat, q: nat)
    requires p < |es| && q < |es| && es[p].rank == es[q].rank && Lowest(es, p)
    ensures Lowest(es, q)
  {
  }

  /** One class answers as its variants' scores and guards say. */
  lemma LocalSpec(h: Heap, c: Addr, sel: Selector, side: bool, views: seq<View>, g: Guards)
    ensures AnswersOf(h, Candidates(h, c, sel, side), views, g, Local(h, c, sel, side, views, g).outcome)
  {
    hide MatchScore, AnswersOf, TallyUp, Select;
    var cands := Candidates(h, c, sel, side);
    assert cands[0..] == cands;
    var at := TallySpec(h, cands, views, g, 0, [], [], false);
    var t := TallyUp(h, cands, [], false, views, g);
    if t.raised {
      RaisedAnswers(h, cands, views, g);
    } else {
      SelectedAnswers(h, cands, views, g, at, t.applicable);
    }
  }

  lemma RaisedAnswers(h: Heap, cands: seq<MethodId>, views: seq<View>, g: Guards)
    requires SomeThrows(h, cands, views, g)
    ensures AnswersOf(h, cands, views, g, GuardRaised)
  {
  }

  /** `b` is `n` edges from `a`. */
  ghost predicate Steps(h: Heap, a: Addr, b: Addr, n: nat)
    decreases n
  {
    if n == 0 then a == b else exists e <- Edges(h, a) :: Steps(h, e, b, n - 1)
  }

  ghost predicate Reaches(h: Heap, a: Addr, b: Addr) {
    exists n: nat :: Steps(h, a, b, n)
  }

  lemma ReachesThrough(h: Heap, a: Addr, e: Addr, b: Addr)
    requires e in Edges(h, a) && Reaches(h, e, b)
    ensures Reaches(h, a, b)
  {
    var n: nat :| Steps(h, e, b, n);
    assert Steps(h, a, b, n + 1);
  }

  /** Everything the search adds to the visited list is reachable. */
  lemma {:induction false} OrderReached(h: Heap, c: Addr, visited: seq<Addr>)
    ensures forall a <- Order(h, c, visited) :: a in visited || Reaches(h, c, a)
    decreases Unvisited(h, visited), 0
  {
    assert Steps(h, c, c, 0);
    if c !in visited && c in h.classes {
      assert c in Unvisited(h, visited) && c !in Unvisited(h, visited + [c]);
      OrderEdgesReached(h, c, Edges(h, c), visited + [c]);
    }
  }

  lemma {:induction false} OrderEdgesReached(h: Heap, c: Addr, cs: seq<Addr>, visited: seq<Addr>)
    requires forall e <- cs :: e in Edges(h, c)
    ensures forall a <- OrderEdges(h, cs, visited) :: a in visited || Reaches(h, c, a)
    decreases Unvisited(h, visited), 1 + |cs|
  {
    hide Reaches;
    if cs != [] {
      var mid := Order(h, cs[0], visited);
      OrderReached(h, cs[0], visited);
      assert Unvisited(h, mid) <= Unvisited(h, visited);
      OrderEdgesReached(h, c, cs[1..], mid);
      forall a <- OrderEdges(h, cs, visited) ensures a in visited || Reaches(h, c, a) {
        if a in mid && a !in visited {
          ReachesThrough(h, c, cs[0], a);
        }
      }
    }
  }

  /** `out` is the answer of class `order[i]`, and the classes before it have none. */
  ghost predicate AnsweredAt(h: Heap, order: seq<Addr>, i: nat, sel: Selector, side: bool, views: seq<View>, g: Guards, out: Outcome) {
    && i < |order| && AnswersOf(h, Candidates(h, order[i], sel, side), views, g, out)
    && forall j :: 0 <= j < i ==> AnswersOf(h, Candidates(h, order[j], sel, side), views, g, NotFound)
  }

  /** The resolution specification.  The search order starts with `c` and lists
      exactly the classes reachable from it, each once.  The walk finds nothing
      exactly when no variant of any of them applies, and otherwise answers as the
      variants of the first class do that has an answer.  It ends on every graph,
      cyclic ones included. */
  lemma ResolutionSpec(h: Heap, c: Addr, sel: Selector, side: bool, views: seq<View>, g: Guards)
    ensures var out, order := Walk(h, c, sel, side, views, g, []).0.outcome, Order(h, c, []);
            && Distinct(order) && |order| > 0 && order[0] == c
            && (forall a <- order :: Reaches(h, c, a) && EdgesIn(h, a, order))
            && (out.NotFound? <==> forall a <- order :: AnswersOf(h, Candidates(h, a, sel, side), views, g, NotFound))
            && (!out.NotFound? ==> exists i: nat :: AnsweredAt(h, order, i, sel, side, views, g, out))
  {
    hide AnswersOf, AnsweredAt, Reaches, EdgesIn, Distinct, Walk, FirstAnswer, Order;
    var order := Order(h, c, []);
    OrderStarts(h, c);
    OrderDistinct(h, c, []);
    OrderClosed(h, c, []);
    OrderReached(h, c, []);
    WalkIsFirstAnswer(h, c, sel, side, views, g, []);
    assert order[0..] == order;
    FirstAnswerOf(h, order, sel, side, views, g);
  }

  lemma FirstAnswerOf(h: Heap, order: seq<Addr>, sel: Selector, side: bool, views: seq<View>, g: Guards)
    ensures var out := FirstAnswer(h, order, sel, side, views, g).outcome;
            && (out.NotFound? <==> forall a <- order :: AnswersOf(h, Candidates(h, a, sel, side), views, g, NotFound))
            && (!out.NotFound? ==> exists i: nat :: AnsweredAt(h, order, i, sel, side, views, g, out))
  {
    hide AnswersOf, Local, FirstAnswer, Candidates;
    FirstAnswerSpec(h, order, sel, side, views, g);
    forall a <- order ensures AnswersOf(h, Candidates(h, a, sel, side), views, g, Local(h, a, sel, side, views, g).outcome) {
      LocalSpec(h, a, sel, side, views, g);
    }
    NothingIsUnique(h, sel, side, views, g);
    var out := FirstAnswer(h, order, sel, side, views, g).outcome;
    if !out.NotFound? {
      var i: nat :| i < |order| && Local(h, order[i], sel, side, views, g).outcome == out
                    && forall j :: 0 <= j < i ==> Local(h, order[j], sel, side, views, g).outcome.NotFound?;
      assert AnsweredAt(h, order, i, sel, side, views, g, out);
    }
  }

  lemma OrderStarts(h: Heap, c: Addr)
    ensures |Order(h, c, [])| > 0 && Order(h, c, [])[0] == c
  {
    assert [] + [c] == [c];
  }

  /** No other answer goes with having nothing applicable. */
  lemma NothingIsUnique(h: Heap, sel: Selector, side: bool, views: seq<View>, g: Guards)
    ensures forall a: Addr, out: Outcome ::
              AnswersOf(h, Candidates(h, a, sel, side), views, g, NotFound) && AnswersOf(h, Candidates(h, a, sel, side), views, g, out) ==> out.NotFound?
  {
    hide MatchScore;
  }

  /** An untainted walk never asks a guard, so it answers alike under every oracle. */
  lemma {:induction false} UntaintedTally(h: Heap, ms: seq<MethodId>, acc: seq<Entry>, views: seq<View>, g: Guards, g': Guards)
    requires !TallyUp(h, ms, acc, false, views, g).tainted
    ensures TallyUp(h, ms, acc, false, views, g') == TallyUp(h, ms, acc, false, views, g)
    decreases |ms|
  {
    if ms != [] {
      if Taints(h, ms[0], views) {
        TaintStays(h, ms[1..], acc, views, g);
        match MatchScore(h, ms[0], views, g)
        case Applies(rank) => TaintStays(h, ms[1..], acc + [Entry(ms[0], rank)], views, g);
        case _ =>
      } else {
        match MatchScore(h, ms[0], views, g)
        case Raised =>
        case Inapplicable => UntaintedTally(h, ms[1..], acc, views, g, g');
        case Applies(rank) => UntaintedTally(h, ms[1..], acc + [Entry(ms[0], rank)], views, g, g');
      }
    }
  }

  lemma {:induction false} TaintStays(h: Heap, ms: seq<MethodId>, acc: seq<Entry>, views: seq<View>, g: Guards)
    ensures TallyUp(h, ms, acc, true, views, g).tainted
    decreases |ms|
  {
    if ms != [] {
      match MatchScore(h, ms[0], views, g)
      case Applies(rank) => TaintStays(h, ms[1..], acc + [Entry(ms[0], rank)], views, g);
      case _ => TaintStays(h, ms[1..], acc, views, g);
    }
  }
}
