/** What resolution means, on the heap alone: which variants accept the arguments, what
    each costs, and which of them answers (src/dispatch.rs:601-807, 1048-1179). */
module DispatchMeaning {
  import opened Wrappers
  import opened ClassGraph
  import opened Dispatch
  import opened DispatchOrder

  // ---- How far a value is from a hint ----------------------------------------------------

  /** A hint that is a class-valued global means that class; any other means every class
      of that name. */
  ghost predicate Means(h: Heap, k: Addr, name: Name) {
    if name in h.globals then h.globals[name] == k else k in h.classes && h.classes[k].name == name
  }

  /** `a` is the `n`-th class up the parents of `c`. */
  ghost predicate Upward(h: Heap, c: Addr, a: Addr, n: nat)
    decreases n
  {
    c in h.classes && if n == 0 then a == c else h.classes[c].parent.Some? && Upward(h, h.classes[c].parent.value, a, n - 1)
  }

  /** `n` hops lead from `c` to the name: up the parents, or up them and into a mixin. */
  ghost predicate Hops(h: Heap, c: Addr, name: Name, n: nat) {
    || (exists a :: Upward(h, c, a, n) && Means(h, a, name))
    || (n > 0 && exists a, x :: Upward(h, c, a, n - 1) && a in h.classes && x in h.classes[a].mixins && Means(h, x, name))
  }

  ghost predicate HasTypeName(h: Heap, v: View, name: Name) {
    if v.kind == 0 then name == "Integer"
    else if v.kind == 1 then name == "Double"
    else if v.kind == 2 then name == "Boolean"
    else if v.kind == 3 then name == "Nil"
    else if v.kind == 5 then name == "Class"
    else if v.kind == 6 then name == "ClassMeta"
    else if v.clz.Some? && v.clz.value in h.classes then name == h.classes[v.clz.value].instanceType
    else name == "Object"
  }

  /** nil suits every nullable hint; a type name other than `Object` suits at once; else
      the fewest hops count; `Object` suits everything, as a last resort. */
  ghost predicate DistanceIs(h: Heap, v: View, hint: Hint, d: nat)
    decreases hint
  {
    match hint
    case Nullable(base) => if v.kind == 3 then d == 0 else DistanceIs(h, v, base, d)
    case Plain(name) =>
      if name != "Object" && HasTypeName(h, v, name) then d == 0
      else
        && v.clz.Some?
        && var c := v.clz.value;
           || (Hops(h, c, name, d) && forall n: nat :: n < d ==> !Hops(h, c, name, n))
           || (name == "Object" && d == 1000000 && forall n: nat :: !Hops(h, c, name, n))
  }

  /** How dispatch sees each kind of value: its type name and its class. */
  lemma ValuesSeen(h: Heap, n: int, x: real, b: bool, c: Addr)
    ensures HasTypeName(h, ViewOf(h, Int(n)), "Integer") && HasTypeName(h, ViewOf(h, Double(x)), "Double")
    ensures HasTypeName(h, ViewOf(h, Bool(b)), "Boolean") && HasTypeName(h, ViewOf(h, Nil), "Nil")
    ensures HasTypeName(h, ViewOf(h, ClassValue(c)), "Class") && HasTypeName(h, ViewOf(h, MetaValue(c)), "ClassMeta")
    ensures ViewOf(h, ClassValue(c)).clz == ViewOf(h, MetaValue(c)).clz == Some(c)
    ensures var clz := ViewOf(h, Bool(b)).clz;
            clz.Some? ==> (if b then TrueClass else FalseClass) in h.builtins && clz.value == h.builtins[if b then TrueClass else FalseClass]
    ensures IntegerClass in h.builtins ==> ViewOf(h, Int(n)) == ViewOf(h, Int(0)) && ViewOf(h, Int(n)).clz == Some(h.builtins[IntegerClass])
    ensures DoubleClass in h.builtins ==> ViewOf(h, Double(x)).clz == Some(h.builtins[DoubleClass])
    ensures NilClass in h.builtins ==> ViewOf(h, Nil).clz == Some(h.builtins[NilClass])
    ensures forall id :: id in h.objects ==>
              ViewOf(h, Object(id)).clz == Some(h.objects[id].clz) && ViewOf(h, Object(id)).tag == h.objects[id].tag
  {
  }

  predicate ChainsEnd(h: Heap, views: seq<View>) {
    forall i :: 0 <= i < |views| && views[i].clz.Some? && views[i].clz.value in h.classes ==> ChainEnds(h, views[i].clz.value, {})
  }

  lemma MeansMatches(h: Heap, k: Addr, name: Name)
    ensures Means(h, k, name) <==> Matches(h, k, name)
  {
  }

  lemma {:induction false} UpwardIsAncestor(h: Heap, c: Addr, a: Addr, n: nat)
    ensures Upward(h, c, a, n) <==> Ancestor(h, c, n) == Some(a)
    decreases n
  {
    if n > 0 && c in h.classes && h.classes[c].parent.Some? {
      UpwardIsAncestor(h, h.classes[c].parent.value, a, n - 1);
    }
  }

  lemma HopsAreReached(h: Heap, c: Addr, name: Name, n: nat)
    ensures Hops(h, c, name, n) <==> ReachesIn(h, c, name, n)
  {
    hide Means, Matches, Upward, Ancestor;
    forall a: Addr, k: nat ensures Upward(h, c, a, k) <==> Ancestor(h, c, k) == Some(a) {
      UpwardIsAncestor(h, c, a, k);
    }
    forall k: Addr ensures Means(h, k, name) <==> Matches(h, k, name) {
      MeansMatches(h, k, name);
    }
    if Ancestor(h, c, n).Some? {
      assert Upward(h, c, Ancestor(h, c, n).value, n);
    }
    if n > 0 && Ancestor(h, c, n - 1).Some? {
      var a := Ancestor(h, c, n - 1).value;
      assert Upward(h, c, a, n - 1);
      if AnyMatches(h, Mixins(h, a), name) {
        var i :| 0 <= i < |Mixins(h, a)| && Matches(h, Mixins(h, a)[i], name);
        assert Mixins(h, a)[i] in h.classes[a].mixins;
      }
      if x :| a in h.classes && x in h.classes[a].mixins && Means(h, x, name) {
        var i :| 0 <= i < |h.classes[a].mixins| && h.classes[a].mixins[i] == x;
        assert Matches(h, Mixins(h, a)[i], name);
      }
    }
  }

  lemma StrangerHopsNowhere(h: Heap, c: Addr, name: Name, n: nat)
    requires c !in h.classes
    ensures !Hops(h, c, name, n)
  {
  }

  lemma ChainIsLeast(h: Heap, c: Addr, name: Name)
    requires c in h.classes ==> ChainEnds(h, c, {})
    ensures var d := ChainDistance(h, c, name, 0, {});
            && (d.None? ==> forall n: nat :: !Hops(h, c, name, n))
            && (d.Some? ==> Hops(h, c, name, d.value) && forall n: nat :: n < d.value ==> !Hops(h, c, name, n))
  {
    hide Hops, ReachesIn;
    forall n: nat ensures Hops(h, c, name, n) <==> ReachesIn(h, c, name, n) {
      HopsAreReached(h, c, name, n);
    }
    if c in h.classes {
      DistanceIsLeast(h, c, name);
    } else {
      forall n: nat ensures !Hops(h, c, name, n) {
        StrangerHopsNowhere(h, c, name, n);
      }
    }
  }

  lemma TypeNameIs(h: Heap, v: View, name: Name)
    ensures HasTypeName(h, v, name) <==> TypeName(h, v) == name
  {
  }

  lemma {:induction false} DistanceIff(h: Heap, v: View, hint: Hint, d: nat)
    requires v.clz.Some? && v.clz.value in h.classes ==> ChainEnds(h, v.clz.value, {})
    ensures DistanceIs(h, v, hint, d) <==> TypeDistance(h, v, hint) == Some(d)
    decreases hint
  {
    hide Hops, ChainDistance, TypeName, HasTypeName;
    match hint
    case Nullable(base) => DistanceIff(h, v, base, d);
    case Plain(name) =>
      TypeNameIs(h, v, name);
      if v.clz.Some? {
        ChainIsLeast(h, v.clz.value, name);
        var least := ChainDistance(h, v.clz.value, name, 0, {});
        if least.Some? && Hops(h, v.clz.value, name, d) && (forall n: nat :: n < d ==> !Hops(h, v.clz.value, name, n)) {
          assert d == least.value;
        }
      }
  }

  // ---- Which variants accept, and at what cost ------------------------------------------------

  ghost predicate HasDistance(h: Heap, v: View, hint: Hint) {
    exists d: nat :: DistanceIs(h, v, hint, d)
  }

  /** Enough arguments, each some distance from its hint, and with its required tag. */
  ghost predicate Suits(h: Heap, params: seq<Hint>, tags: seq<Option<Tag>>, views: seq<View>) {
    && |params| <= |views|
    && (forall i :: 0 <= i < |params| ==> HasDistance(h, views[i], params[i]))
    && forall i :: 0 <= i < |params| && i < |tags| && tags[i].Some? ==> views[i].tag == tags[i]
  }

  function Total(costs: seq<int>): int {
    if costs == [] then 0 else costs[0] + Total(costs[1..])
  }

  /** Twice the distance, less one where a tag is required. */
  function Charge(d: nat, tags: seq<Option<Tag>>, i: nat): int {
    2 * d - if i < |tags| && tags[i].Some? then 1 else 0
  }

  ghost predicate ChargeIs(h: Heap, v: View, hint: Hint, tags: seq<Option<Tag>>, i: nat, cost: int) {
    exists d: nat :: DistanceIs(h, v, hint, d) && cost == Charge(d, tags, i)
  }

  ghost predicate CostsAre(h: Heap, params: seq<Hint>, tags: seq<Option<Tag>>, views: seq<View>, costs: seq<int>) {
    && |costs| == |params| <= |views|
    && forall i :: 0 <= i < |params| ==> ChargeIs(h, views[i], params[i], tags, i, costs[i])
  }

  ghost predicate SumIs(h: Heap, params: seq<Hint>, tags: seq<Option<Tag>>, views: seq<View>, cost: int) {
    exists costs :: CostsAre(h, params, tags, views, costs) && cost == Total(costs)
  }

  ghost predicate Accepts(h: Heap, m: MethodId, views: seq<View>, g: Guards) {
    m in h.methods ==>
      match h.methods[m]
      case UntypedNative => true
      case TypedNative(params) => Suits(h, params, [], views)
      case Block(params, tags, guarded) => Suits(h, params, tags, views) && (guarded ==> g(m) == Passes)
  }

  ghost predicate Throwing(h: Heap, m: MethodId, views: seq<View>, g: Guards) {
    && m in h.methods && h.methods[m].Block? && h.methods[m].guarded
    && Suits(h, h.methods[m].params, h.methods[m].tags, views) && g(m) == Throws
  }

  predicate HasGuard(h: Heap, m: MethodId) {
    m in h.methods && h.methods[m].Block? && h.methods[m].guarded
  }

  predicate Signatureless(h: Heap, m: MethodId) {
    m in h.methods ==> h.methods[m].UntypedNative?
  }

  /** A signatureless native costs the largest 64-bit integer. */
  ghost predicate CostIs(h: Heap, m: MethodId, views: seq<View>, cost: int) {
    if Signatureless(h, m) then cost == 9223372036854775807
    else SumIs(h, h.methods[m].params, if h.methods[m].Block? then h.methods[m].tags else [], views, cost)
  }

  lemma {:induction false} ScoreIsSum(h: Heap, params: seq<Hint>, tags: seq<Option<Tag>>, views: seq<View>, i: nat, score: int)
    requires ChainsEnd(h, views) && i <= |params| <= |views|
    ensures var r := ScoreParams(h, params, tags, views, i, score);
            && (r.Some? <==>
                  && (forall k :: i <= k < |params| ==> TypeDistance(h, views[k], params[k]).Some?)
                  && forall k :: i <= k < |params| && k < |tags| && tags[k].Some? ==> views[k].tag == tags[k])
            && (r.Some? ==> exists costs: seq<int> ::
                  && |costs| == |params| - i && r.value == score + Total(costs)
                  && forall k :: i <= k < |params| ==>
                       costs[k - i] == Charge(TypeDistance(h, views[k], params[k]).value, tags, k))
    decreases |params| - i
  {
    hide TypeDistance, ChainsEnd;
    var r := ScoreParams(h, params, tags, views, i, score);
    if i == |params| {
      assert Total([]) == 0;
      assert r.value == score + Total([]);
    } else {
      var d := TypeDistance(h, views[i], params[i]);
      if d.Some? && (i < |tags| && tags[i].Some? ==> views[i].tag == tags[i]) {
        var cost: int := Charge(d.value, tags, i);
        ScoreIsSum(h, params, tags, views, i + 1, score + cost);
        if r.Some? {
          var rest: seq<int> :|
            && |rest| == |params| - (i + 1) && r.value == score + cost + Total(rest)
            && forall k :: i + 1 <= k < |params| ==>
                 rest[k - (i + 1)] == Charge(TypeDistance(h, views[k], params[k]).value, tags, k);
          var costs := [cost] + rest;
          assert costs[1..] == rest && Total(costs) == cost + Total(rest);
          forall k | i <= k < |params|
            ensures costs[k - i] == Charge(TypeDistance(h, views[k], params[k]).value, tags, k)
          {
            if k > i {
              assert costs[k - i] == rest[k - (i + 1)];
            }
          }
        }
      }
    }
  }

  lemma DistanceSome(h: Heap, v: View, hint: Hint)
    requires v.clz.Some? && v.clz.value in h.classes ==> ChainEnds(h, v.clz.value, {})
    ensures HasDistance(h, v, hint) <==> TypeDistance(h, v, hint).Some?
    ensures TypeDistance(h, v, hint).Some? ==> DistanceIs(h, v, hint, TypeDistance(h, v, hint).value)
    ensures forall d: nat :: DistanceIs(h, v, hint, d) ==> TypeDistance(h, v, hint) == Some(d)
  {
    hide DistanceIs, TypeDistance;
    forall d: nat ensures DistanceIs(h, v, hint, d) <==> TypeDistance(h, v, hint) == Some(d) {
      DistanceIff(h, v, hint, d);
    }
    if TypeDistance(h, v, hint).Some? {
      assert DistanceIs(h, v, hint, TypeDistance(h, v, hint).value);
    }
  }

  lemma {:induction false} SameTotal(a: seq<int>, b: seq<int>)
    requires |a| == |b| && forall i :: 0 <= i < |a| ==> a[i] == b[i]
    ensures Total(a) == Total(b)
  {
    assert a == b;
  }

  /** The score is defined exactly if the parameters suit, and it is the sum. */
  lemma ScoreMeans(h: Heap, params: seq<Hint>, tags: seq<Option<Tag>>, views: seq<View>)
    requires ChainsEnd(h, views)
    ensures Score(h, params, tags, views).Some? <==> Suits(h, params, tags, views)
    ensures Score(h, params, tags, views).Some? ==>
              forall cost :: SumIs(h, params, tags, views, cost) <==> Score(h, params, tags, views).value == cost
  {
    hide TypeDistance, HasDistance, ScoreParams, Total, ChainsEnd;
    if |params| <= |views| {
      forall i | 0 <= i < |params|
        ensures HasDistance(h, views[i], params[i]) <==> TypeDistance(h, views[i], params[i]).Some?
      {
        ViewEnds(h, views, i);
        DistanceSome(h, views[i], params[i]);
      }
      ScoreIsSum(h, params, tags, views, 0, 0);
      if Score(h, params, tags, views).Some? {
        TheSum(h, params, tags, views);
      }
    }
  }

  lemma TheSum(h: Heap, params: seq<Hint>, tags: seq<Option<Tag>>, views: seq<View>)
    requires ChainsEnd(h, views) && |params| <= |views| && Score(h, params, tags, views).Some?
    ensures forall cost :: SumIs(h, params, tags, views, cost) <==> Score(h, params, tags, views).value == cost
  {
    hide TypeDistance, DistanceIs, ScoreParams, Total, ChainsEnd;
    ScoreIsSum(h, params, tags, views, 0, 0);
    var costs: seq<int> :|
      && |costs| == |params| && Score(h, params, tags, views).value == 0 + Total(costs)
      && forall k :: 0 <= k < |params| ==>
           costs[k - 0] == Charge(TypeDistance(h, views[k], params[k]).value, tags, k);
    forall i | 0 <= i < |params|
      ensures ChargeIs(h, views[i], params[i], tags, i, costs[i])
    {
      ViewEnds(h, views, i);
      DistanceSome(h, views[i], params[i]);
      assert costs[i - 0] == costs[i];
    }
    assert CostsAre(h, params, tags, views, costs);
    forall other | CostsAre(h, params, tags, views, other) ensures Total(other) == Total(costs) {
      forall i | 0 <= i < |params| ensures other[i] == costs[i] {
        ViewEnds(h, views, i);
        DistanceSome(h, views[i], params[i]);
        assert costs[i - 0] == costs[i];
      }
      SameTotal(other, costs);
    }
  }

  lemma ViewEnds(h: Heap, views: seq<View>, i: nat)
    requires ChainsEnd(h, views) && i < |views|
    ensures views[i].clz.Some? && views[i].clz.value in h.classes ==> ChainEnds(h, views[i].clz.value, {})
  {
  }

  /** A variant applies exactly if it accepts, with its cost, and before an unguarded one
      of the same cost if its guard passed. */
  lemma FitMeans(h: Heap, m: MethodId, views: seq<View>, g: Guards)
    requires ChainsEnd(h, views)
    ensures var fit := MatchScore(h, m, views, g);
            && (fit.Applies? <==> Accepts(h, m, views, g)) && (fit.Raised? <==> Throwing(h, m, views, g))
            && (fit.Applies? ==> fit.rank.guard == (if HasGuard(h, m) then 0 else 1))
            && (fit.Applies? ==> forall cost :: CostIs(h, m, views, cost) <==> fit.rank.score == cost)
  {
    hide Score, Suits, SumIs, ChainsEnd;
    if !Signatureless(h, m) {
      ScoreMeans(h, h.methods[m].params, if h.methods[m].Block? then h.methods[m].tags else [], views);
    }
  }

  // ---- Which variant answers -------------------------------------------------------------------

  /** A class's own variants of a selector, in chain order. */
  function VariantsOf(h: Heap, a: Addr, sel: Selector, side: bool): seq<MethodId> {
    if a !in h.classes then []
    else if side then (if sel in h.classes[a].classMethods then h.classes[a].classMethods[sel] else [])
    else if sel in h.classes[a].instanceMethods then h.classes[a].instanceMethods[sel]
    else []
  }

  /** Cheaper, or as cheap with a guard that passed where the other has none. */
  ghost predicate Better(h: Heap, views: seq<View>, a: MethodId, b: MethodId) {
    exists x, y :: CostIs(h, a, views, x) && CostIs(h, b, views, y) && (x < y || (x == y && HasGuard(h, a) && !HasGuard(h, b)))
  }

  /** Variant `k` accepts, and no accepting one is better. */
  ghost predicate Chosen(h: Heap, vs: seq<MethodId>, views: seq<View>, g: Guards, k: nat) {
    && k < |vs| && Accepts(h, vs[k], views, g)
    && forall i :: 0 <= i < |vs| && Accepts(h, vs[i], views, g) ==> !Better(h, views, vs[i], vs[k])
  }

  ghost predicate SomeThrow(h: Heap, vs: seq<MethodId>, views: seq<View>, g: Guards) {
    exists i :: 0 <= i < |vs| && Throwing(h, vs[i], views, g)
  }

  /** Two variants are chosen, and they are not the last resort. */
  ghost predicate Tie(h: Heap, vs: seq<MethodId>, views: seq<View>, g: Guards) {
    exists i: nat, j: nat :: i < j < |vs| && Chosen(h, vs, views, g, i) && Chosen(h, vs, views, g, j) && !CostIs(h, vs[i], views, 9223372036854775807)
  }

  /** What one class with these variants answers. */
  ghost predicate ClassAnswers(h: Heap, vs: seq<MethodId>, views: seq<View>, g: Guards, out: Outcome) {
    && (out.GuardRaised? <==> SomeThrow(h, vs, views, g))
    && (out.NotFound? <==> forall i :: 0 <= i < |vs| ==> !Accepts(h, vs[i], views, g) && !Throwing(h, vs[i], views, g))
    && (out.Ambiguous? <==> !SomeThrow(h, vs, views, g) && Tie(h, vs, views, g))
    && (out.Found? ==> exists k: nat :: Chosen(h, vs, views, g, k) && vs[k] == out.m && forall j: nat :: j < k ==> !Chosen(h, vs, views, g, j))
  }

  lemma BetterIsBelow(h: Heap, a: MethodId, b: MethodId, views: seq<View>, g: Guards)
    requires ChainsEnd(h, views) && Accepts(h, a, views, g) && Accepts(h, b, views, g)
    ensures var x, y := MatchScore(h, a, views, g), MatchScore(h, b, views, g);
            x.Applies? && y.Applies? && (Better(h, views, a, b) <==> Below(x.rank, y.rank))
  {
    hide MatchScore, CostIs, Accepts, ChainsEnd;
    FitMeans(h, a, views, g);
    FitMeans(h, b, views, g);
    var x, y := MatchScore(h, a, views, g), MatchScore(h, b, views, g);
    assert CostIs(h, a, views, x.rank.score) && CostIs(h, b, views, y.rank.score);
  }

  lemma BestIsChosen(h: Heap, vs: seq<MethodId>, views: seq<View>, g: Guards, k: nat)
    requires ChainsEnd(h, views)
    ensures Chosen(h, vs, views, g, k) <==> exists r: Rank :: BestAt(h, vs, views, g, k, r)
    ensures forall r: Rank :: BestAt(h, vs, views, g, k, r) ==> k < |vs| && MatchScore(h, vs[k], views, g) == Applies(r)
  {
    hide MatchScore, Accepts, Better, ChainsEnd, CostIs, Throwing, Below;
    forall i | 0 <= i < |vs| ensures MatchScore(h, vs[i], views, g).Applies? <==> Accepts(h, vs[i], views, g) {
      FitMeans(h, vs[i], views, g);
    }
    if k < |vs| && Accepts(h, vs[k], views, g) {
      var r := MatchScore(h, vs[k], views, g).rank;
      forall i | 0 <= i < |vs| && Accepts(h, vs[i], views, g)
        ensures Better(h, views, vs[i], vs[k]) <==> Below(MatchScore(h, vs[i], views, g).rank, r)
      {
        BetterIsBelow(h, vs[i], vs[k], views, g);
      }
      if Chosen(h, vs, views, g, k) {
        assert BestAt(h, vs, views, g, k, r);
      }
      if BestAt(h, vs, views, g, k, r) {
        forall i | 0 <= i < |vs| && Accepts(h, vs[i], views, g) ensures !Better(h, views, vs[i], vs[k]) {
          assert AppliesAt(h, vs, views, g, i, MatchScore(h, vs[i], views, g).rank);
        }
      }
    }
  }

  lemma SharedIsTie(h: Heap, vs: seq<MethodId>, views: seq<View>, g: Guards)
    requires ChainsEnd(h, views)
    ensures BestShared(h, vs, views, g) <==> Tie(h, vs, views, g)
  {
    hide MatchScore, Accepts, Better, ChainsEnd, CostIs, Throwing, Chosen, BestAt;
    if BestShared(h, vs, views, g) {
      var i: nat, j: nat, r: Rank :| i < j && BestAt(h, vs, views, g, i, r) && BestAt(h, vs, views, g, j, r) && r.score != I64_MAX;
      BestIsChosen(h, vs, views, g, i);
      BestIsChosen(h, vs, views, g, j);
      FitMeans(h, vs[i], views, g);
      assert !CostIs(h, vs[i], views, 9223372036854775807);
    }
    if Tie(h, vs, views, g) {
      var i: nat, j: nat :| i < j < |vs| && Chosen(h, vs, views, g, i) && Chosen(h, vs, views, g, j) && !CostIs(h, vs[i], views, 9223372036854775807);
      BestIsChosen(h, vs, views, g, i);
      BestIsChosen(h, vs, views, g, j);
      var r: Rank :| BestAt(h, vs, views, g, i, r);
      var q: Rank :| BestAt(h, vs, views, g, j, q);
      FitMeans(h, vs[i], views, g);
      FitMeans(h, vs[j], views, g);
      SameRank(h, vs, views, g, i, j, r, q);
      assert r.score != I64_MAX;
    }
  }

  lemma SameRank(h: Heap, vs: seq<MethodId>, views: seq<View>, g: Guards, i: nat, j: nat, r: Rank, q: Rank)
    requires BestAt(h, vs, views, g, i, r) && BestAt(h, vs, views, g, j, q)
    ensures r == q
  {
    hide MatchScore;
    assert AppliesAt(h, vs, views, g, i, r) && AppliesAt(h, vs, views, g, j, q);
  }

  lemma ClassMeans(h: Heap, vs: seq<MethodId>, views: seq<View>, g: Guards, out: Outcome)
    requires ChainsEnd(h, views) && AnswersOf(h, vs, views, g, out)
    ensures ClassAnswers(h, vs, views, g, out)
  {
    hide MatchScore, Accepts, Better, ChainsEnd, CostIs, Throwing, Chosen, BestAt, BestShared, Tie;
    forall i | 0 <= i < |vs|
      ensures var fit := MatchScore(h, vs[i], views, g);
              (fit.Applies? <==> Accepts(h, vs[i], views, g)) && (fit.Raised? <==> Throwing(h, vs[i], views, g))
    {
      FitMeans(h, vs[i], views, g);
    }
    SharedIsTie(h, vs, views, g);
    if out.Found? {
      var k: nat :| FirstBest(h, vs, views, g, k) && k < |vs| && vs[k] == out.m;
      BestIsChosen(h, vs, views, g, k);
      forall j: nat | j < k ensures !Chosen(h, vs, views, g, j) {
        BestIsChosen(h, vs, views, g, j);
      }
    }
  }

  lemma VariantsAre(h: Heap, a: Addr, sel: Selector, side: bool)
    ensures Candidates(h, a, sel, side) == VariantsOf(h, a, sel, side)
  {
  }

  // ---- The meaning of resolution ------------------------------------------------------------------

  /** Class `order[i]` answers `out`, and the classes before it have nothing. */
  ghost predicate AnsweredBy(h: Heap, order: seq<Addr>, i: nat, sel: Selector, side: bool, views: seq<View>, g: Guards, out: Outcome) {
    && i < |order| && ClassAnswers(h, VariantsOf(h, order[i], sel, side), views, g, out)
    && forall j :: 0 <= j < i ==> ClassAnswers(h, VariantsOf(h, order[j], sel, side), views, g, NotFound)
  }

  /** Nothing is found exactly when no variant of any class that mixins and parents lead
      to accepts or throws; else the first class in search order with an answer gives
      its own. */
  lemma ResolutionMeaning(h: Heap, c: Addr, sel: Selector, side: bool, views: seq<View>, g: Guards)
    requires ChainsEnd(h, views)
    ensures var out, order := Walk(h, c, sel, side, views, g, []).0.outcome, Order(h, c, []);
            && (out.NotFound? <==>
                  forall a, m :: Reached(h, c, a, []) && m in VariantsOf(h, a, sel, side) ==>
                    !Accepts(h, m, views, g) && !Throwing(h, m, views, g))
            && (!out.NotFound? ==> exists i: nat :: AnsweredBy(h, order, i, sel, side, views, g, out))
  {
    hide Walk, Order, Reached, AnswersOf, ClassAnswers, ChainsEnd, Accepts, Throwing, Candidates, VariantsOf, Reaches, EdgesIn;
    ResolutionSpec(h, c, sel, side, views, g);
    OrderExact(h, c, []);
    var out, order := Walk(h, c, sel, side, views, g, []).0.outcome, Order(h, c, []);
    forall a: Addr ensures AnswersOf(h, Candidates(h, a, sel, side), views, g, NotFound) <==>
                             forall m <- VariantsOf(h, a, sel, side) :: !Accepts(h, m, views, g) && !Throwing(h, m, views, g)
    {
      NothingMeans(h, a, sel, side, views, g);
    }
    if !out.NotFound? {
      var i: nat :| AnsweredAt(h, order, i, sel, side, views, g, out);
      AnsweredMeans(h, order, i, sel, side, views, g, out);
    }
  }

  lemma AnsweredMeans(h: Heap, order: seq<Addr>, i: nat, sel: Selector, side: bool, views: seq<View>, g: Guards, out: Outcome)
    requires ChainsEnd(h, views) && AnsweredAt(h, order, i, sel, side, views, g, out)
    ensures AnsweredBy(h, order, i, sel, side, views, g, out)
  {
    hide AnswersOf, ClassAnswers, ChainsEnd, Candidates, VariantsOf;
    VariantsAre(h, order[i], sel, side);
    ClassMeans(h, VariantsOf(h, order[i], sel, side), views, g, out);
    forall j | 0 <= j < i ensures ClassAnswers(h, VariantsOf(h, order[j], sel, side), views, g, NotFound) {
      VariantsAre(h, order[j], sel, side);
      ClassMeans(h, VariantsOf(h, order[j], sel, side), views, g, NotFound);
    }
  }

  /** Having nothing, on the variants. */
  lemma NothingMeans(h: Heap, a: Addr, sel: Selector, side: bool, views: seq<View>, g: Guards)
    requires ChainsEnd(h, views)
    ensures AnswersOf(h, Candidates(h, a, sel, side), views, g, NotFound) <==>
              forall m <- VariantsOf(h, a, sel, side) :: !Accepts(h, m, views, g) && !Throwing(h, m, views, g)
  {
    hide MatchScore, Accepts, Throwing, ChainsEnd, CostIs, Candidates, VariantsOf;
    VariantsAre(h, a, sel, side);
    var vs := VariantsOf(h, a, sel, side);
    forall i | 0 <= i < |vs|
      ensures MatchScore(h, vs[i], views, g).Inapplicable? <==> !Accepts(h, vs[i], views, g) && !Throwing(h, vs[i], views, g)
    {
      FitMeans(h, vs[i], views, g);
    }
    if forall i :: 0 <= i < |vs| ==> MatchScore(h, vs[i], views, g).Inapplicable? {
      NothingShared(h, vs, views, g);
    }
  }

  lemma NothingShared(h: Heap, vs: seq<MethodId>, views: seq<View>, g: Guards)
    requires forall i :: 0 <= i < |vs| ==> MatchScore(h, vs[i], views, g).Inapplicable?
    ensures !BestShared(h, vs, views, g) && !SomeThrows(h, vs, views, g)
  {
    hide MatchScore;
  }

  /** The method found, in one place: it is a variant that accepts; no accepting variant
      of its class costs less or costs as much with a guard against none; and a
      signatureless native is found only if every other accepting variant is as dear. */
  lemma FoundMeaning(h: Heap, c: Addr, sel: Selector, side: bool, views: seq<View>, g: Guards)
    returns (a: Addr, cost: int)
    requires ChainsEnd(h, views) && Walk(h, c, sel, side, views, g, []).0.outcome.Found?
    ensures var m, vs := Walk(h, c, sel, side, views, g, []).0.outcome.m, VariantsOf(h, a, sel, side);
            && Reached(h, c, a, []) && m in vs && Accepts(h, m, views, g) && CostIs(h, m, views, cost)
            && (forall n <- vs :: !Throwing(h, n, views, g))
            && (forall n, x :: n in vs && Accepts(h, n, views, g) && CostIs(h, n, views, x) ==>
                  cost <= x && (cost == x && HasGuard(h, n) ==> HasGuard(h, m)))
            && (Signatureless(h, m) ==> forall n, x :: n in vs && Accepts(h, n, views, g) && CostIs(h, n, views, x) ==> x >= 9223372036854775807)
  {
    hide Walk, Order, Reached, Accepts, Throwing, ChainsEnd, VariantsOf, Tie, Better, CostIs, SomeThrow;
    ResolutionMeaning(h, c, sel, side, views, g);
    OrderExact(h, c, []);
    var out, order := Walk(h, c, sel, side, views, g, []).0.outcome, Order(h, c, []);
    var i: nat :| AnsweredBy(h, order, i, sel, side, views, g, out);
    a := order[i];
    var vs := VariantsOf(h, a, sel, side);
    var k: nat :| Chosen(h, vs, views, g, k) && vs[k] == out.m;
    FitMeans(h, out.m, views, g);
    cost := MatchScore(h, out.m, views, g).rank.score;
    forall n, x | n in vs && Accepts(h, n, views, g) && CostIs(h, n, views, x)
      ensures cost <= x && (cost == x && HasGuard(h, n) ==> HasGuard(h, out.m))
    {
      NoneBetter(h, views, n, out.m, x, cost);
    }
    assert forall n <- vs :: !Throwing(h, n, views, g) by {
      NobodyThrows(h, vs, views, g);
    }
    assert Signatureless(h, out.m) ==> cost == 9223372036854775807 by {
      NativeCost(h, out.m, views, cost);
    }
  }

  lemma NativeCost(h: Heap, m: MethodId, views: seq<View>, cost: int)
    requires CostIs(h, m, views, cost)
    ensures Signatureless(h, m) ==> cost == 9223372036854775807
  {
  }

  lemma NobodyThrows(h: Heap, vs: seq<MethodId>, views: seq<View>, g: Guards)
    requires !SomeThrow(h, vs, views, g)
    ensures forall n <- vs :: !Throwing(h, n, views, g)
  {
    hide Throwing;
  }

  lemma NoneBetter(h: Heap, views: seq<View>, n: MethodId, m: MethodId, x: int, cost: int)
    requires !Better(h, views, n, m) && CostIs(h, n, views, x) && CostIs(h, m, views, cost)
    ensures cost <= x && (cost == x && HasGuard(h, n) ==> HasGuard(h, m))
  {
    hide CostIs;
  }

  /** If the class itself has nothing and some mixin leads to a class that has, the
      answer is that of a class which this or an earlier mixin leads to. */
  lemma MixinsAnswerFirst(h: Heap, c: Addr, sel: Selector, side: bool, views: seq<View>, g: Guards, i: nat, b: Addr, m: MethodId) returns (a: Addr)
    requires ChainsEnd(h, views) && c in h.classes
    requires forall n <- VariantsOf(h, c, sel, side) :: !Accepts(h, n, views, g) && !Throwing(h, n, views, g)
    requires OverMixin(h, c, i, b, [c]) && m in VariantsOf(h, b, sel, side) && (Accepts(h, m, views, g) || Throwing(h, m, views, g))
    ensures OverMixinUpTo(h, c, i, a, [c])
    ensures ClassAnswers(h, VariantsOf(h, a, sel, side), views, g, Walk(h, c, sel, side, views, g, []).0.outcome)
    ensures !Walk(h, c, sel, side, views, g, []).0.outcome.NotFound?
  {
    hide Walk, Order, Reached, ChainsEnd, VariantsOf, OverMixin, OverMixinUpTo, OverParent, AnsweredBy, Accepts, Throwing;
    var out, order := Walk(h, c, sel, side, views, g, []).0.outcome, Order(h, c, []);
    ResolutionMeaning(h, c, sel, side, views, g);
    var q := MixinPosition(h, c, i, b);
    OrderReach(h, c, b);
    var k: nat :| AnsweredBy(h, order, k, sel, side, views, g, out);
    AnswersBy(h, order, k, q, sel, side, views, g, out, m);
    OwnNothing(h, order, k, sel, side, views, g, out);
    a := order[k];
  }

  /** What comes up to a class reached over a mixin, but for the class itself, is reached
      over this or an earlier mixin. */
  lemma MixinPosition(h: Heap, c: Addr, i: nat, b: Addr) returns (q: nat)
    requires c in h.classes && OverMixin(h, c, i, b, [c])
    ensures var order := Order(h, c, []);
            && q < |order| && order[q] == b && order[0] == c
            && forall k: nat :: 0 < k <= q ==> OverMixinUpTo(h, c, i, order[k], [c])
  {
    hide Order, OverMixin, OverMixinUpTo, OverParent;
    var order := Order(h, c, []);
    MixinsFirst(h, c, []);
    assert [] + [c] == [c];
    assert OverSomeMixin(h, c, b, [c]);
    q :| q < |order| && order[q] == b;
    SelfUpTo(h, c, i, b);
  }

  lemma AnswersBy(h: Heap, order: seq<Addr>, k: nat, q: nat, sel: Selector, side: bool, views: seq<View>, g: Guards, out: Outcome, m: MethodId)
    requires AnsweredBy(h, order, k, sel, side, views, g, out) && q < |order|
    requires m in VariantsOf(h, order[q], sel, side) && (Accepts(h, m, views, g) || Throwing(h, m, views, g))
    ensures k <= q && k < |order| && ClassAnswers(h, VariantsOf(h, order[k], sel, side), views, g, out)
  {
    hide Accepts, Throwing, VariantsOf, Tie, Chosen, SomeThrow;
  }

  lemma OwnNothing(h: Heap, order: seq<Addr>, k: nat, sel: Selector, side: bool, views: seq<View>, g: Guards, out: Outcome)
    requires AnsweredBy(h, order, k, sel, side, views, g, out) && !out.NotFound? && |order| > 0
    requires forall n <- VariantsOf(h, order[0], sel, side) :: !Accepts(h, n, views, g) && !Throwing(h, n, views, g)
    ensures k > 0
  {
    hide Accepts, Throwing, VariantsOf, Tie, Chosen, SomeThrow;
  }

  lemma SelfUpTo(h: Heap, c: Addr, i: nat, a: Addr)
    requires c in h.classes && OverMixin(h, c, i, a, [c])
    ensures OverMixinUpTo(h, c, i, a, [c])
  {
  }

  lemma OrderReach(h: Heap, c: Addr, b: Addr)
    requires b in Order(h, c, [])
    ensures Reached(h, c, b, [])
  {
    OrderExact(h, c, []);
  }

  // ---- What keeps a lookup out of the cache --------------------------------------------------------

  /** Neither a guard nor a required tag: scoring it depends on classes alone. */
  predicate ClassesOnly(h: Heap, m: MethodId) {
    m in h.methods && h.methods[m].Block? ==>
      !h.methods[m].guarded && forall i :: 0 <= i < |h.methods[m].tags| ==> h.methods[m].tags[i].None?
  }

  lemma {:induction false} ClassesOnlyTally(h: Heap, ms: seq<MethodId>, acc: seq<Entry>, views: seq<View>, g: Guards)
    requires forall m <- ms :: ClassesOnly(h, m)
    ensures !TallyUp(h, ms, acc, false, views, g).tainted
    decreases |ms|
  {
    hide MatchScore;
    if ms != [] {
      assert ClassesOnly(h, ms[0]);
      var fit := MatchScore(h, ms[0], views, g);
      ClassesOnlyTally(h, ms[1..], if fit.Applies? then acc + [Entry(ms[0], fit.rank)] else acc, views, g);
    }
  }

  lemma {:induction false} ClassesOnlyAnswer(h: Heap, order: seq<Addr>, sel: Selector, side: bool, views: seq<View>, g: Guards)
    requires forall a, m :: a in order && m in VariantsOf(h, a, sel, side) ==> ClassesOnly(h, m)
    ensures !FirstAnswer(h, order, sel, side, views, g).tainted
    decreases |order|
  {
    hide ClassesOnly, VariantsOf, TallyUp, Select, Candidates;
    if order != [] {
      assert order[0] in order;
      VariantsAre(h, order[0], sel, side);
      ClassesOnlyTally(h, Candidates(h, order[0], sel, side), [], views, g);
      ClassesOnlyAnswer(h, order[1..], sel, side, views, g);
    }
  }

  /** Where no variant that mixins and parents lead to has a guard or requires a tag, no
      walk is tainted: every such lookup that has a key may be cached. */
  lemma ClassesOnlyUntainted(h: Heap, c: Addr, sel: Selector, side: bool, views: seq<View>, g: Guards)
    requires forall a, m :: Reached(h, c, a, []) && m in VariantsOf(h, a, sel, side) ==> ClassesOnly(h, m)
    ensures !Walk(h, c, sel, side, views, g, []).0.tainted
  {
    hide Walk, Order, Reached, ClassesOnly, VariantsOf, FirstAnswer;
    OrderExact(h, c, []);
    WalkIsFirstAnswer(h, c, sel, side, views, g, []);
    assert Order(h, c, [])[0..] == Order(h, c, []);
    ClassesOnlyAnswer(h, Order(h, c, []), sel, side, views, g);
  }
}
