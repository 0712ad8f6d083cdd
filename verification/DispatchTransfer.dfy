/** When two lookups must resolve alike: the classes they can see agree, and
    their arguments have the same kinds and dispatch classes.  This is what
    makes the cache key sufficient. */
module DispatchTransfer {
  import opened Wrappers
  import opened ClassGraph
  import opened Dispatch

  /** `kept` is closed under the walk's edges, and the heaps agree on it. */
  ghost predicate Agree(h: Heap, h': Heap, kept: set<Addr>) {
    && (forall c <- kept ::
          && c in h.classes && c in h'.classes && h.classes[c] == h'.classes[c]
          && (forall i :: 0 <= i < |Edges(h, c)| ==> Edges(h, c)[i] in kept))
    && (forall c <- kept, hint: Name :: Matches(h, c, hint) == Matches(h', c, hint))
    && (forall c <- kept, sel: Selector, side: bool ::
          forall i :: 0 <= i < |Candidates(h, c, sel, side)| ==>
            BodyOf(h, Candidates(h, c, sel, side)[i]) == BodyOf(h', Candidates(h, c, sel, side)[i]))
  }

  ghost predicate SameShape(views: seq<View>, views': seq<View>, kept: set<Addr>) {
    && |views| == |views'|
    && forall i :: 0 <= i < |views| ==>
         && views[i].kind == views'[i].kind && views[i].clz == views'[i].clz
         && views[i].clz.Some? && views[i].clz.value in kept
  }

  lemma {:induction false} OrderAgrees(h: Heap, h': Heap, kept: set<Addr>, c: Addr, visited: seq<Addr>)
    requires Agree(h, h', kept) && c in kept
    ensures Order(h, c, visited) == Order(h', c, visited)
    ensures forall a <- Order(h, c, visited) :: a in visited || a in kept
    decreases Unvisited(h, visited), 0
  {
    if c !in visited {
      assert c in Unvisited(h, visited) && c !in Unvisited(h, visited + [c]);
      OrderEdgesAgree(h, h', kept, Edges(h, c), visited + [c]);
    }
  }

  lemma {:induction false} OrderEdgesAgree(h: Heap, h': Heap, kept: set<Addr>, cs: seq<Addr>, visited: seq<Addr>)
    requires Agree(h, h', kept) && forall i :: 0 <= i < |cs| ==> cs[i] in kept
    ensures OrderEdges(h, cs, visited) == OrderEdges(h', cs, visited)
    ensures forall a <- OrderEdges(h, cs, visited) :: a in visited || a in kept
    decreases Unvisited(h, visited), 1 + |cs|
  {
    if cs != [] {
      OrderAgrees(h, h', kept, cs[0], visited);
      assert Unvisited(h, Order(h, cs[0], visited)) <= Unvisited(h, visited);
      OrderEdgesAgree(h, h', kept, cs[1..], Order(h, cs[0], visited));
    }
  }

  lemma {:induction false} ChainAgrees(h: Heap, h': Heap, kept: set<Addr>, c: Addr, hint: Name, dist: nat, seen: set<Addr>)
    requires Agree(h, h', kept) && c in kept
    ensures ChainDistance(h, c, hint, dist, seen) == ChainDistance(h', c, hint, dist, seen)
    decreases h.classes.Keys - seen
  {
    var es := Edges(h, c);
    assert forall i :: 0 <= i < |Mixins(h, c)| ==> es[i] == Mixins(h, c)[i] && es[i] in kept;
    assert AnyMatches(h, Mixins(h, c), hint) == AnyMatches(h', Mixins(h', c), hint);
    if c !in seen && h.classes[c].parent.Some? {
      assert es[|es| - 1] == h.classes[c].parent.value;
      ChainAgrees(h, h', kept, h.classes[c].parent.value, hint, dist + 1, seen + {c});
    }
  }

  lemma {:induction false} DistanceAgrees(h: Heap, h': Heap, kept: set<Addr>, v: View, v': View, hint: Hint)
    requires Agree(h, h', kept)
    requires v.kind == v'.kind && v.clz == v'.clz && v.clz.Some? && v.clz.value in kept
    ensures TypeDistance(h, v, hint) == TypeDistance(h', v', hint)
    decreases hint
  {
    match hint
    case Nullable(base) => DistanceAgrees(h, h', kept, v, v', base);
    case Plain(name) =>
      assert TypeName(h, v) == TypeName(h', v');
      ChainAgrees(h, h', kept, v.clz.value, name, 0, {});
  }

  lemma {:induction false} ScoreAgrees(h: Heap, h': Heap, kept: set<Addr>, params: seq<Hint>, tags: seq<Option<Tag>>,
                                       views: seq<View>, views': seq<View>, i: nat, score: int)
    requires Agree(h, h', kept) && SameShape(views, views', kept)
    requires !Tagged(tags) && |params| <= |views|
    ensures ScoreParams(h, params, tags, views, i, score) == ScoreParams(h', params, tags, views', i, score)
    decreases |params| - i
  {
    if i < |params| {
      DistanceAgrees(h, h', kept, views[i], views'[i], params[i]);
      var d := TypeDistance(h, views[i], params[i]);
      if d.Some? {
        ScoreAgrees(h, h', kept, params, tags, views, views', i + 1, score + 2 * d.value);
      }
    }
  }

  lemma FitAgrees(h: Heap, h': Heap, kept: set<Addr>, m: MethodId, views: seq<View>, views': seq<View>, g: Guards)
    requires Agree(h, h', kept) && SameShape(views, views', kept)
    requires BodyOf(h, m) == BodyOf(h', m) && !Taints(h, m, views)
    ensures !Taints(h', m, views') && MatchScore(h, m, views, g) == MatchScore(h', m, views', g)
  {
    match BodyOf(h, m)
    case Block(params, tags, guarded) =>
      if |params| <= |views| {
        ScoreAgrees(h, h', kept, params, tags, views, views', 0, 0);
      }
    case TypedNative(params) =>
      if |params| <= |views| {
        ScoreAgrees(h, h', kept, params, [], views, views', 0, 0);
      }
    case UntypedNative =>
  }

  lemma {:induction false} TallyAgrees(h: Heap, h': Heap, kept: set<Addr>, ms: seq<MethodId>, acc: seq<Entry>,
                                       views: seq<View>, views': seq<View>, g: Guards)
    requires Agree(h, h', kept) && SameShape(views, views', kept)
    requires forall i :: 0 <= i < |ms| ==> BodyOf(h, ms[i]) == BodyOf(h', ms[i])
    requires !TallyUp(h, ms, acc, false, views, g).tainted
    ensures TallyUp(h', ms, acc, false, views', g) == TallyUp(h, ms, acc, false, views, g)
    decreases |ms|
  {
    if ms != [] {
      var fit := MatchScore(h, ms[0], views, g);
      var acc' := if fit.Applies? then acc + [Entry(ms[0], fit.rank)] else acc;
      if Taints(h, ms[0], views) {
        TaintStays(h, ms[1..], acc', views, g);
      } else {
        FitAgrees(h, h', kept, ms[0], views, views', g);
        if !fit.Raised? {
          TallyAgrees(h, h', kept, ms[1..], acc', views, views', g);
        }
      }
    }
  }

  lemma {:induction false} FirstAnswerAgrees(h: Heap, h': Heap, kept: set<Addr>, order: seq<Addr>, sel: Selector, side: bool,
                                             views: seq<View>, views': seq<View>, g: Guards)
    requires Agree(h, h', kept) && SameShape(views, views', kept)
    requires forall i :: 0 <= i < |order| ==> order[i] in kept
    requires !FirstAnswer(h, order, sel, side, views, g).tainted
    ensures FirstAnswer(h', order, sel, side, views', g) == FirstAnswer(h, order, sel, side, views, g)
    decreases |order|
  {
    if order != [] {
      var c := order[0];
      assert c in kept;
      assert Candidates(h, c, sel, side) == Candidates(h', c, sel, side);
      TallyAgrees(h, h', kept, Candidates(h, c, sel, side), [], views, views', g);
      if Local(h, c, sel, side, views, g).outcome.NotFound? {
        FirstAnswerAgrees(h, h', kept, order[1..], sel, side, views, views', g);
      }
    }
  }

  /** An untainted walk resolves alike in both heaps for arguments of the same
      kinds and classes, whatever their identities and element tags. */
  lemma WalkAgrees(h: Heap, h': Heap, kept: set<Addr>, c: Addr, sel: Selector, side: bool,
                   views: seq<View>, views': seq<View>, g: Guards)
    requires Agree(h, h', kept) && SameShape(views, views', kept) && c in kept
    requires !Walk(h, c, sel, side, views, g, []).0.tainted
    ensures Walk(h', c, sel, side, views', g, []).0 == Walk(h, c, sel, side, views, g, []).0
  {
    WalkIsFirstAnswer(h, c, sel, side, views, g, []);
    WalkIsFirstAnswer(h', c, sel, side, views', g, []);
    OrderAgrees(h, h', kept, c, []);
    var order := Order(h, c, []);
    assert order[0..] == order;
    FirstAnswerAgrees(h, h', kept, order, sel, side, views, views', g);
  }

  lemma {:induction false} FirstAnswerUntainted(h: Heap, order: seq<Addr>, sel: Selector, side: bool, views: seq<View>, g: Guards, g': Guards)
    requires !FirstAnswer(h, order, sel, side, views, g).tainted
    ensures FirstAnswer(h, order, sel, side, views, g') == FirstAnswer(h, order, sel, side, views, g)
    decreases |order|
  {
    if order != [] {
      UntaintedTally(h, Candidates(h, order[0], sel, side), [], views, g, g');
      if Local(h, order[0], sel, side, views, g).outcome.NotFound? {
        FirstAnswerUntainted(h, order[1..], sel, side, views, g, g');
      }
    }
  }

  /** An untainted walk asks no guard: it answers alike under every oracle. */
  lemma WalkUntainted(h: Heap, c: Addr, sel: Selector, side: bool, views: seq<View>, g: Guards, g': Guards)
    requires !Walk(h, c, sel, side, views, g, []).0.tainted
    ensures Walk(h, c, sel, side, views, g', []).0 == Walk(h, c, sel, side, views, g, []).0
  {
    WalkIsFirstAnswer(h, c, sel, side, views, g, []);
    WalkIsFirstAnswer(h, c, sel, side, views, g', []);
    FirstAnswerUntainted(h, Order(h, c, [])[0..], sel, side, views, g, g');
  }
}
