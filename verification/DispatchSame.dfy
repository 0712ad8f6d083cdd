/** Heap changes that no walk can see: new classes, methods and objects, and dropped
    eigenclasses, while the classes that the stack leads to stay as they are and what
    is on the stack still looks the same.  Guards that only send and allocate, with
    the collector running, make such changes. */
module DispatchSame {
  import opened Wrappers
  import opened ClassGraph
  import opened Dispatch
  import opened DispatchTransfer
  import opened DispatchCache

  /** The values on the stack have the same kind, class and tag. */
  predicate SameViews(h: Heap, h': Heap, stack: seq<Root>) {
    forall i | 0 <= i < |stack| :: stack[i].ValueRoot? ==> ViewOf(h, stack[i].v) == ViewOf(h', stack[i].v)
  }

  predicate CoversRoot(h: Heap, r: Root, kept: set<Addr>) {
    match r
    case MethodRoot(_) => true
    case ClassRoot(c) => c in kept
    case ValueRoot(v) => ViewOf(h, v).clz.None? || ViewOf(h, v).clz.value in kept
  }

  /** `kept` holds the classes on the stack and those of the values on it. */
  predicate Covers(h: Heap, stack: seq<Root>, kept: set<Addr>) {
    forall i | 0 <= i < |stack| :: CoversRoot(h, stack[i], kept)
  }

  ghost predicate SameOn(h: Heap, h': Heap, stack: seq<Root>, kept: set<Addr>) {
    Agree(h, h', kept) && Covers(h, stack, kept)
  }

  ghost predicate SameMethods(h: Heap, h': Heap) {
    forall m <- h.methods.Keys :: m in h'.methods && h'.methods[m] == h.methods[m]
  }

  ghost predicate Same(h: Heap, h': Heap, stack: seq<Root>) {
    SameViews(h, h', stack) && SameMethods(h, h') && exists kept: set<Addr> :: SameOn(h, h', stack, kept)
  }

  lemma AllCovers(h: Heap, stack: seq<Root>)
    requires WellFormed(h) && KeepsRoots(h, stack)
    ensures Covers(h, stack, h.classes.Keys)
  {
    forall i | 0 <= i < |stack| ensures CoversRoot(h, stack[i], h.classes.Keys) {
      assert RootLive(h, stack[i]);
    }
  }

  lemma SameSelf(h: Heap, stack: seq<Root>)
    requires WellFormed(h) && KeepsRoots(h, stack)
    ensures Same(h, h, stack)
  {
    hide WellFormed, KeepsRoots, Agree, Covers;
    SelfAgrees(h);
    AllCovers(h, stack);
    assert SameOn(h, h, stack, h.classes.Keys);
  }

  lemma AgreeTransitive(h0: Heap, h1: Heap, h2: Heap, kept: set<Addr>, kept': set<Addr>)
    requires Agree(h0, h1, kept) && Agree(h1, h2, kept')
    ensures Agree(h0, h2, kept * kept')
  {
    var both := kept * kept';
    forall c <- both ensures c in h0.classes && c in h2.classes && h0.classes[c] == h2.classes[c] {
    }
    forall c <- both, i | 0 <= i < |Edges(h0, c)| ensures Edges(h0, c)[i] in both {
      assert Edges(h1, c) == Edges(h0, c);
    }
    forall c <- both, hint: Name ensures Matches(h0, c, hint) == Matches(h2, c, hint) {
    }
    forall c <- both, sel: Selector, side: bool, i | 0 <= i < |Candidates(h0, c, sel, side)|
      ensures BodyOf(h0, Candidates(h0, c, sel, side)[i]) == BodyOf(h2, Candidates(h0, c, sel, side)[i])
    {
      assert Candidates(h1, c, sel, side) == Candidates(h0, c, sel, side);
    }
  }

  lemma SameTransitive(h0: Heap, h1: Heap, h2: Heap, stack: seq<Root>)
    requires Same(h0, h1, stack) && Same(h1, h2, stack)
    ensures Same(h0, h2, stack)
  {
    hide Agree;
    var kept :| SameOn(h0, h1, stack, kept);
    var kept' :| SameOn(h1, h2, stack, kept');
    AgreeTransitive(h0, h1, h2, kept, kept');
    forall i | 0 <= i < |stack| ensures CoversRoot(h0, stack[i], kept * kept') {
      assert CoversRoot(h0, stack[i], kept) && CoversRoot(h1, stack[i], kept');
    }
    assert SameOn(h0, h2, stack, kept * kept');
  }

  lemma SameBelow(h: Heap, h': Heap, stack: seq<Root>, more: seq<Root>)
    requires Same(h, h', more) && stack <= more
    ensures Same(h, h', stack)
  {
    hide Agree;
    forall i | 0 <= i < |stack| && stack[i].ValueRoot? ensures ViewOf(h, stack[i].v) == ViewOf(h', stack[i].v) {
      assert more[i] == stack[i];
    }
    var kept :| SameOn(h, h', more, kept);
    forall i | 0 <= i < |stack| ensures CoversRoot(h, stack[i], kept) {
      assert more[i] == stack[i];
    }
    assert SameOn(h, h', stack, kept);
  }

  lemma QuietIsSame(h: Heap, h': Heap, stack: seq<Root>, kept: set<Addr>)
    requires WellFormed(h) && QuietChange(h, h', kept) && Covers(h, stack, kept) && SameViews(h, h', stack)
    ensures Same(h, h', stack)
  {
    hide WellFormed, Agree, Covers;
    QuietAgrees(h, h', kept);
    assert SameOn(h, h', stack, kept);
  }

  ghost predicate Seen(views: seq<View>, kept: set<Addr>) {
    forall i :: 0 <= i < |views| ==> views[i].clz.None? || views[i].clz.value in kept
  }

  /** Arguments that are on the stack are seen alike, and their classes are kept. */
  lemma ArgumentsSeen(h: Heap, h': Heap, stack: seq<Root>, args: seq<Value>, kept: set<Addr>)
    requires SameViews(h, h', stack) && Covers(h, stack, kept)
    requires forall i :: 0 <= i < |args| ==> ValueRoot(args[i]) in stack
    ensures ViewsOf(h, args) == ViewsOf(h', args) && Seen(ViewsOf(h, args), kept)
  {
    forall i | 0 <= i < |args|
      ensures ViewOf(h, args[i]) == ViewOf(h', args[i])
      ensures ViewOf(h, args[i]).clz.None? || ViewOf(h, args[i]).clz.value in kept
    {
      var k :| 0 <= k < |stack| && stack[k] == ValueRoot(args[i]);
      assert CoversRoot(h, stack[k], kept);
    }
    assert ViewsOf(h, args) == ViewsOf(h', args);
  }

  lemma ClassKept(h: Heap, stack: seq<Root>, c: Addr, kept: set<Addr>)
    requires Covers(h, stack, kept) && ClassRoot(c) in stack
    ensures c in kept
  {
    var k :| 0 <= k < |stack| && stack[k] == ClassRoot(c);
    assert CoversRoot(h, stack[k], kept);
  }

  lemma {:induction false} DistanceSame(h: Heap, h': Heap, kept: set<Addr>, v: View, hint: Hint)
    requires Agree(h, h', kept) && (v.clz.None? || v.clz.value in kept)
    ensures TypeDistance(h, v, hint) == TypeDistance(h', v, hint)
    decreases hint
  {
    if v.clz.Some? {
      DistanceAgrees(h, h', kept, v, v, hint);
    } else if hint.Nullable? {
      DistanceSame(h, h', kept, v, hint.base);
    }
  }

  lemma {:induction false} ScoreSame(h: Heap, h': Heap, kept: set<Addr>, params: seq<Hint>, tags: seq<Option<Tag>>,
                                     views: seq<View>, i: nat, score: int)
    requires Agree(h, h', kept) && Seen(views, kept) && |params| <= |views|
    ensures ScoreParams(h, params, tags, views, i, score) == ScoreParams(h', params, tags, views, i, score)
    decreases |params| - i
  {
    hide Agree, TypeDistance;
    if i < |params| {
      DistanceSame(h, h', kept, views[i], params[i]);
      var d := TypeDistance(h, views[i], params[i]);
      if d.Some? {
        ScoreSame(h, h', kept, params, tags, views, i + 1, score + 2 * d.value);
        ScoreSame(h, h', kept, params, tags, views, i + 1, score + 2 * d.value - 1);
      }
    }
  }

  lemma FitSame(h: Heap, h': Heap, kept: set<Addr>, m: MethodId, views: seq<View>, g: Guards)
    requires Agree(h, h', kept) && Seen(views, kept) && BodyOf(h, m) == BodyOf(h', m)
    ensures MatchScore(h, m, views, g) == MatchScore(h', m, views, g) && Taints(h, m, views) == Taints(h', m, views)
  {
    hide Agree, ScoreParams;
    match BodyOf(h, m)
    case Block(params, tags, guarded) =>
      if |params| <= |views| {
        ScoreSame(h, h', kept, params, tags, views, 0, 0);
      }
    case TypedNative(params) =>
      if |params| <= |views| {
        ScoreSame(h, h', kept, params, [], views, 0, 0);
      }
    case UntypedNative =>
  }

  lemma {:induction false} TallySame(h: Heap, h': Heap, kept: set<Addr>, ms: seq<MethodId>, acc: seq<Entry>, tainted: bool,
                                     views: seq<View>, g: Guards)
    requires Agree(h, h', kept) && Seen(views, kept)
    requires forall i :: 0 <= i < |ms| ==> BodyOf(h, ms[i]) == BodyOf(h', ms[i])
    ensures TallyUp(h, ms, acc, tainted, views, g) == TallyUp(h', ms, acc, tainted, views, g)
    decreases |ms|
  {
    hide Agree, MatchScore, Taints;
    if ms != [] {
      FitSame(h, h', kept, ms[0], views, g);
      var fit := MatchScore(h, ms[0], views, g);
      TallySame(h, h', kept, ms[1..], if fit.Applies? then acc + [Entry(ms[0], fit.rank)] else acc,
                tainted || Taints(h, ms[0], views), views, g);
    }
  }

  lemma LocalSame(h: Heap, h': Heap, kept: set<Addr>, c: Addr, sel: Selector, side: bool, views: seq<View>, g: Guards)
    requires Agree(h, h', kept) && Seen(views, kept) && c in kept
    ensures Local(h, c, sel, side, views, g) == Local(h', c, sel, side, views, g)
  {
    assert Candidates(h, c, sel, side) == Candidates(h', c, sel, side);
    TallySame(h, h', kept, Candidates(h, c, sel, side), [], false, views, g);
  }

  /** The walk answers alike, guards and tags included, and visits the same. */
  lemma {:induction false} WalkSame(h: Heap, h': Heap, kept: set<Addr>, c: Addr, sel: Selector, side: bool, views: seq<View>, g: Guards, visited: seq<Addr>)
    requires Agree(h, h', kept) && Seen(views, kept) && c in kept
    ensures Walk(h, c, sel, side, views, g, visited) == Walk(h', c, sel, side, views, g, visited)
    decreases Unvisited(h, visited), 0
  {
    hide Local;
    if c !in visited {
      LocalSame(h, h', kept, c, sel, side, views, g);
      assert c in Unvisited(h, visited) && c !in Unvisited(h, visited + [c]);
      WalkEdgesSame(h, h', kept, Edges(h, c), sel, side, views, g, visited + [c]);
    }
  }

  lemma {:induction false} WalkEdgesSame(h: Heap, h': Heap, kept: set<Addr>, cs: seq<Addr>, sel: Selector, side: bool, views: seq<View>, g: Guards, visited: seq<Addr>)
    requires Agree(h, h', kept) && Seen(views, kept) && forall i :: 0 <= i < |cs| ==> cs[i] in kept
    ensures WalkEdges(h, cs, sel, side, views, g, visited) == WalkEdges(h', cs, sel, side, views, g, visited)
    decreases Unvisited(h, visited), 1 + |cs|
  {
    hide Agree;
    if cs != [] {
      WalkSame(h, h', kept, cs[0], sel, side, views, g, visited);
      var visited1 := Walk(h, cs[0], sel, side, views, g, visited).1;
      assert Unvisited(h, visited1) <= Unvisited(h, visited);
      WalkEdgesSame(h, h', kept, cs[1..], sel, side, views, g, visited1);
    }
  }
}
