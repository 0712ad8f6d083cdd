/** Binding a global changes which classes a type hint matches, and
    src/vm/exec.rs:1999 and 2889 bind without dropping the cache.  When is the cache
    still right? */
module DispatchGlobals {
  import opened Wrappers
  import opened ClassGraph
  import opened Dispatch
  import opened DispatchTransfer
  import opened DispatchCache

  /** Bind or rebind `n`, to a class or to a value that is none. */
  function Bind(h: Heap, n: Name, target: Option<Addr>): Heap {
    h.(globals := if target.Some? then h.globals[n := target.value] else h.globals - {n})
  }

  predicate Bindable(h: Heap, target: Option<Addr>) {
    target.Some? ==> target.value in h.classes
  }

  /** For the classes `ks` the name means after the binding what it meant before. */
  predicate SameMeaning(h: Heap, n: Name, target: Option<Addr>, ks: set<Addr>) {
    forall k <- ks :: Matches(h, k, n) <==>
      if target.Some? then k == target.value else k in h.classes && h.classes[k].name == n
  }

  ghost predicate SameDistances(h: Heap, h': Heap) {
    forall v: View, hint: Hint :: TypeDistance(h, v, hint) == TypeDistance(h', v, hint)
  }

  /** A binding leaves every distance, so every score, unchanged exactly when the name
      keeps its meaning for every class: for a name that is unbound, when the class
      bound is the only one that bears it. */
  lemma BindKeepsDistances(h: Heap, n: Name, target: Option<Addr>)
    requires WellFormed(h) && Bindable(h, target)
    ensures SameMeaning(h, n, target, h.classes.Keys) <==> SameDistances(h, Bind(h, n, target))
  {
    if SameMeaning(h, n, target, h.classes.Keys) {
      BindSparesDistances(h, n, target);
    } else {
      var k :| k in h.classes && Matches(h, k, n) != Matches(Bind(h, n, target), k, n);
      var v := Witness(k, n);
      AtOnce(h, k, n);
      AtOnce(Bind(h, n, target), k, n);
    }
  }

  lemma BindSparesDistances(h: Heap, n: Name, target: Option<Addr>)
    requires WellFormed(h) && Bindable(h, target) && SameMeaning(h, n, target, h.classes.Keys)
    ensures SameDistances(h, Bind(h, n, target))
  {
    var h' := Bind(h, n, target);
    SelfAgrees(h);
    BindAgrees(h, n, target, h.classes.Keys);
    forall v: View, hint: Hint ensures TypeDistance(h, v, hint) == TypeDistance(h', v, hint) {
      if v.clz.Some? && v.clz.value in h.classes {
        DistanceAgrees(h, h', h.classes.Keys, v, v, hint);
      } else {
        StrangerDistance(h, h', v, hint);
      }
    }
  }

  lemma BindAgrees(h: Heap, n: Name, target: Option<Addr>, ks: set<Addr>)
    requires Agree(h, h, ks) && SameMeaning(h, n, target, ks)
    ensures Agree(h, Bind(h, n, target), ks)
  {
    var h' := Bind(h, n, target);
    forall c <- ks, hint: Name ensures Matches(h, c, hint) == Matches(h', c, hint) {
    }
  }

  /** A class value whose class is `k` and whose type name is not `n`. */
  function Witness(k: Addr, n: Name): View {
    View(if n == "Class" then 6 else 5, Some(k), None)
  }

  lemma AtOnce(h: Heap, k: Addr, n: Name)
    requires k in h.classes
    ensures TypeDistance(h, Witness(k, n), Plain(n)) == Some(0) <==> Matches(h, k, n)
  {
    ChainAtLeast(h, k, n, 0, {});
  }

  lemma {:induction false} ChainAtLeast(h: Heap, c: Addr, hint: Name, dist: nat, seen: set<Addr>)
    ensures var d := ChainDistance(h, c, hint, dist, seen);
            && (d.Some? ==> d.value >= dist)
            && (c in h.classes && c !in seen ==> (d == Some(dist) <==> Matches(h, c, hint)))
    decreases h.classes.Keys - seen
  {
    if c in h.classes && c !in seen && h.classes[c].parent.Some? {
      ChainAtLeast(h, h.classes[c].parent.value, hint, dist + 1, seen + {c});
    }
  }

  lemma {:induction false} StrangerDistance(h: Heap, h': Heap, v: View, hint: Hint)
    requires h.classes == h'.classes && (v.clz.None? || v.clz.value !in h.classes)
    ensures TypeDistance(h, v, hint) == TypeDistance(h', v, hint)
    decreases hint
  {
    if hint.Nullable? {
      StrangerDistance(h, h', v, hint.base);
    }
  }

  // ---- Exactly when no cache can go stale ------------------------------------------------

  function NamedClasses(h: Heap): set<Addr> {
    set c | c in h.classes && !h.classes[c].eigen
  }

  /** Nothing inherits from an eigenclass or mixes one in. */
  predicate NamedClosed(h: Heap) {
    forall c <- NamedClasses(h) :: forall i | 0 <= i < |Edges(h, c)| :: Edges(h, c)[i] in NamedClasses(h)
  }

  /** A program that has `h` and more: further classes, none called `n`, and any
      methods and objects. */
  predicate Extends(h: Heap, h': Heap, n: Name) {
    && WellFormed(h') && NamedClosed(h') && h'.globals == h.globals
    && (forall c <- h.classes.Keys :: c in h'.classes && h'.classes[c] == h.classes[c])
    && (forall c <- h'.classes.Keys - h.classes.Keys :: h'.classes[c].name != n)
  }

  /** While the name keeps its meaning for the named classes, the cache of every such
      program stays coherent without invalidation. */
  lemma BindKeepsCoherent(h: Heap, n: Name, target: Option<Addr>, h': Heap, cache: map<Key, Option<MethodId>>)
    requires WellFormed(h) && Bindable(h, target) && SameMeaning(h, n, target, NamedClasses(h))
    requires Extends(h, h', n) && Coherent(h', cache)
    ensures Coherent(Bind(h', n, target), cache)
  {
    hide WellFormed, Coherent, HintsKept;
    HintsStay(h, n, target, h');
    QuietKeepsCoherent(h', Bind(h', n, target), NamedClasses(h'), cache);
  }

  lemma HintsStay(h: Heap, n: Name, target: Option<Addr>, h': Heap)
    requires WellFormed(h) && Bindable(h, target) && SameMeaning(h, n, target, NamedClasses(h)) && Extends(h, h', n)
    ensures HintsKept(h', Bind(h', n, target), NamedClasses(h'))
  {
    var b, kept := Bind(h', n, target), NamedClasses(h');
    forall m <- h'.globals.Keys + b.globals.Keys, k <- kept ensures Matches(h', k, m) == Matches(b, k, m) {
      if m == n {
        NameStays(h, n, target, h', k);
      }
    }
  }

  lemma NameStays(h: Heap, n: Name, target: Option<Addr>, h': Heap, k: Addr)
    requires WellFormed(h) && Bindable(h, target) && SameMeaning(h, n, target, NamedClasses(h)) && Extends(h, h', n)
    requires k in NamedClasses(h')
    ensures Matches(h', k, n) == Matches(Bind(h', n, target), k, n)
  {
    hide NamedClosed, ClassLive;
    if k in h.classes {
      assert k in NamedClasses(h) && Matches(h', k, n) == Matches(h, k, n);
    }
  }

  /** Otherwise some program goes stale.  With `BindKeepsCoherent` this makes the
      condition exact. */
  lemma AliasMakesCacheStale(h: Heap, n: Name, target: Option<Addr>) returns (h': Heap, cache: map<Key, Option<MethodId>>)
    requires WellFormed(h) && NamedClosed(h) && Bindable(h, target) && !SameMeaning(h, n, target, NamedClasses(h))
    ensures Extends(h, h', n) && Coherent(h', cache) && !Coherent(Bind(h', n, target), cache)
  {
    hide WellFormed, NamedClosed, Coherent, Walk, KeyOf, EntryFresh, Extends, GadgetHeap;
    var k :| k in NamedClasses(h) && Matches(h, k, n) != Matches(Bind(h, n, target), k, n);
    var g := MakeGadget(h, k, n, Matches(h, k, n));
    h' := GadgetHeap(h, g);
    var b, views := Bind(h', n, target), GadgetViews(g);
    GadgetExtends(h, g);
    GadgetMeans(h, g, target);
    GadgetAnswer(h, g, h');
    GadgetAnswer(h, g, b);
    GadgetKey(h, g, h');
    GadgetKey(h, g, b);
    var none: map<Key, Option<MethodId>> := map[];
    assert Coherent(h', none) by { NothingCached(h'); }
    InsertCoherent(h', none, g.r, "m:", false, views, NoGuards(), Some(GadgetFound(g)));
    cache := none[KeyOf(h', g.r, "m:", false, views).value := Some(GadgetFound(g))];
    NotFresh(b, cache, g.r, views, GadgetFound(g));
  }

  /** Binding without invalidation is safe for every program that has `h`, whatever it
      has cached, exactly when the name keeps its meaning for the named classes. */
  lemma BindSafeIff(h: Heap, n: Name, target: Option<Addr>)
    requires WellFormed(h) && NamedClosed(h) && Bindable(h, target)
    ensures SameMeaning(h, n, target, NamedClasses(h)) <==>
              forall h': Heap, cache: map<Key, Option<MethodId>> ::
                Extends(h, h', n) && Coherent(h', cache) ==> Coherent(Bind(h', n, target), cache)
  {
    hide WellFormed, NamedClosed, Coherent, Extends, SameMeaning, Bind;
    if SameMeaning(h, n, target, NamedClasses(h)) {
      forall h': Heap, cache: map<Key, Option<MethodId>> | Extends(h, h', n) && Coherent(h', cache)
        ensures Coherent(Bind(h', n, target), cache)
      {
        BindKeepsCoherent(h, n, target, h', cache);
      }
    } else {
      var h', cache := AliasMakesCacheStale(h, n, target);
    }
  }

  lemma NothingCached(h: Heap)
    ensures Coherent(h, map[])
  {
  }

  lemma NotFresh(h: Heap, cache: map<Key, Option<MethodId>>, r: Addr, views: seq<View>, m: MethodId)
    requires KeyOf(h, r, "m:", false, views).Some? && KeyOf(h, r, "m:", false, views).value in cache
    requires cache[KeyOf(h, r, "m:", false, views).value] == Some(m)
    requires Walk(h, r, "m:", false, views, NoGuards(), []).0.outcome != Found(m)
    ensures !Coherent(h, cache)
  {
    assert !EntryFresh(h, Some(m), r, "m:", false, views);
  }

  // ---- The program that goes stale ---------------------------------------------------------

  /** Class `r` has a parent called `near` and answers `m:` with variant `m`, which
      asks for `n`, and a rival.  `matched` says whether `k` is an `n` at first. */
  datatype Gadget = Gadget(k: Addr, n: Name, r: Addr, m: MethodId, near: Name, own: Name, matched: bool)

  /** The rival asks for the type name of the first argument, at no cost, and of the
      second either the same or its parent, one hop away. */
  function RivalHints(g: Gadget): seq<Hint> {
    [Plain(if g.n == "Class" then "ClassMeta" else "Class"), Plain(if g.matched then g.near else "Class")]
  }

  function GadgetHeap(h: Heap, g: Gadget): Heap {
    h.(classes := h.classes[g.r + 1 := Class(g.near, None, [], map[], map[], false, "Object")]
                           [g.r := Class(g.own, Some(g.r + 1), [], map["m:" := [g.m, g.m + 1]], map[], false, "Object")],
       methods := h.methods[g.m := TypedNative([Plain(g.n), Plain("Class")])][g.m + 1 := TypedNative(RivalHints(g))])
  }

  function GadgetViews(g: Gadget): seq<View> {
    [Witness(g.k, g.n), View(5, Some(g.r), None)]
  }

  function GadgetFound(g: Gadget): MethodId {
    if g.matched then g.m else g.m + 1
  }

  ghost predicate FitsIn(h: Heap, g: Gadget) {
    && g.k in NamedClasses(h) && g.r !in h.classes && g.r + 1 !in h.classes
    && g.m !in h.methods && g.m + 1 !in h.methods
    && g.near !in h.globals && g.near != g.n && g.near != "Class" && g.own != g.n && g.own != g.near
  }

  lemma MakeGadget(h: Heap, k: Addr, n: Name, matched: bool) returns (g: Gadget)
    requires k in NamedClasses(h)
    ensures FitsIn(h, g) && g.k == k && g.n == n && g.matched == matched
  {
    var r := Above(h.classes.Keys);
    var m := Above(h.methods.Keys);
    var near := FreshName(h.globals.Keys + {n, "Class"});
    var own := FreshName({n, near});
    g := Gadget(k, n, r, m, near, own, matched);
  }

  lemma {:induction false} Above(xs: set<nat>) returns (b: nat)
    ensures forall x <- xs :: x < b
    decreases xs
  {
    if xs == {} {
      b := 0;
    } else {
      var x :| x in xs;
      var c := Above(xs - {x});
      b := if x < c then c else x + 1;
      forall y <- xs ensures y < b {
        assert y != x ==> y in xs - {x};
      }
    }
  }

  lemma {:induction false} Longer(names: set<Name>) returns (b: nat)
    ensures forall x <- names :: |x| < b
    decreases names
  {
    if names == {} {
      b := 0;
    } else {
      var x :| x in names;
      var c := Longer(names - {x});
      b := if |x| < c then c else |x| + 1;
      forall y <- names ensures |y| < b {
        assert y != x ==> y in names - {x};
      }
    }
  }

  lemma FreshName(names: set<Name>) returns (s: Name)
    ensures s !in names
  {
    var b := Longer(names);
    s := seq(b, i => 'x');
  }

  lemma {:induction false} ChainKept(h: Heap, h': Heap, c: Addr, seen: set<Addr>)
    requires forall x <- h.classes.Keys :: x in h'.classes && h'.classes[x] == h.classes[x]
    requires ChainEnds(h, c, seen)
    ensures ChainEnds(h', c, seen)
    decreases h.classes.Keys - seen
  {
    if h.classes[c].parent.Some? {
      ChainKept(h, h', h.classes[c].parent.value, seen + {c});
    }
  }

  lemma OldLive(h: Heap, g: Gadget, c: Addr)
    requires FitsIn(h, g) && c in h.classes && ClassLive(h, c)
    ensures c in GadgetHeap(h, g).classes && ClassLive(GadgetHeap(h, g), c)
  {
    hide ChainEnds;
    var h' := GadgetHeap(h, g);
    assert Edges(h', c) == Edges(h, c);
    ChainKept(h, h', c, {});
  }

  lemma NewLive(h: Heap, g: Gadget)
    requires FitsIn(h, g)
    ensures ClassLive(GadgetHeap(h, g), g.r + 1) && ClassLive(GadgetHeap(h, g), g.r)
  {
    var h' := GadgetHeap(h, g);
    assert Edges(h', g.r + 1) == [] && Edges(h', g.r) == [g.r + 1];
    assert ChainEnds(h', g.r + 1, {}) && ChainEnds(h', g.r + 1, {g.r});
  }

  lemma GadgetLive(h: Heap, g: Gadget)
    requires WellFormed(h) && FitsIn(h, g)
    ensures WellFormed(GadgetHeap(h, g))
  {
    hide ClassLive, NamedClasses;
    var h' := GadgetHeap(h, g);
    NewLive(h, g);
    forall c <- h'.classes.Keys ensures ClassLive(h', c) {
      if c in h.classes {
        OldLive(h, g, c);
      }
    }
  }

  lemma GadgetExtends(h: Heap, g: Gadget)
    requires WellFormed(h) && NamedClosed(h) && FitsIn(h, g)
    ensures Extends(h, GadgetHeap(h, g), g.n) && WellFormed(GadgetHeap(h, g))
  {
    hide WellFormed;
    GadgetLive(h, g);
    var h' := GadgetHeap(h, g);
    forall c <- NamedClasses(h'), i | 0 <= i < |Edges(h', c)| ensures Edges(h', c)[i] in NamedClasses(h') {
      if c in h.classes {
        assert c in NamedClasses(h) && Edges(h', c) == Edges(h, c);
      }
    }
  }

  lemma GadgetMeans(h: Heap, g: Gadget, target: Option<Addr>)
    requires FitsIn(h, g)
    ensures var h' := GadgetHeap(h, g); var b := Bind(h', g.n, target);
            && h'.globals == h.globals && b.classes == h'.classes && b.methods == h'.methods
            && g.near !in h'.globals && g.near !in b.globals
            && Matches(h', g.k, g.n) == Matches(h, g.k, g.n)
            && Matches(b, g.k, g.n) == Matches(Bind(h, g.n, target), g.k, g.n)
  {
  }

  lemma GadgetKey(h: Heap, g: Gadget, b: Heap)
    requires FitsIn(h, g) && b.classes == GadgetHeap(h, g).classes
    ensures KeyOf(b, g.r, "m:", false, GadgetViews(g)).Some?
    ensures KeyOf(b, g.r, "m:", false, GadgetViews(g)) == KeyOf(GadgetHeap(h, g), g.r, "m:", false, GadgetViews(g))
  {
    var views := GadgetViews(g);
    assert Keyable(b, views[0]) && Keyable(b, views[1]);
  }

  /** A two-parameter score is twice the two distances. */
  lemma TwoCosts(h: Heap, p: Hint, q: Hint, v: View, w: View)
    ensures var d, e := TypeDistance(h, v, p), TypeDistance(h, w, q);
            Score(h, [p, q], [], [v, w]) == if d.Some? && e.Some? then Some(2 * d.value + 2 * e.value) else None
  {
    hide TypeDistance;
    var params, views := [p, q], [v, w];
    assert |params| == 2 && params[0] == p && params[1] == q;
    var d, e := TypeDistance(h, v, p), TypeDistance(h, w, q);
    if d.Some? {
      if e.Some? {
        assert ScoreParams(h, params, [], views, 2, 2 * d.value + 2 * e.value) == Some(2 * d.value + 2 * e.value);
      }
      assert ScoreParams(h, params, [], views, 1, 2 * d.value) == if e.Some? then Some(2 * d.value + 2 * e.value) else None;
    }
  }

  lemma GadgetDistances(h: Heap, g: Gadget, b: Heap)
    requires FitsIn(h, g) && b.classes == GadgetHeap(h, g).classes && g.near !in b.globals
    ensures var v, w := GadgetViews(g)[0], GadgetViews(g)[1];
            && (TypeDistance(b, v, Plain(g.n)) == Some(0) <==> Matches(b, g.k, g.n))
            && TypeDistance(b, v, RivalHints(g)[0]) == Some(0)
            && TypeDistance(b, w, Plain("Class")) == Some(0)
            && TypeDistance(b, w, Plain(g.near)) == Some(1)
  {
    hide ChainDistance;
    AtOnce(b, g.k, g.n);
    NearIsOneHop(h, g, b);
  }

  lemma NearIsOneHop(h: Heap, g: Gadget, b: Heap)
    requires FitsIn(h, g) && b.classes == GadgetHeap(h, g).classes && g.near !in b.globals
    ensures ChainDistance(b, g.r, g.near, 0, {}) == Some(1)
  {
    var near := g.r + 1;
    assert b.classes[g.r].mixins == [] && b.classes[g.r].parent == Some(near);
    assert !Matches(b, g.r, g.near) && Matches(b, near, g.near) && !AnyMatches(b, [], g.near);
    assert ChainDistance(b, near, g.near, 1, {g.r}) == Some(1);
    assert {} + {g.r} == {g.r};
  }

  lemma GadgetFits(h: Heap, g: Gadget, b: Heap)
    requires FitsIn(h, g) && b.classes == GadgetHeap(h, g).classes && b.methods == GadgetHeap(h, g).methods && g.near !in b.globals
    ensures var fit := MatchScore(b, g.m, GadgetViews(g), NoGuards());
            fit == Inapplicable || (fit.Applies? && fit.rank.guard == 1 && 0 <= fit.rank.score && fit.rank.score != 1)
    ensures MatchScore(b, g.m, GadgetViews(g), NoGuards()) == Applies(Rank(0, 1)) <==> Matches(b, g.k, g.n)
    ensures MatchScore(b, g.m + 1, GadgetViews(g), NoGuards()) == Applies(Rank(if g.matched then 2 else 0, 1))
    ensures !Taints(b, g.m, GadgetViews(g)) && !Taints(b, g.m + 1, GadgetViews(g))
  {
    hide TypeDistance, Score, Matches;
    GadgetDistances(h, g, b);
    var v, w := GadgetViews(g)[0], GadgetViews(g)[1];
    TwoCosts(b, Plain(g.n), Plain("Class"), v, w);
    TwoCosts(b, RivalHints(g)[0], RivalHints(g)[1], v, w);
  }

  /** One or two variants: the lower score answers, and equal scores are ambiguous. */
  lemma TwoEntries(e: Entry, f: Entry)
    requires e.rank.guard == f.rank.guard == 1 && f.rank.score < I64_MAX
    ensures Select([f]) == Found(f.m)
    ensures Select([e, f]) == if e.rank.score < f.rank.score then Found(e.m)
                              else if f.rank.score < e.rank.score then Found(f.m) else Ambiguous
  {
    SelectSpec([f]);
    var es := [e, f];
    SelectSpec(es);
    if e.rank.score < f.rank.score {
      assert Below(es[0].rank, es[1].rank);
      assert !Lowest(es, 1);
    } else if f.rank.score < e.rank.score {
      assert Below(es[1].rank, es[0].rank);
      assert !Lowest(es, 0);
    } else {
      assert es[0].rank == es[1].rank && Lowest(es, 0);
    }
  }

  lemma TwoTally(h: Heap, m: MethodId, views: seq<View>, g: Guards)
    requires !Taints(h, m, views) && !Taints(h, m + 1, views)
    requires !MatchScore(h, m, views, g).Raised? && MatchScore(h, m + 1, views, g).Applies?
    ensures var fit, rival := MatchScore(h, m, views, g), Entry(m + 1, MatchScore(h, m + 1, views, g).rank);
            TallyUp(h, [m, m + 1], [], false, views, g)
            == Tally(if fit.Applies? then [Entry(m, fit.rank), rival] else [rival], false, false)
  {
    hide MatchScore, Taints;
    var fit := MatchScore(h, m, views, g);
    var rival := Entry(m + 1, MatchScore(h, m + 1, views, g).rank);
    var first := if fit.Applies? then [Entry(m, fit.rank)] else [];
    assert [] + [Entry(m, if fit.Applies? then fit.rank else Rank(0, 0))] == [Entry(m, if fit.Applies? then fit.rank else Rank(0, 0))];
    assert first + [rival] == if fit.Applies? then [Entry(m, fit.rank), rival] else [rival];
    assert [m, m + 1][1..] == [m + 1] && [m + 1][1..] == [];
    assert TallyUp(h, [m + 1], first, false, views, g) == TallyUp(h, [], first + [rival], false, views, g);
    assert TallyUp(h, [m, m + 1], [], false, views, g) == TallyUp(h, [m + 1], first, false, views, g);
  }

  /** The program answers one way as long as the name means the same for `k`, and
      another way once it does not. */
  lemma GadgetAnswer(h: Heap, g: Gadget, b: Heap)
    requires FitsIn(h, g) && b.classes == GadgetHeap(h, g).classes && b.methods == GadgetHeap(h, g).methods && g.near !in b.globals
    ensures var w := Walk(b, g.r, "m:", false, GadgetViews(g), NoGuards(), []).0;
            if Matches(b, g.k, g.n) == g.matched then w == WalkOut(Found(GadgetFound(g)), false)
            else w.outcome != Found(GadgetFound(g))
  {
    hide MatchScore, Matches, Taints, TallyUp, Select;
    GadgetFits(h, g, b);
    assert Candidates(b, g.r, "m:", false) == [g.m, g.m + 1];
    var fit := MatchScore(b, g.m, GadgetViews(g), NoGuards());
    var rival := Entry(g.m + 1, MatchScore(b, g.m + 1, GadgetViews(g), NoGuards()).rank);
    TwoTally(b, g.m, GadgetViews(g), NoGuards());
    TwoEntries(Entry(g.m, if fit.Applies? then fit.rank else Rank(0, 1)), rival);
  }
}
