/** The method-resolution cache under re-entrant guards (src/dispatch.rs:497-807).
    A guard runs arbitrary code in the middle of a walk: it may send (and so look
    up again), define methods, or let the collector run.  One execution of all
    the guards of a lookup is a finite tree, a `script`; the methods below are
    correct for every script. */
module DispatchCache {
  import opened Wrappers
  import opened ClassGraph
  import opened Dispatch
  import opened DispatchTransfer

  // ---- Heaps and what the collector may drop -----------------------------------

  /** A slot of the VM stack that keeps something alive. */
  datatype Root = MethodRoot(m: MethodId) | ClassRoot(c: Addr) | ValueRoot(v: Value)

  predicate RootLive(h: Heap, r: Root) {
    match r
    case MethodRoot(m) => m in h.methods
    case ClassRoot(c) => c in h.classes
    case ValueRoot(Object(id)) => id in h.objects
    case ValueRoot(ClassValue(c)) => c in h.classes
    case ValueRoot(MetaValue(c)) => c in h.classes
    case ValueRoot(_) => true
  }

  predicate ChainsLive(h: Heap, table: map<Selector, seq<MethodId>>) {
    forall s <- table.Keys :: forall i | 0 <= i < |table[s]| :: table[s][i] in h.methods
  }

  predicate ClassLive(h: Heap, c: Addr)
    requires c in h.classes
  {
    && (forall i | 0 <= i < |Edges(h, c)| :: Edges(h, c)[i] in h.classes)
    && ChainEnds(h, c, {})
    && ChainsLive(h, h.classes[c].instanceMethods)
    && ChainsLive(h, h.classes[c].classMethods)
  }

  /** No dangling address, and parent chains end. */
  predicate WellFormed(h: Heap) {
    && (forall c <- h.classes.Keys :: ClassLive(h, c))
    && (forall o <- h.objects.Keys :: h.objects[o].clz in h.classes)
    && (forall n <- h.globals.Keys :: h.globals[n] in h.classes)
    && (forall b <- h.builtins.Keys :: h.builtins[b] in h.classes)
  }

  /** Whatever code runs, what is on the VM stack stays. */
  predicate KeepsRoots(h: Heap, stack: seq<Root>) {
    forall i | 0 <= i < |stack| :: RootLive(h, stack[i])
  }

  /** A heap change that need not invalidate the cache: allocation, a value
      moving to an eigenclass, an eigenclass being collected and its address
      reused, a new class.  `kept` is what survives with its tables unchanged:
      all named classes, closed under the walk's edges, each matching the same
      type hints as before. */
  predicate QuietChange(h: Heap, h': Heap, kept: set<Addr>) {
    && (forall c <- h.classes.Keys :: !h.classes[c].eigen ==> c in kept)
    && (forall c <- kept ::
          && c in h.classes && c in h'.classes && h.classes[c] == h'.classes[c]
          && (forall i | 0 <= i < |Edges(h, c)| :: Edges(h, c)[i] in kept))
    && (forall m <- h.methods.Keys :: m in h'.methods && h'.methods[m] == h.methods[m])
    && HintsKept(h, h', kept)
  }

  predicate HintsKept(h: Heap, h': Heap, kept: set<Addr>) {
    forall n <- h.globals.Keys + h'.globals.Keys :: forall c <- kept :: Matches(h, c, n) == Matches(h', c, n)
  }

  lemma QuietAgrees(h: Heap, h': Heap, kept: set<Addr>)
    requires WellFormed(h) && QuietChange(h, h', kept)
    ensures Agree(h, h', kept)
  {
    forall c <- kept, hint: Name ensures Matches(h, c, hint) == Matches(h', c, hint) {
      if hint in h.globals.Keys + h'.globals.Keys {
      } else {
        assert hint !in h.globals && hint !in h'.globals;
      }
    }
    forall c <- kept, sel: Selector, side: bool, i | 0 <= i < |Candidates(h, c, sel, side)|
      ensures BodyOf(h, Candidates(h, c, sel, side)[i]) == BodyOf(h', Candidates(h, c, sel, side)[i])
    {
      CandidatesLive(h, c, sel, side);
    }
  }

  lemma CandidatesLive(h: Heap, c: Addr, sel: Selector, side: bool)
    requires WellFormed(h) && c in h.classes
    ensures forall i :: 0 <= i < |Candidates(h, c, sel, side)| ==> Candidates(h, c, sel, side)[i] in h.methods
  {
    assert ClassLive(h, c);
  }

  lemma SelfAgrees(h: Heap)
    requires WellFormed(h)
    ensures Agree(h, h, h.classes.Keys)
  {
    forall c <- h.classes.Keys, i | 0 <= i < |Edges(h, c)| ensures Edges(h, c)[i] in h.classes.Keys {
      assert ClassLive(h, c);
    }
  }

  // ---- Cache keys -----------------------------------------------------------------

  const MAX_ARGS: nat := 4

  datatype Key = Key(
    clz: Addr, sel: Selector, side: bool, nArgs: nat, argPtrs: seq<Addr>, argKinds: seq<nat>)

  predicate Named(h: Heap, c: Addr) {
    c in h.classes && !h.classes[c].eigen
  }

  predicate Keyable(h: Heap, v: View) {
    v.clz.Some? && Named(h, v.clz.value)
  }

  /** None when an eigenclass or a value with no dispatch class is involved, or
      there are more arguments than the key encodes. */
  function KeyOf(h: Heap, c: Addr, sel: Selector, side: bool, views: seq<View>): Option<Key> {
    if |views| <= MAX_ARGS && Named(h, c) && forall i :: 0 <= i < |views| ==> Keyable(h, views[i]) then
      Some(Key(c, sel, side, |views|,
               seq(MAX_ARGS, i requires 0 <= i => if i < |views| then views[i].clz.value else 0),
               seq(MAX_ARGS, i requires 0 <= i => if i < |views| then views[i].kind else 0)))
    else None
  }

  /** Which lookups have a key: with at most four arguments, where neither the class
      searched nor the class of an argument is an eigenclass. */
  lemma KeyGivenIff(h: Heap, c: Addr, sel: Selector, side: bool, views: seq<View>)
    ensures KeyOf(h, c, sel, side, views).Some? <==>
              && |views| <= 4 && c in h.classes && !h.classes[c].eigen
              && forall i :: 0 <= i < |views| ==>
                   views[i].clz.Some? && views[i].clz.value in h.classes && !h.classes[views[i].clz.value].eigen
  {
    if KeyOf(h, c, sel, side, views).Some? {
      forall i | 0 <= i < |views| ensures views[i].clz.Some? && views[i].clz.value in h.classes && !h.classes[views[i].clz.value].eigen {
        assert Keyable(h, views[i]);
      }
    }
  }

  /** Equal keys mean the same searched class, selector and side, and arguments
      of pairwise equal kind and class. */
  lemma KeyInjective(h: Heap, c: Addr, sel: Selector, side: bool, views: seq<View>,
                     h': Heap, c': Addr, sel': Selector, side': bool, views': seq<View>)
    requires KeyOf(h, c, sel, side, views).Some?
    requires KeyOf(h, c, sel, side, views) == KeyOf(h', c', sel', side', views')
    ensures c == c' && sel == sel' && side == side' && |views| == |views'|
    ensures forall i :: 0 <= i < |views| ==> views[i].kind == views'[i].kind && views[i].clz == views'[i].clz
  {
    var k, k' := KeyOf(h, c, sel, side, views).value, KeyOf(h', c', sel', side', views').value;
    assert k.nArgs == |views| && k'.nArgs == |views'|;
    forall i | 0 <= i < |views|
      ensures views[i].kind == views'[i].kind && views[i].clz == views'[i].clz
    {
      assert Keyable(h, views[i]) && Keyable(h', views'[i]);
      assert k.argPtrs[i] == views[i].clz.value && k'.argPtrs[i] == views'[i].clz.value;
      assert k.argKinds[i] == views[i].kind && k'.argKinds[i] == views'[i].kind;
    }
  }

  /** src/dispatch.rs:513-549. */
  method KeyLoop(h: Heap, c: Addr, sel: Selector, side: bool, views: seq<View>) returns (key: Option<Key>)
    requires c in h.classes
    ensures key == KeyOf(h, c, sel, side, views)
  {
    if |views| > MAX_ARGS || h.classes[c].eigen {
      return None;
    }
    var argPtrs, argKinds := [0, 0, 0, 0], [0, 0, 0, 0];
    for i := 0 to |views|
      invariant |argPtrs| == MAX_ARGS && |argKinds| == MAX_ARGS
      invariant forall j :: 0 <= j < i ==> Keyable(h, views[j]) && argPtrs[j] == views[j].clz.value && argKinds[j] == views[j].kind
      invariant forall j :: i <= j < MAX_ARGS ==> argPtrs[j] == 0 && argKinds[j] == 0
    {
      if !Keyable(h, views[i]) {
        return None;
      }
      argPtrs, argKinds := argPtrs[i := views[i].clz.value], argKinds[i := views[i].kind];
    }
    key := Some(Key(c, sel, side, |views|, argPtrs, argKinds));
    var spec := KeyOf(h, c, sel, side, views).value;
    assert spec.argPtrs == argPtrs && spec.argKinds == argKinds;
  }

  // ---- Coherence --------------------------------------------------------------------

  function NoGuards(): Guards {
    (m: MethodId) => Throws
  }

  function Answer(cached: Option<MethodId>): Outcome {
    if cached.None? then NotFound else Found(cached.value)
  }

  /** The addresses of a key belong to named classes. */
  ghost predicate KeyLive(h: Heap, k: Key) {
    && Named(h, k.clz)
    && forall i :: 0 <= i < k.nArgs && i < |k.argPtrs| ==> Named(h, k.argPtrs[i])
  }

  /** An entry answers as a fresh uncached walk over `h` would. */
  ghost predicate EntryFresh(h: Heap, cached: Option<MethodId>, c: Addr, sel: Selector, side: bool, views: seq<View>) {
    Walk(h, c, sel, side, views, NoGuards(), []).0 == WalkOut(Answer(cached), false)
  }

  /** Every entry is fresh for every lookup that has its key, whatever the
      argument identities and element tags. */
  ghost predicate Coherent(h: Heap, cache: map<Key, Option<MethodId>>) {
    && (forall k <- cache :: KeyLive(h, k))
    && (forall c: Addr, sel: Selector, side: bool, views: seq<View> {:trigger KeyOf(h, c, sel, side, views)} ::
          KeyOf(h, c, sel, side, views).Some? && KeyOf(h, c, sel, side, views).value in cache ==>
            EntryFresh(h, cache[KeyOf(h, c, sel, side, views).value], c, sel, side, views))
  }

  /** Key sufficiency: one untainted walk settles every lookup with its key. */
  lemma KeySufficient(h: Heap, c: Addr, sel: Selector, side: bool, views: seq<View>, c': Addr, sel': Selector, side': bool, views': seq<View>, g: Guards)
    requires WellFormed(h) && KeyOf(h, c, sel, side, views).Some?
    requires KeyOf(h, c, sel, side, views) == KeyOf(h, c', sel', side', views')
    requires !Walk(h, c, sel, side, views, g, []).0.tainted
    ensures c' == c && sel' == sel && side' == side
    ensures Walk(h, c, sel, side, views', NoGuards(), []).0 == Walk(h, c, sel, side, views, g, []).0
  {
    KeyInjective(h, c, sel, side, views, h, c', sel', side', views');
    SelfAgrees(h);
    forall i | 0 <= i < |views| ensures views[i].clz.Some? && views[i].clz.value in h.classes.Keys {
      assert Keyable(h, views[i]);
    }
    WalkUntainted(h, c, sel, side, views, g, NoGuards());
    WalkAgrees(h, h, h.classes.Keys, c, sel, side, views, views', NoGuards());
  }

  lemma InsertCoherent(h: Heap, cache: map<Key, Option<MethodId>>, c: Addr, sel: Selector, side: bool, views: seq<View>,
                       g: Guards, r: Option<MethodId>)
    requires WellFormed(h) && Coherent(h, cache) && KeyOf(h, c, sel, side, views).Some?
    requires Walk(h, c, sel, side, views, g, []).0 == WalkOut(Answer(r), false)
    ensures Coherent(h, cache[KeyOf(h, c, sel, side, views).value := r])
  {
    var k := KeyOf(h, c, sel, side, views).value;
    var cache' := cache[k := r];
    forall i | 0 <= i < k.nArgs ensures Named(h, k.argPtrs[i]) {
      assert Keyable(h, views[i]);
    }
    forall c': Addr, sel': Selector, side': bool, views': seq<View> {:trigger KeyOf(h, c', sel', side', views')}
      | KeyOf(h, c', sel', side', views').Some? && KeyOf(h, c', sel', side', views').value in cache'
      ensures EntryFresh(h, cache'[KeyOf(h, c', sel', side', views').value], c', sel', side', views')
    {
      if KeyOf(h, c', sel', side', views').value == k {
        KeySufficient(h, c, sel, side, views, c', sel', side', views', g);
      }
    }
  }

  /** Reusing the address of a collected eigenclass, and every other quiet
      change, leaves every entry fresh: no entry was keyed on an eigenclass. */
  lemma QuietKeepsCoherent(h: Heap, h': Heap, kept: set<Addr>, cache: map<Key, Option<MethodId>>)
    requires WellFormed(h) && Coherent(h, cache) && QuietChange(h, h', kept)
    ensures Coherent(h', cache)
  {
    QuietAgrees(h, h', kept);
    forall k <- cache ensures KeyLive(h', k) {
      assert KeyLive(h, k);
    }
    forall c: Addr, sel: Selector, side: bool, views: seq<View> {:trigger KeyOf(h', c, sel, side, views)}
      | KeyOf(h', c, sel, side, views).Some? && KeyOf(h', c, sel, side, views).value in cache
      ensures EntryFresh(h', cache[KeyOf(h', c, sel, side, views).value], c, sel, side, views)
    {
      var k := KeyOf(h', c, sel, side, views).value;
      assert KeyLive(h, k) && k.clz == c;
      forall i | 0 <= i < |views|
        ensures Keyable(h, views[i]) && views[i].clz.value in kept
      {
        assert Keyable(h', views[i]) && k.argPtrs[i] == views[i].clz.value;
      }
      assert KeyOf(h, c, sel, side, views) == Some(k);
      assert EntryFresh(h, cache[k], c, sel, side, views);
      WalkAgrees(h, h', kept, c, sel, side, views, views, NoGuards());
    }
  }
}
