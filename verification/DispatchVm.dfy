/** The lookup methods of the VM, which change the cache, the `uncacheable`
    flag and the VM stack in place while guards run (src/dispatch.rs:497-730). */
module DispatchVm {
  import opened Wrappers
  import opened ClassGraph
  import opened Dispatch
  import opened DispatchTransfer
  import opened DispatchCache
  import opened DispatchSame

  /** One run of a guard: what it does, what it leaves on the VM stack (a guard
      that fails leaves its temporaries there), and what it answers. */
  datatype GuardRun = GuardRun(acts: seq<Act>, left: seq<Root>, verdict: Verdict)

  datatype Act =
    | Redefine(heap: Heap)                     // a change that invalidates the cache
    | Quiet(heap: Heap, kept: set<Addr>)       // a change that does not
    | Grow(heap: Heap, kept: set<Addr>)        // one that keeps what the stack leads to
    | Send(receiver: Value, clz: Addr, sel: Selector, side: bool, args: seq<Value>, script: seq<GuardRun>)

  function ScriptSize(script: seq<GuardRun>): nat
    decreases script
  {
    if script == [] then 0 else 1 + ActsSize(script[0].acts) + ScriptSize(script[1..])
  }

  function ActsSize(acts: seq<Act>): nat
    decreases acts
  {
    if acts == [] then 0 else 1 + ActSize(acts[0]) + ActsSize(acts[1..])
  }

  function ActSize(act: Act): nat
    decreases act
  {
    if act.Send? then ScriptSize(act.script) else 0
  }

  function MethodRoots(ms: seq<MethodId>): (r: seq<Root>)
    ensures |r| == |ms| && forall i :: 0 <= i < |ms| ==> r[i] == MethodRoot(ms[i])
  {
    seq(|ms|, i requires 0 <= i < |ms| => MethodRoot(ms[i]))
  }

  function ClassRoots(cs: seq<Addr>): (r: seq<Root>)
    ensures |r| == |cs| && forall i :: 0 <= i < |cs| ==> r[i] == ClassRoot(cs[i])
  {
    seq(|cs|, i requires 0 <= i < |cs| => ClassRoot(cs[i]))
  }

  function ValueRoots(vs: seq<Value>): (r: seq<Root>)
    ensures |r| == |vs| && forall i :: 0 <= i < |vs| ==> r[i] == ValueRoot(vs[i])
  {
    seq(|vs|, i requires 0 <= i < |vs| => ValueRoot(vs[i]))
  }

  ghost predicate Rooted(roots: seq<Root>, stack: seq<Root>) {
    forall i :: 0 <= i < |roots| ==> roots[i] in stack
  }

  function Drop(script: seq<GuardRun>, n: nat): seq<GuardRun> {
    if n <= |script| then script[n..] else []
  }

  lemma NothingDropped(script: seq<GuardRun>)
    ensures Drop(script, 0) == script
    ensures script == [] ==> forall n: nat :: Drop(script, n) == []
  {
  }

  lemma {:induction false} DropShrinks(script: seq<GuardRun>, n: nat)
    ensures ScriptSize(Drop(script, n)) <= ScriptSize(script)
    ensures n > 0 && script != [] ==> ScriptSize(Drop(script, n)) < ScriptSize(script)
    ensures script == [] ==> Drop(script, n) == []
    decreases n
  {
    if n > 0 && script != [] {
      DropShrinks(script[1..], n - 1);
      assert Drop(script, n) == Drop(script[1..], n - 1);
    }
  }

  /** Acts that redefine nothing: growth and collection, and sends whose own guards do
      the same. */
  predicate GentleAct(act: Act)
    decreases act
  {
    act.Grow? || (act.Send? && GentleScript(act.script))
  }

  predicate GentleActs(acts: seq<Act>)
    decreases acts
  {
    forall i :: 0 <= i < |acts| ==> GentleAct(acts[i])
  }

  predicate GentleScript(script: seq<GuardRun>)
    decreases script
  {
    forall i :: 0 <= i < |script| ==> GentleActs(script[i].acts)
  }

  /** The first `n` guard runs redefine nothing. */
  predicate Mild(script: seq<GuardRun>, n: nat) {
    forall i :: 0 <= i < n && i < |script| ==> GentleActs(script[i].acts)
  }

  /** The guards of `ran`, in order, redefined nothing and answered as `g` does. */
  ghost predicate Calm(script: seq<GuardRun>, ran: seq<MethodId>, g: Guards) {
    |ran| <= |script| && Mild(script, |ran|) && forall i :: 0 <= i < |ran| ==> script[i].verdict == g(ran[i])
  }

  lemma CalmIsMild(script: seq<GuardRun>, ran: seq<MethodId>, g: Guards)
    ensures Calm(script, ran, g) ==> Mild(script, |ran|)
    ensures Calm(script, [], g) && Mild(script, 0)
  {
  }

  lemma GentleIsMild(script: seq<GuardRun>, n: nat)
    requires GentleScript(script)
    ensures Mild(script, n)
  {
  }

  lemma MildAppend(script: seq<GuardRun>, a: nat, b: nat)
    ensures Drop(script, a + b) == Drop(Drop(script, a), b)
    ensures Mild(script, a + b) <==> Mild(script, a) && Mild(Drop(script, a), b)
  {
    hide GentleActs;
    if a <= |script| {
      var rest := Drop(script, a);
      if Mild(script, a) && Mild(rest, b) {
        forall i | 0 <= i < a + b && i < |script| ensures GentleActs(script[i].acts) {
          assert i >= a ==> rest[i - a] == script[i];
        }
      }
      if Mild(script, a + b) {
        forall i | 0 <= i < b && i < |rest| ensures GentleActs(rest[i].acts) {
          assert rest[i] == script[a + i];
        }
      }
    }
  }

  lemma CalmAppend(script: seq<GuardRun>, ran: seq<MethodId>, more: seq<MethodId>, g: Guards)
    ensures Drop(script, |ran + more|) == Drop(Drop(script, |ran|), |more|)
    ensures Mild(script, |ran + more|) <==> Mild(script, |ran|) && Mild(Drop(script, |ran|), |more|)
    ensures Calm(script, ran + more, g) <==> Calm(script, ran, g) && Calm(Drop(script, |ran|), more, g)
  {
    hide Mild;
    MildAppend(script, |ran|, |more|);
    if |ran| <= |script| {
      var rest := Drop(script, |ran|);
      forall i | 0 <= i < |more| && |ran + more| <= |script|
        ensures rest[i] == script[|ran| + i] && (ran + more)[|ran| + i] == more[i]
      {
      }
      if Calm(script, ran + more, g) {
        forall i | 0 <= i < |ran| ensures script[i].verdict == g(ran[i]) {
          assert (ran + more)[i] == ran[i];
        }
        forall i | 0 <= i < |more| ensures rest[i].verdict == g(more[i]) {
          assert script[|ran| + i].verdict == g((ran + more)[|ran| + i]);
        }
      }
    }
  }

  /** The heap, stack and arguments that an operation began with. */
  ghost predicate Begun(h: Heap, base: seq<Root>, args: seq<Value>) {
    WellFormed(h) && KeepsRoots(h, base) && Rooted(ValueRoots(args), base)
  }

  class Vm {
    var heap: Heap
    var cache: map<Key, Option<MethodId>>
    var epoch: nat
    var uncacheable: bool
    var stack: seq<Root>

    ghost predicate Valid()
      reads this
    {
      WellFormed(heap) && KeepsRoots(heap, stack) && Coherent(heap, cache)
    }

    constructor ()
      ensures Valid()
    {
      heap := Heap(map[], map[], map[], map[], map[]);
      cache := map[];
      epoch := 0;
      uncacheable := false;
      stack := [];
    }

    /** src/dispatch.rs:503-508: the epoch is a 64-bit counter that wraps. */
    method InvalidateMethodCache()
      modifies `cache, `epoch
      ensures cache == map[] && epoch == (old(epoch) + 1) % 0x1_0000_0000_0000_0000
    {
      cache := map[];
      epoch := (epoch + 1) % 0x1_0000_0000_0000_0000;
    }

    /** Everything one guard run does.  Whatever any active walk will still
        follow, `pending`, is on the stack while it runs, so it outlives it. */
    method RunActs(acts: seq<Act>, ghost pending: seq<Root>)
      requires Valid() && Rooted(pending, stack)
      modifies this
      decreases ActsSize(acts), 5, 1
      ensures Valid() && stack == old(stack) && uncacheable == old(uncacheable)
      ensures acts == [] ==> heap == old(heap)
      ensures GentleActs(acts) ==> Same(old(heap), heap, stack)
    {
      hide WellFormed, KeepsRoots, Coherent, Same, GentleAct, Rooted;
      SameSelf(heap, stack);
      for i := 0 to |acts|
        invariant ActsSize(acts[i..]) <= ActsSize(acts)
        invariant Valid() && stack == old(stack) && uncacheable == old(uncacheable)
        invariant i == 0 ==> heap == old(heap)
        invariant GentleActs(acts) ==> Same(old(heap), heap, stack)
      {
        assert acts[i..][0] == acts[i] && acts[i..][1..] == acts[i + 1..];
        ghost var h := heap;
        RunAct(acts[i], pending);
        if GentleActs(acts) {
          assert GentleAct(acts[i]);
          SameTransitive(old(heap), h, heap, stack);
        }
      }
    }

    method RunAct(act: Act, ghost pending: seq<Root>)
      requires Valid() && Rooted(pending, stack)
      modifies this
      decreases ActSize(act), 5, 0
      ensures Valid() && stack == old(stack) && uncacheable == old(uncacheable)
      ensures GentleAct(act) ==> Same(old(heap), heap, stack)
    {
      hide Same, Rooted;
      SameSelf(heap, stack);
      match act
      case Redefine(h) =>
        if WellFormed(h) && KeepsRoots(h, stack) {
          heap := h;
          InvalidateMethodCache();
        }
      case Quiet(h, kept) =>
        if WellFormed(h) && KeepsRoots(h, stack) && QuietChange(heap, h, kept) {
          QuietKeepsCoherent(heap, h, kept, cache);
          heap := h;
        }
      case Grow(h, kept) =>
        if WellFormed(h) && KeepsRoots(h, stack) && QuietChange(heap, h, kept) && Covers(heap, stack, kept) && SameViews(heap, h, stack) {
          QuietKeepsCoherent(heap, h, kept, cache);
          QuietIsSame(heap, h, stack, kept);
          heap := h;
        }
      case Send(receiver, clz, sel, side, args, script) =>
        SendFrom(receiver, clz, sel, side, args, script, pending);
    }

    /** A send made by a guard: its own frame roots the class and the values. */
    method SendFrom(receiver: Value, clz: Addr, sel: Selector, side: bool, args: seq<Value>, script: seq<GuardRun>, ghost pending: seq<Root>)
      requires Valid() && Rooted(pending, stack)
      modifies this
      decreases ScriptSize(script), 4, 1
      ensures Valid() && stack == old(stack) && uncacheable == old(uncacheable)
      ensures GentleScript(script) ==> Same(old(heap), heap, stack)
    {
      hide Same, GentleScript, Mild;
      SameSelf(heap, stack);
      var frame := [ClassRoot(clz), ValueRoot(receiver)] + ValueRoots(args);
      if KeepsRoots(heap, frame) {
        var base := |stack|;
        FrameRooted(frame, ValueRoots(args), pending, stack);
        stack := stack + frame;
        var _, ran := Lookup(clz, receiver, sel, side, args, script, NoGuards(), pending);
        if GentleScript(script) {
          GentleIsMild(script, |ran|);
          SameBelow(old(heap), heap, old(stack), stack);
        }
        stack := stack[..base];
      }
    }

    /** Run the guard of `m`; an exhausted script stands for a guard that never
        answers. */
    method RunGuard(script: seq<GuardRun>, ghost pending: seq<Root>) returns (verdict: Verdict, rest: seq<GuardRun>)
      requires Valid() && Rooted(pending, stack)
      modifies this
      decreases ScriptSize(script), 0
      ensures Valid() && old(stack) <= stack && uncacheable == old(uncacheable)
      ensures rest == Drop(script, 1)
      ensures script == [] ==> heap == old(heap)
      ensures script != [] ==> verdict == script[0].verdict
      ensures Mild(script, 1) ==> Same(old(heap), heap, old(stack))
    {
      hide Same, GentleActs;
      if script == [] {
        SameSelf(heap, stack);
        return Throws, [];
      }
      RunActs(script[0].acts, pending);
      if KeepsRoots(heap, script[0].left) {
        stack := stack + script[0].left;
      }
      verdict, rest := script[0].verdict, script[1..];
    }

    /** src/dispatch.rs:745-807. */
    method MatchOne(m: MethodId, args: seq<Value>, script: seq<GuardRun>, ghost g: Guards, ghost pending: seq<Root>)
      returns (fit: Fit, rest: seq<GuardRun>, ghost ran: seq<MethodId>)
      requires Valid() && m in heap.methods && Rooted(pending, stack)
      modifies this
      decreases ScriptSize(script), 1
      ensures Valid() && old(stack) <= stack
      ensures rest == Drop(script, |ran|)
      ensures ran == [] || script == [] ==> heap == old(heap)
      ensures uncacheable == (old(uncacheable) || Taints(old(heap), m, ViewsOf(old(heap), args)))
      ensures !Taints(old(heap), m, ViewsOf(old(heap), args)) ==> ran == []
      ensures Mild(script, |ran|) ==> Same(old(heap), heap, old(stack))
      ensures Calm(script, ran, g) ==> fit == MatchScore(old(heap), m, ViewsOf(old(heap), args), g)
    {
      hide Same, Mild, WellFormed, KeepsRoots, Coherent, Rooted;
      ran, rest := [], script;
      SameSelf(heap, stack);
      var views := ViewsOf(heap, args);
      match heap.methods[m]
      case TypedNative(params) =>
        var score := ScoreLoop(heap, params, [], views);
        fit := FitOf(score, 1);
      case UntypedNative =>
        fit := Applies(Rank(I64_MAX, 1));
      case Block(params, tags, guarded) =>
        if Tagged(tags) {
          uncacheable := true;
        }
        var score := ScoreLoop(heap, params, tags, views);
        if score.None? {
          return Inapplicable, script, [];
        }
        if !guarded {
          return FitOf(score, 1), script, [];
        }
        uncacheable := true;
        var verdict;
        ran := [m];
        verdict, rest := RunGuard(script, pending);
        fit := if verdict.Throws? then Raised else if verdict.Refuses? then Inapplicable else FitOf(score, 0);
    }

    /** One candidate of the loop below; `ran` lists the guards run so far, `h0` and
        `base` are the heap and the stack the loop began with. */
    method ScoreAt(cands: seq<MethodId>, i: nat, applicable: seq<Entry>, args: seq<Value>, ghost script: seq<GuardRun>, todo: seq<GuardRun>,
                   ghost ran: seq<MethodId>, ghost tainted: bool, ghost before: bool, ghost g: Guards, ghost pending: seq<Root>,
                   ghost h0: Heap, ghost base: seq<Root>)
      returns (applicable': seq<Entry>, raised: bool, rest: seq<GuardRun>, ghost ran': seq<MethodId>, ghost tainted': bool)
      requires Valid() && i < |cands| && Rooted(MethodRoots(cands) + pending, stack)
      requires base <= stack && Begun(h0, base, args) && cands[i] in h0.methods
      requires todo == Drop(script, |ran|) && uncacheable == (before || tainted)
      requires Mild(script, |ran|) ==> Same(h0, heap, base)
      requires Calm(script, ran, g) ==> TallyFrom(h0, cands, i, applicable, tainted, args, g)
      requires forall k :: 0 <= k < |applicable| ==> applicable[k].m in cands
      modifies this
      decreases ScriptSize(todo), 2, 0
      ensures Valid() && old(stack) <= stack
      ensures rest == Drop(script, |ran'|) && |ran| <= |ran'|
      ensures |ran'| == |ran| || todo == [] ==> heap == old(heap)
      ensures uncacheable == (before || tainted') && (tainted ==> tainted')
      ensures !tainted' ==> ran' == ran
      ensures forall k :: 0 <= k < |applicable'| ==> applicable'[k].m in cands
      ensures Mild(script, |ran'|) ==> Same(h0, heap, base)
      ensures Calm(script, ran', g) ==>
                && Calm(script, ran, g)
                && if raised then
                     TallyUp(h0, cands, [], false, ViewsOf(h0, args), g) == Tally(applicable', true, tainted')
                   else
                     TallyFrom(h0, cands, i + 1, applicable', tainted', args, g)
    {
      hide Calm, Mild, Same, WellFormed, KeepsRoots, Coherent, Begun, TallyFrom, TallyUp, Rooted, MatchScore, Taints;
      var m := cands[i];
      PendingRooted(cands, pending, stack, i);
      StackLive(heap, stack, m);
      ghost var h1 := heap;
      tainted' := tainted || Taints(heap, m, ViewsOf(heap, args));
      ghost var more;
      var fit;
      fit, rest, more := MatchOne(m, args, todo, g, MethodRoots(cands[i + 1..]) + pending);
      CalmAppend(script, ran, more, g);
      ran', raised := ran + more, fit.Raised?;
      applicable' := if fit.Applies? then applicable + [Entry(m, fit.rank)] else applicable;
      if Mild(script, |ran'|) {
        SameBelow(h1, heap, base, old(stack));
        SameTransitive(h0, h1, heap, base);
      }
      if Calm(script, ran', g) {
        CalmIsMild(script, ran, g);
        FitFrom(h0, h1, base, m, args, g);
        TallyStep(h0, cands, i, applicable, tainted, args, g);
      }
    }

    /** One class's variants, scored in chain order. */
    method ScoreCandidates(cands: seq<MethodId>, args: seq<Value>, script: seq<GuardRun>, ghost g: Guards, ghost pending: seq<Root>)
      returns (applicable: seq<Entry>, raised: bool, rest: seq<GuardRun>, ghost ran: seq<MethodId>, ghost tainted: bool)
      requires Valid() && Rooted(MethodRoots(cands) + pending, stack) && Rooted(ValueRoots(args), stack)
      modifies this
      decreases ScriptSize(script), 2, 1
      ensures Valid() && old(stack) <= stack
      ensures rest == Drop(script, |ran|)
      ensures ran == [] || script == [] ==> heap == old(heap)
      ensures uncacheable == (old(uncacheable) || tainted)
      ensures !tainted ==> ran == []
      ensures forall k :: 0 <= k < |applicable| ==> applicable[k].m in cands
      ensures Mild(script, |ran|) ==> Same(old(heap), heap, old(stack))
      ensures Calm(script, ran, g) ==>
                TallyUp(old(heap), cands, [], false, ViewsOf(old(heap), args), g) == Tally(applicable, raised, tainted)
    {
      hide Calm, Mild, Same, WellFormed, KeepsRoots, Coherent, Rooted, TallyFrom, TallyUp, Drop;
      applicable, raised, rest, ran, tainted := [], false, script, [], false;
      SameSelf(heap, stack);
      NothingDropped(script);
      CandidatesBegun(heap, cands, pending, stack);
      TallyStarts(heap, cands, args, g);
      var i := 0;
      while i < |cands|
        invariant i <= |cands| && !raised
        invariant Valid() && old(stack) <= stack
        invariant rest == Drop(script, |ran|)
        invariant ran == [] || script == [] ==> heap == old(heap)
        invariant uncacheable == (old(uncacheable) || tainted)
        invariant !tainted ==> ran == []
        invariant forall k :: 0 <= k < |applicable| ==> applicable[k].m in cands
        invariant Mild(script, |ran|) ==> Same(old(heap), heap, old(stack))
        invariant Calm(script, ran, g) ==> TallyFrom(old(heap), cands, i, applicable, tainted, args, g)
        decreases |cands| - i
      {
        DropShrinks(script, |ran|);
        RootedAbove(MethodRoots(cands) + pending, old(stack), stack);
        applicable, raised, rest, ran, tainted :=
          ScoreAt(cands, i, applicable, args, script, rest, ran, tainted, old(uncacheable), g, pending, old(heap), old(stack));
        if raised {
          return;
        }
        i := i + 1;
      }
      TallyEnds(old(heap), cands, applicable, tainted, args, g);
    }

    /** Scoring, then the mixins, then the parent: the caller has put all of
        them on the stack. */
    method ResolveInClass(sel: Selector, side: bool, args: seq<Value>, visited: seq<Addr>, clz: Addr, cands: seq<MethodId>,
                          es: seq<Addr>, script: seq<GuardRun>, ghost g: Guards, ghost pending: seq<Root>)
      returns (result: Outcome, visited': seq<Addr>, rest: seq<GuardRun>, ghost ran: seq<MethodId>)
      requires Valid() && clz in heap.classes && clz !in visited
      requires cands == Candidates(heap, clz, sel, side) && es == Edges(heap, clz)
      requires Rooted(MethodRoots(cands) + (ClassRoots(es) + (ValueRoots(args) + pending)), stack)
      modifies this
      decreases ScriptSize(script), 3, Unvisited(heap, visited + [clz]), 3
      ensures Valid() && old(stack) <= stack
      ensures rest == Drop(script, |ran|) && visited <= visited'
      ensures ran == [] || script == [] ==> heap == old(heap)
      ensures uncacheable || (!old(uncacheable) && ran == [])
      ensures result.Found? ==> result.m in heap.methods
      ensures Mild(script, |ran|) ==> Same(old(heap), heap, old(stack))
      ensures Calm(script, ran, g) ==>
                Walked(old(heap), clz, sel, side, args, g, visited, result, visited', old(uncacheable), uncacheable)
    {
      hide Calm, Mild, Same, WellFormed, KeepsRoots, Coherent, Rooted, Drop, Select, TallyUp, Walked, EdgesEnd;
      visited' := visited + [clz];
      SuffixRooted(MethodRoots(cands), ClassRoots(es) + (ValueRoots(args) + pending), stack);
      ValuesRooted(es, args, pending, stack);
      var applicable, raised, rest1, ran1, tainted := ScoreCandidates(cands, args, script, g, ClassRoots(es) + (ValueRoots(args) + pending));
      rest, ran := rest1, ran1;
      SelectSpec(applicable);
      result := if raised then GuardRaised else Select(applicable);
      if result != NotFound {
        if result.Found? {
          CandidateLive(heap, cands, ClassRoots(es) + (ValueRoots(args) + pending), old(stack), stack, result.m);
        }
        if Calm(script, ran, g) {
          AnsweredHere(old(heap), clz, sel, side, args, g, visited, result, old(uncacheable), tainted);
        }
        return;
      }
      RootedAbove(ClassRoots(es) + (ValueRoots(args) + pending), old(stack), stack);
      DropShrinks(script, |ran1|);
      ghost var h1, stack1 := heap, stack;
      ghost var ran2, taint2;
      result, visited', rest, ran2, taint2 := LookupEdges(es, sel, side, args, visited', rest, g, pending);
      CalmAppend(script, ran1, ran2, g);
      ran := ran1 + ran2;
      if Mild(script, |ran|) {
        SameBelow(h1, heap, old(stack), stack1);
        SameTransitive(old(heap), h1, heap, old(stack));
      }
      if Calm(script, ran, g) {
        CalmIsMild(script, ran1, g);
        EdgesRooted(es, ValueRoots(args) + pending, old(stack));
        AnsweredAbove(old(heap), h1, old(stack), clz, sel, side, args, g, visited, result, visited', old(uncacheable), tainted, taint2);
      }
    }

    /** One edge of the loop below; `ran` lists the guards run so far, `h0` is the
        heap the loop began with. */
    method LookupEdgeAt(es: seq<Addr>, j: nat, sel: Selector, side: bool, args: seq<Value>, ghost start: seq<Addr>, visited: seq<Addr>,
                        ghost script: seq<GuardRun>, todo: seq<GuardRun>, ghost ran: seq<MethodId>, ghost taint: bool,
                        ghost before: bool, ghost g: Guards, ghost pending: seq<Root>, ghost h0: Heap)
      returns (result: Outcome, visited': seq<Addr>, rest: seq<GuardRun>, ghost ran': seq<MethodId>, ghost taint': bool)
      requires Valid() && j < |es| && Rooted(ClassRoots(es) + (ValueRoots(args) + pending), stack)
      requires Begun(h0, stack, args)
      requires todo == Drop(script, |ran|)
      requires Mild(script, |ran|) ==> Same(h0, heap, stack)
      requires Calm(script, ran, g) ==>
                 uncacheable == (before || taint) && EdgesFrom(h0, es, j, sel, side, ViewsOf(h0, args), g, start, visited, taint)
      modifies this
      decreases ScriptSize(todo), 3, Unvisited(heap, visited), 1
      ensures Valid() && stack == old(stack) && visited <= visited'
      ensures rest == Drop(script, |ran'|) && |ran| <= |ran'|
      ensures |ran'| == |ran| || todo == [] ==> heap == old(heap)
      ensures uncacheable || (!old(uncacheable) && ran' == ran)
      ensures result.Found? ==> result.m in heap.methods
      ensures Mild(script, |ran'|) ==> Same(h0, heap, stack)
      ensures Calm(script, ran', g) ==>
                && Calm(script, ran, g) && uncacheable == (before || taint')
                && if result.NotFound? then
                     EdgesFrom(h0, es, j + 1, sel, side, ViewsOf(h0, args), g, start, visited', taint')
                   else
                     EdgesEnd(h0, es, sel, side, ViewsOf(h0, args), g, start, result, visited', taint')
    {
      hide Calm, Mild, Same, WellFormed, KeepsRoots, Coherent, Rooted, Begun, EdgesFrom, EdgesEnd, Walk;
      ghost var h1 := heap;
      EdgeRooted(es, args, pending, stack, j);
      ghost var more;
      result, visited', rest, more := LookupRec(es[j], sel, side, args, visited, todo, g, ClassRoots(es[j + 1..]) + pending);
      CalmAppend(script, ran, more, g);
      ran' := ran + more;
      taint' := taint || Walk(h1, es[j], sel, side, ViewsOf(h1, args), g, visited).0.tainted;
      if Mild(script, |ran'|) {
        SameTransitive(h0, h1, heap, stack);
      }
      if Calm(script, ran', g) {
        CalmIsMild(script, ran, g);
        EdgeRooted(es, args, pending, stack, j);
        WalkFrom(h0, h1, stack, es[j], sel, side, args, g, visited);
        EdgesStep(h0, es, j, sel, side, ViewsOf(h0, args), g, start, visited, taint);
      }
    }

    /** src/dispatch.rs:715-729: each edge in turn until one answers. */
    method LookupEdges(es: seq<Addr>, sel: Selector, side: bool, args: seq<Value>, visited: seq<Addr>, script: seq<GuardRun>,
                       ghost g: Guards, ghost pending: seq<Root>)
      returns (result: Outcome, visited': seq<Addr>, rest: seq<GuardRun>, ghost ran: seq<MethodId>, ghost taint: bool)
      requires Valid() && Rooted(ClassRoots(es) + (ValueRoots(args) + pending), stack)
      modifies this
      decreases ScriptSize(script), 3, Unvisited(heap, visited), 2
      ensures Valid() && stack == old(stack)
      ensures rest == Drop(script, |ran|) && visited <= visited'
      ensures ran == [] || script == [] ==> heap == old(heap)
      ensures uncacheable || (!old(uncacheable) && ran == [])
      ensures result.Found? ==> result.m in heap.methods
      ensures Mild(script, |ran|) ==> Same(old(heap), heap, stack)
      ensures Calm(script, ran, g) ==>
                && uncacheable == (old(uncacheable) || taint)
                && EdgesEnd(old(heap), es, sel, side, ViewsOf(old(heap), args), g, visited, result, visited', taint)
    {
      hide Calm, Mild, Same, WellFormed, KeepsRoots, Coherent, Rooted, EdgesFrom, EdgesEnd, Drop;
      result, visited', rest, ran, taint := NotFound, visited, script, [], false;
      EdgesStart(heap, es, sel, side, ViewsOf(heap, args), g, visited);
      NothingDropped(script);
      SameSelf(heap, stack);
      ValuesRooted(es, args, pending, stack);
      var j := 0;
      while j < |es|
        invariant j <= |es| && result == NotFound
        invariant Valid() && stack == old(stack)
        invariant rest == Drop(script, |ran|) && visited <= visited'
        invariant ran == [] || script == [] ==> heap == old(heap)
        invariant uncacheable || (!old(uncacheable) && ran == [])
        invariant Mild(script, |ran|) ==> Same(old(heap), heap, stack)
        invariant Calm(script, ran, g) ==>
                    && uncacheable == (old(uncacheable) || taint)
                    && EdgesFrom(old(heap), es, j, sel, side, ViewsOf(old(heap), args), g, visited, visited', taint)
        decreases |es| - j
      {
        UnvisitedShrinks(heap, visited, visited');
        DropShrinks(script, |ran|);
        result, visited', rest, ran, taint :=
          LookupEdgeAt(es, j, sel, side, args, visited, visited', script, rest, ran, taint, old(uncacheable), g, pending, old(heap));
        if result != NotFound {
          return;
        }
        j := j + 1;
      }
      if EdgesFrom(old(heap), es, |es|, sel, side, ViewsOf(old(heap), args), g, visited, visited', taint) {
        EdgesDone(old(heap), es, sel, side, ViewsOf(old(heap), args), g, visited, visited', taint);
      }
    }

    /** src/dispatch.rs:601-663. */
    method LookupRec(clz: Addr, sel: Selector, side: bool, args: seq<Value>, visited: seq<Addr>, script: seq<GuardRun>,
                     ghost g: Guards, ghost pending: seq<Root>)
      returns (result: Outcome, visited': seq<Addr>, rest: seq<GuardRun>, ghost ran: seq<MethodId>)
      requires Valid() && ClassRoot(clz) in stack && Rooted(ValueRoots(args) + pending, stack)
      modifies this
      decreases ScriptSize(script), 3, Unvisited(heap, visited), 0
      ensures Valid() && stack == old(stack)
      ensures rest == Drop(script, |ran|) && visited <= visited'
      ensures ran == [] || script == [] ==> heap == old(heap)
      ensures uncacheable || (!old(uncacheable) && ran == [])
      ensures result.Found? ==> result.m in heap.methods
      ensures Mild(script, |ran|) ==> Same(old(heap), heap, stack)
      ensures Calm(script, ran, g) ==>
                Walked(old(heap), clz, sel, side, args, g, visited, result, visited', old(uncacheable), uncacheable)
    {
      hide Calm, Mild, Same;
      SameSelf(heap, stack);
      if clz in visited {
        return NotFound, visited, script, [];
      }
      assert RootLive(heap, ClassRoot(clz));
      var found := heap.classes[clz];
      var table := if side then found.classMethods else found.instanceMethods;
      var cands := if sel in table then table[sel] else [];
      var es := found.mixins + (if found.parent.Some? then [found.parent.value] else []);
      UnvisitedDrops(heap, visited, clz);
      result, visited', rest, ran := RootAndResolve(sel, side, args, visited, clz, cands, es, script, g, pending);
    }

    /** src/dispatch.rs:639-662: a guard that reopens the class may drop its own
        references, so the copies held here go on the stack first.  Whatever guards
        leave above them goes with them. */
    method RootAndResolve(sel: Selector, side: bool, args: seq<Value>, visited: seq<Addr>, clz: Addr, cands: seq<MethodId>,
                          es: seq<Addr>, script: seq<GuardRun>, ghost g: Guards, ghost pending: seq<Root>)
      returns (result: Outcome, visited': seq<Addr>, rest: seq<GuardRun>, ghost ran: seq<MethodId>)
      requires Valid() && clz in heap.classes && clz !in visited
      requires cands == Candidates(heap, clz, sel, side) && es == Edges(heap, clz)
      requires Rooted(ValueRoots(args) + pending, stack)
      modifies this
      decreases ScriptSize(script), 3, Unvisited(heap, visited + [clz]), 4
      ensures Valid() && stack == old(stack)
      ensures rest == Drop(script, |ran|) && visited <= visited'
      ensures ran == [] || script == [] ==> heap == old(heap)
      ensures uncacheable || (!old(uncacheable) && ran == [])
      ensures result.Found? ==> result.m in heap.methods
      ensures Mild(script, |ran|) ==> Same(old(heap), heap, stack)
      ensures Calm(script, ran, g) ==>
                Walked(old(heap), clz, sel, side, args, g, visited, result, visited', old(uncacheable), uncacheable)
    {
      hide Calm, Mild, Same, WellFormed, KeepsRoots, Coherent, Rooted, Walked;
      var base := |stack|;
      PushKeeps(heap, clz, sel, side, stack);
      PushRooted(cands, es, ValueRoots(args) + pending, stack);
      stack := stack + (MethodRoots(cands) + ClassRoots(es));
      ghost var pushed := stack;
      result, visited', rest, ran := ResolveInClass(sel, side, args, visited, clz, cands, es, script, g, pending);
      if Mild(script, |ran|) {
        SameBelow(old(heap), heap, old(stack), pushed);
      }
      PopKeeps(heap, stack, base);
      stack := stack[..base];
      assert stack == old(stack);
    }

    /** src/dispatch.rs:551-594: probe the cache, else walk; remember the answer
        only if nothing in the walk could depend on argument values. */
    method Lookup(clz: Addr, receiver: Value, sel: Selector, side: bool, args: seq<Value>, script: seq<GuardRun>,
                  ghost g: Guards, ghost pending: seq<Root>)
      returns (result: Outcome, ghost ran: seq<MethodId>)
      requires Valid() && ClassRoot(clz) in stack && Rooted(ValueRoots(args) + pending, stack)
      modifies this
      decreases ScriptSize(script), 4, 0
      ensures Valid() && stack == old(stack) && uncacheable == old(uncacheable)
      ensures result.Found? ==> result.m in heap.methods
      ensures Mild(script, |ran|) ==> Same(old(heap), heap, stack)
      ensures Calm(script, ran, g) ==>
                var w := Walk(old(heap), clz, sel, side, ViewsOf(old(heap), args), g, []).0;
                result == w.outcome && Remembered(old(heap), cache, clz, sel, side, ViewsOf(old(heap), args), w)
      // A hit runs no guard and changes nothing.
      ensures var key := KeyOf(old(heap), clz, sel, side, ViewsOf(old(heap), args));
              key.Some? && key.value in old(cache) ==>
                ran == [] && heap == old(heap) && cache == old(cache) && result == Answer(old(cache)[key.value])
    {
      hide Calm, Mild, Same, Rooted, KeepsRoots, Coherent, KeyOf, Walk;
      SameSelf(heap, stack);
      CalmIsMild(script, [], g);
      ClassRootLive(heap, stack, clz);
      var views := ViewsOf(heap, args);
      var key := KeyLoop(heap, clz, sel, side, views);
      if key.Some? && key.value in cache {
        result, ran := Answer(cache[key.value]), [];
        CacheHit(heap, cache, clz, sel, side, views, g);
        return;
      }
      var saved := uncacheable;
      uncacheable := false;
      var visited, rest;
      result, visited, rest, ran := LookupRec(clz, sel, side, args, [], script, g, pending);
      var tainted := uncacheable;
      uncacheable := saved;
      if !tainted && key.Some? && (result.Found? || result.NotFound?) {
        var resolved := if result.Found? then Some(result.m) else None;
        InsertCoherent(heap, cache, clz, sel, side, views, g, resolved);
        cache := cache[key.value := resolved];
      }
    }
  }

  /** An untainted answer that has a key and is no error is in the cache. */
  ghost predicate Remembered(h: Heap, cache: map<Key, Option<MethodId>>, clz: Addr, sel: Selector, side: bool, views: seq<View>, w: WalkOut) {
    var key := KeyOf(h, clz, sel, side, views);
    key.Some? && !w.tainted && (w.outcome.Found? || w.outcome.NotFound?) ==>
      key.value in cache && Answer(cache[key.value]) == w.outcome
  }

  /** A walk from `visited` gave this answer, visited list and flag. */
  ghost predicate Walked(h: Heap, clz: Addr, sel: Selector, side: bool, args: seq<Value>, g: Guards, visited: seq<Addr>,
                         result: Outcome, visited': seq<Addr>, before: bool, after: bool) {
    var w := Walk(h, clz, sel, side, ViewsOf(h, args), g, visited);
    w.0.outcome == result && w.1 == visited' && after == (before || w.0.tainted)
  }

  lemma UnvisitedShrinks(h: Heap, visited: seq<Addr>, more: seq<Addr>)
    requires visited <= more
    ensures Unvisited(h, more) <= Unvisited(h, visited)
  {
  }

  lemma UnvisitedDrops(h: Heap, visited: seq<Addr>, c: Addr)
    requires c in h.classes && c !in visited
    ensures Unvisited(h, visited + [c]) < Unvisited(h, visited)
  {
    assert c in Unvisited(h, visited) && c !in Unvisited(h, visited + [c]);
  }

  /** Scoring from candidate `i` on, with these entries so far, gives the tally. */
  ghost predicate TallyFrom(h: Heap, cands: seq<MethodId>, i: nat, acc: seq<Entry>, tainted: bool, args: seq<Value>, g: Guards)
    requires i <= |cands|
  {
    TallyUp(h, cands, [], false, ViewsOf(h, args), g) == TallyUp(h, cands[i..], acc, tainted, ViewsOf(h, args), g)
  }

  lemma TallyStep(h: Heap, cands: seq<MethodId>, i: nat, acc: seq<Entry>, tainted: bool, args: seq<Value>, g: Guards)
    requires i < |cands| && TallyFrom(h, cands, i, acc, tainted, args, g)
    ensures var m, views := cands[i], ViewsOf(h, args);
            var tainted' := tainted || Taints(h, m, views);
            match MatchScore(h, m, views, g)
            case Raised => TallyUp(h, cands, [], false, views, g) == Tally(acc, true, tainted')
            case Inapplicable => TallyFrom(h, cands, i + 1, acc, tainted', args, g)
            case Applies(rank) => TallyFrom(h, cands, i + 1, acc + [Entry(m, rank)], tainted', args, g)
  {
    assert cands[i..][0] == cands[i] && cands[i..][1..] == cands[i + 1..];
  }

  /** The walk over `es` from `start` has got to index `j` and `now`. */
  ghost predicate EdgesFrom(h: Heap, es: seq<Addr>, j: nat, sel: Selector, side: bool, views: seq<View>, g: Guards,
                            start: seq<Addr>, now: seq<Addr>, taint: bool)
    requires j <= |es|
  {
    var w, v := WalkEdges(h, es, sel, side, views, g, start), WalkEdges(h, es[j..], sel, side, views, g, now);
    w.0.outcome == v.0.outcome && w.1 == v.1 && w.0.tainted == (taint || v.0.tainted)
  }

  /** The walk over `es` ended with this answer. */
  ghost predicate EdgesEnd(h: Heap, es: seq<Addr>, sel: Selector, side: bool, views: seq<View>, g: Guards,
                           start: seq<Addr>, result: Outcome, visited': seq<Addr>, taint: bool)
  {
    WalkEdges(h, es, sel, side, views, g, start) == (WalkOut(result, taint), visited')
  }

  lemma EdgesStart(h: Heap, es: seq<Addr>, sel: Selector, side: bool, views: seq<View>, g: Guards, start: seq<Addr>)
    ensures EdgesFrom(h, es, 0, sel, side, views, g, start, start, false)
  {
    assert es[0..] == es;
  }

  lemma EdgesDone(h: Heap, es: seq<Addr>, sel: Selector, side: bool, views: seq<View>, g: Guards,
                  start: seq<Addr>, now: seq<Addr>, taint: bool)
    requires EdgesFrom(h, es, |es|, sel, side, views, g, start, now, taint)
    ensures EdgesEnd(h, es, sel, side, views, g, start, NotFound, now, taint)
  {
    assert es[|es|..] == [];
  }

  lemma EdgesStep(h: Heap, es: seq<Addr>, j: nat, sel: Selector, side: bool, views: seq<View>, g: Guards,
                  start: seq<Addr>, now: seq<Addr>, taint: bool)
    requires j < |es| && EdgesFrom(h, es, j, sel, side, views, g, start, now, taint)
    ensures var w := Walk(h, es[j], sel, side, views, g, now);
            if w.0.outcome.NotFound? then
              EdgesFrom(h, es, j + 1, sel, side, views, g, start, w.1, taint || w.0.tainted)
            else
              EdgesEnd(h, es, sel, side, views, g, start, w.0.outcome, w.1, taint || w.0.tainted)
  {
    assert es[j..][0] == es[j] && es[j..][1..] == es[j + 1..];
  }

  lemma TallyStarts(h: Heap, cands: seq<MethodId>, args: seq<Value>, g: Guards)
    ensures TallyFrom(h, cands, 0, [], false, args, g)
  {
    assert cands[0..] == cands;
  }

  lemma TallyEnds(h: Heap, cands: seq<MethodId>, acc: seq<Entry>, tainted: bool, args: seq<Value>, g: Guards)
    ensures TallyFrom(h, cands, |cands|, acc, tainted, args, g) ==>
              TallyUp(h, cands, [], false, ViewsOf(h, args), g) == Tally(acc, false, tainted)
  {
    assert cands[|cands|..] == [];
  }

  // ---- From the current heap back to the one an operation began with -----------------

  lemma FitFrom(h0: Heap, h: Heap, base: seq<Root>, m: MethodId, args: seq<Value>, g: Guards)
    requires Begun(h0, base, args) && Same(h0, h, base) && m in h0.methods
    ensures MatchScore(h, m, ViewsOf(h, args), g) == MatchScore(h0, m, ViewsOf(h0, args), g)
    ensures Taints(h, m, ViewsOf(h, args)) == Taints(h0, m, ViewsOf(h0, args))
  {
    hide MatchScore, Taints, Agree, SameViews, WellFormed, Covers;
    var kept :| SameOn(h0, h, base, kept);
    ArgumentsRooted(args, base);
    ArgumentsSeen(h0, h, base, args, kept);
    FitSame(h0, h, kept, m, ViewsOf(h0, args), g);
  }

  lemma WalkFrom(h0: Heap, h: Heap, base: seq<Root>, c: Addr, sel: Selector, side: bool, args: seq<Value>, g: Guards, visited: seq<Addr>)
    requires Begun(h0, base, args) && Same(h0, h, base) && ClassRoot(c) in base
    ensures Walk(h, c, sel, side, ViewsOf(h, args), g, visited) == Walk(h0, c, sel, side, ViewsOf(h0, args), g, visited)
  {
    hide Walk, Agree, SameViews, WellFormed, Covers;
    var kept :| SameOn(h0, h, base, kept);
    ArgumentsRooted(args, base);
    ArgumentsSeen(h0, h, base, args, kept);
    ClassKept(h0, base, c, kept);
    WalkSame(h0, h, kept, c, sel, side, ViewsOf(h0, args), g, visited);
  }

  lemma ArgumentsRooted(args: seq<Value>, base: seq<Root>)
    requires Rooted(ValueRoots(args), base)
    ensures forall i :: 0 <= i < |args| ==> ValueRoot(args[i]) in base
  {
    forall i | 0 <= i < |args| ensures ValueRoot(args[i]) in base {
      assert ValueRoots(args)[i] == ValueRoot(args[i]);
    }
  }

  lemma AnsweredHere(h: Heap, c: Addr, sel: Selector, side: bool, args: seq<Value>, g: Guards, visited: seq<Addr>,
                     result: Outcome, before: bool, tainted: bool)
    requires c in h.classes && c !in visited && !result.NotFound?
    requires Local(h, c, sel, side, ViewsOf(h, args), g) == WalkOut(result, tainted)
    ensures Walked(h, c, sel, side, args, g, visited, result, visited + [c], before, before || tainted)
  {
  }

  lemma AnsweredAbove(h0: Heap, h: Heap, base: seq<Root>, c: Addr, sel: Selector, side: bool, args: seq<Value>, g: Guards, visited: seq<Addr>,
                      result: Outcome, visited': seq<Addr>, before: bool, tainted: bool, taint: bool)
    requires Begun(h0, base, args) && Same(h0, h, base) && c in h0.classes && c !in visited
    requires Rooted(ClassRoots(Edges(h0, c)), base)
    requires Local(h0, c, sel, side, ViewsOf(h0, args), g) == WalkOut(NotFound, tainted)
    requires EdgesEnd(h, Edges(h0, c), sel, side, ViewsOf(h, args), g, visited + [c], result, visited', taint)
    ensures Walked(h0, c, sel, side, args, g, visited, result, visited', before, before || tainted || taint)
  {
    hide Local, Agree, SameViews, KeepsRoots, WellFormed, Covers;
    var kept :| SameOn(h0, h, base, kept);
    ArgumentsRooted(args, base);
    ArgumentsSeen(h0, h, base, args, kept);
    var es := Edges(h0, c);
    forall i | 0 <= i < |es| ensures es[i] in kept {
      assert ClassRoots(es)[i] == ClassRoot(es[i]);
      ClassKept(h0, base, es[i], kept);
    }
    WalkEdgesSame(h0, h, kept, es, sel, side, ViewsOf(h0, args), g, visited + [c]);
  }

  // ---- Bookkeeping of what is on the stack --------------------------------------

  lemma StackLive(h: Heap, stack: seq<Root>, m: MethodId)
    requires KeepsRoots(h, stack) && MethodRoot(m) in stack
    ensures m in h.methods
  {
    assert RootLive(h, MethodRoot(m));
  }

  lemma ClassRootLive(h: Heap, stack: seq<Root>, c: Addr)
    requires KeepsRoots(h, stack) && ClassRoot(c) in stack
    ensures c in h.classes
  {
    assert RootLive(h, ClassRoot(c));
  }

  lemma CandidatesBegun(h: Heap, cands: seq<MethodId>, pending: seq<Root>, stack: seq<Root>)
    requires KeepsRoots(h, stack) && Rooted(MethodRoots(cands) + pending, stack)
    ensures forall i :: 0 <= i < |cands| ==> cands[i] in h.methods
  {
    forall i | 0 <= i < |cands| ensures cands[i] in h.methods {
      assert (MethodRoots(cands) + pending)[i] == MethodRoot(cands[i]);
      StackLive(h, stack, cands[i]);
    }
  }

  lemma EdgesRooted(es: seq<Addr>, below: seq<Root>, stack: seq<Root>)
    requires Rooted(ClassRoots(es) + below, stack)
    ensures Rooted(ClassRoots(es), stack)
  {
    forall i | 0 <= i < |es| ensures ClassRoots(es)[i] in stack {
      assert (ClassRoots(es) + below)[i] == ClassRoots(es)[i];
    }
  }

  lemma CandidateLive(h: Heap, cands: seq<MethodId>, below: seq<Root>, base: seq<Root>, stack: seq<Root>, m: MethodId)
    requires KeepsRoots(h, stack) && base <= stack && Rooted(MethodRoots(cands) + below, base) && m in cands
    ensures m in h.methods
  {
    RootedAbove(MethodRoots(cands) + below, base, stack);
    CandidatesBegun(h, cands, below, stack);
  }

  lemma RootedAbove(roots: seq<Root>, base: seq<Root>, stack: seq<Root>)
    requires Rooted(roots, base) && base <= stack
    ensures Rooted(roots, stack)
  {
  }

  lemma ValuesRooted(es: seq<Addr>, args: seq<Value>, pending: seq<Root>, stack: seq<Root>)
    requires Rooted(ClassRoots(es) + (ValueRoots(args) + pending), stack)
    ensures Rooted(ValueRoots(args), stack)
  {
    forall i | 0 <= i < |args| ensures ValueRoots(args)[i] in stack {
      assert (ClassRoots(es) + (ValueRoots(args) + pending))[|es| + i] == ValueRoots(args)[i];
    }
  }

  /** A cached answer is the walk's, and the method it names is live. */
  lemma CacheHit(h: Heap, cache: map<Key, Option<MethodId>>, c: Addr, sel: Selector, side: bool, views: seq<View>, g: Guards)
    requires WellFormed(h) && Coherent(h, cache) && KeyOf(h, c, sel, side, views).Some?
    requires KeyOf(h, c, sel, side, views).value in cache
    ensures var r := cache[KeyOf(h, c, sel, side, views).value];
            && Walk(h, c, sel, side, views, g, []).0 == WalkOut(Answer(r), false)
            && (r.Some? ==> r.value in h.methods)
  {
    hide KeyOf, WellFormed;
    var r := cache[KeyOf(h, c, sel, side, views).value];
    assert EntryFresh(h, r, c, sel, side, views);
    WalkUntainted(h, c, sel, side, views, NoGuards(), g);
    if r.Some? {
      FoundLive(h, c, sel, side, views, g);
    }
  }

  lemma FoundIsVariant(h: Heap, order: seq<Addr>, i: nat, sel: Selector, side: bool, views: seq<View>, g: Guards, out: Outcome)
    requires AnsweredAt(h, order, i, sel, side, views, g, out) && out.Found?
    ensures i < |order| && out.m in Candidates(h, order[i], sel, side) && order[i] in h.classes
  {
    hide FirstBest, BestShared, SomeThrows, MatchScore;
  }

  lemma FoundLive(h: Heap, c: Addr, sel: Selector, side: bool, views: seq<View>, g: Guards)
    requires WellFormed(h) && Walk(h, c, sel, side, views, g, []).0.outcome.Found?
    ensures Walk(h, c, sel, side, views, g, []).0.outcome.m in h.methods
  {
    hide WellFormed, Walk, Order, AnsweredAt, AnswersOf, EdgesIn, Reaches, Distinct, Candidates;
    ResolutionSpec(h, c, sel, side, views, g);
    var out, order := Walk(h, c, sel, side, views, g, []).0.outcome, Order(h, c, []);
    var i: nat :| AnsweredAt(h, order, i, sel, side, views, g, out);
    FoundIsVariant(h, order, i, sel, side, views, g, out);
    CandidatesLive(h, order[i], sel, side);
  }

  lemma SuffixRooted(a: seq<Root>, b: seq<Root>, stack: seq<Root>)
    requires Rooted(a + b, stack)
    ensures Rooted(b, stack)
  {
    forall i | 0 <= i < |b| ensures b[i] in stack {
      assert (a + b)[|a| + i] == b[i];
    }
  }

  lemma FrameRooted(frame: seq<Root>, values: seq<Root>, pending: seq<Root>, stack: seq<Root>)
    requires |frame| >= 2 && frame[2..] == values && Rooted(pending, stack)
    ensures frame[0] in stack + frame && Rooted(values + pending, stack + frame)
  {
    assert (stack + frame)[|stack|] == frame[0];
    forall i | 0 <= i < |values + pending| ensures (values + pending)[i] in stack + frame {
      if i < |values| {
        assert (stack + frame)[|stack| + 2 + i] == frame[2..][i];
      }
    }
  }

  lemma PendingRooted(cands: seq<MethodId>, pending: seq<Root>, stack: seq<Root>, i: nat)
    requires Rooted(MethodRoots(cands) + pending, stack) && i < |cands|
    ensures MethodRoot(cands[i]) in stack
    ensures Rooted(MethodRoots(cands[i + 1..]) + pending, stack)
  {
    var all, them := MethodRoots(cands) + pending, MethodRoots(cands[i + 1..]) + pending;
    assert all[i] == MethodRoot(cands[i]);
    forall k | 0 <= k < |them| ensures them[k] in stack {
      assert all[i + 1 + k] == them[k];
    }
  }

  lemma EdgeRooted(es: seq<Addr>, args: seq<Value>, pending: seq<Root>, stack: seq<Root>, j: nat)
    requires Rooted(ClassRoots(es) + (ValueRoots(args) + pending), stack) && j < |es|
    ensures ClassRoot(es[j]) in stack
    ensures Rooted(ValueRoots(args) + (ClassRoots(es[j + 1..]) + pending), stack)
  {
    var all := ClassRoots(es) + (ValueRoots(args) + pending);
    var them := ValueRoots(args) + (ClassRoots(es[j + 1..]) + pending);
    var e, a := |es|, |args|;
    assert all[j] == ClassRoot(es[j]);
    forall i | 0 <= i < |them| ensures them[i] in stack {
      var k := if i < a then e + i else if i < a + e - j - 1 then j + 1 + i - a else i + j + 1;
      assert all[k] == them[i];
    }
  }

  lemma PushRooted(cands: seq<MethodId>, es: seq<Addr>, below: seq<Root>, stack: seq<Root>)
    requires Rooted(below, stack)
    ensures Rooted(MethodRoots(cands) + (ClassRoots(es) + below), stack + (MethodRoots(cands) + ClassRoots(es)))
  {
    var all, now := MethodRoots(cands) + (ClassRoots(es) + below), stack + (MethodRoots(cands) + ClassRoots(es));
    forall i | 0 <= i < |all| ensures all[i] in now {
      if i < |cands| + |es| {
        assert now[|stack| + i] == all[i];
      } else {
        assert below[i - |cands| - |es|] == all[i];
      }
    }
  }

  lemma PopKeeps(h: Heap, stack: seq<Root>, base: nat)
    requires KeepsRoots(h, stack) && base <= |stack|
    ensures KeepsRoots(h, stack[..base])
  {
    forall i | 0 <= i < base ensures RootLive(h, stack[..base][i]) {
      assert stack[..base][i] == stack[i];
    }
  }

  lemma PushKeeps(h: Heap, c: Addr, sel: Selector, side: bool, stack: seq<Root>)
    requires WellFormed(h) && c in h.classes && KeepsRoots(h, stack)
    ensures KeepsRoots(h, stack + (MethodRoots(Candidates(h, c, sel, side)) + ClassRoots(Edges(h, c))))
  {
    assert ClassLive(h, c);
    CandidatesLive(h, c, sel, side);
  }
}
