/** The order of the search, on the classes' own mixins and parents: a class, then all
    that its mixins lead to, one mixin after the other, then what only its parent
    leads to (src/dispatch.rs:601-632, 715-729). */
module DispatchOrder {
  import opened Wrappers
  import opened ClassGraph
  import opened Dispatch

  /** `a` mixes `e` in or inherits from it. */
  ghost predicate Link(h: Heap, a: Addr, e: Addr) {
    a in h.classes && (e in h.classes[a].mixins || h.classes[a].parent == Some(e))
  }

  /** `n` links lead from `a` to `b` without meeting `avoid`. */
  ghost predicate Leads(h: Heap, a: Addr, b: Addr, avoid: seq<Addr>, n: nat)
    decreases n
  {
    a !in avoid && if n == 0 then a == b else exists e :: Link(h, a, e) && Leads(h, e, b, avoid, n - 1)
  }

  ghost predicate Reached(h: Heap, a: Addr, b: Addr, avoid: seq<Addr>) {
    exists n: nat :: Leads(h, a, b, avoid, n)
  }

  ghost predicate FromSome(h: Heap, cs: seq<Addr>, b: Addr, avoid: seq<Addr>) {
    exists i :: 0 <= i < |cs| && Reached(h, cs[i], b, avoid)
  }

  lemma LinkIsEdge(h: Heap, a: Addr, e: Addr)
    ensures Link(h, a, e) <==> e in Edges(h, a)
  {
    if a in h.classes {
      assert Edges(h, a) == h.classes[a].mixins + (if h.classes[a].parent.Some? then [h.classes[a].parent.value] else []);
    }
  }

  lemma {:induction false} AvoidsLess(h: Heap, a: Addr, b: Addr, avoid: seq<Addr>, less: seq<Addr>, n: nat)
    requires Leads(h, a, b, avoid, n) && forall x <- less :: x in avoid
    ensures Leads(h, a, b, less, n)
    decreases n
  {
    if n > 0 {
      var e :| Link(h, a, e) && Leads(h, e, b, avoid, n - 1);
      AvoidsLess(h, e, b, avoid, less, n - 1);
    }
  }

  lemma ReachedAvoidingLess(h: Heap, a: Addr, b: Addr, avoid: seq<Addr>, less: seq<Addr>)
    requires Reached(h, a, b, avoid) && forall x <- less :: x in avoid
    ensures Reached(h, a, b, less)
  {
    var n: nat :| Leads(h, a, b, avoid, n);
    AvoidsLess(h, a, b, avoid, less, n);
  }

  lemma ReachedOver(h: Heap, a: Addr, e: Addr, b: Addr, avoid: seq<Addr>)
    requires a !in avoid && Link(h, a, e) && Reached(h, e, b, avoid)
    ensures Reached(h, a, b, avoid)
  {
    var n: nat :| Leads(h, e, b, avoid, n);
    assert Leads(h, a, b, avoid, n + 1);
  }

  // ---- The search finds exactly what is reached ------------------------------------------

  lemma {:induction false} OrderOnlyReached(h: Heap, c: Addr, visited: seq<Addr>)
    ensures forall b <- Order(h, c, visited) :: b in visited || Reached(h, c, b, visited)
    decreases Unvisited(h, visited), 0
  {
    hide Reached;
    if c !in visited {
      assert Reached(h, c, c, visited) by { Itself(h, c, visited); }
      if c in h.classes {
        assert c in Unvisited(h, visited) && c !in Unvisited(h, visited + [c]);
        OrderEdgesOnlyReached(h, Edges(h, c), visited + [c]);
        forall b <- Order(h, c, visited) | b !in visited ensures Reached(h, c, b, visited) {
          if b != c {
            assert Order(h, c, visited) == OrderEdges(h, Edges(h, c), visited + [c]);
            assert b !in visited + [c];
            ReachedFromEdges(h, c, b, visited);
          }
        }
      }
    }
  }

  lemma ReachedFromEdges(h: Heap, c: Addr, b: Addr, visited: seq<Addr>)
    requires c !in visited && FromSome(h, Edges(h, c), b, visited + [c])
    ensures Reached(h, c, b, visited)
  {
    hide Reached;
    var i :| 0 <= i < |Edges(h, c)| && Reached(h, Edges(h, c)[i], b, visited + [c]);
    var e := Edges(h, c)[i];
    ReachedAvoidingLess(h, e, b, visited + [c], visited);
    LinkIsEdge(h, c, e);
    ReachedOver(h, c, e, b, visited);
  }

  lemma Itself(h: Heap, c: Addr, visited: seq<Addr>)
    requires c !in visited
    ensures Reached(h, c, c, visited)
  {
    assert Leads(h, c, c, visited, 0);
  }

  lemma {:induction false} OrderEdgesOnlyReached(h: Heap, cs: seq<Addr>, visited: seq<Addr>)
    ensures forall b <- OrderEdges(h, cs, visited) :: b in visited || FromSome(h, cs, b, visited)
    decreases Unvisited(h, visited), 1 + |cs|
  {
    hide Reached;
    if cs != [] {
      var mid := Order(h, cs[0], visited);
      OrderOnlyReached(h, cs[0], visited);
      assert Unvisited(h, mid) <= Unvisited(h, visited);
      OrderEdgesOnlyReached(h, cs[1..], mid);
      forall b <- OrderEdges(h, cs, visited) | b !in visited ensures FromSome(h, cs, b, visited) {
        if b in mid {
          assert Reached(h, cs[0], b, visited);
        } else {
          var i :| 0 <= i < |cs[1..]| && Reached(h, cs[1..][i], b, mid);
          ReachedAvoidingLess(h, cs[i + 1], b, mid, visited);
        }
      }
    }
  }

  lemma {:induction false} StaysInside(h: Heap, a: Addr, b: Addr, visited: seq<Addr>, order: seq<Addr>, n: nat)
    requires a in order && Leads(h, a, b, visited, n)
    requires forall x <- order :: x in visited || EdgesIn(h, x, order)
    ensures b in order
    decreases n
  {
    if n > 0 {
      var e :| Link(h, a, e) && Leads(h, e, b, visited, n - 1);
      LinkIsEdge(h, a, e);
      assert EdgesIn(h, a, order);
      StaysInside(h, e, b, visited, order, n - 1);
    }
  }

  /** From any visited list the search adds exactly what it reaches without passing it. */
  lemma OrderExact(h: Heap, c: Addr, visited: seq<Addr>)
    ensures forall b :: b in Order(h, c, visited) <==> b in visited || Reached(h, c, b, visited)
  {
    OrderOnlyReached(h, c, visited);
    OrderClosed(h, c, visited);
    forall b | Reached(h, c, b, visited) ensures b in Order(h, c, visited) {
      var n: nat :| Leads(h, c, b, visited, n);
      StaysInside(h, c, b, visited, Order(h, c, visited), n);
    }
  }

  lemma OrderEdgesExact(h: Heap, cs: seq<Addr>, visited: seq<Addr>)
    ensures forall b :: b in OrderEdges(h, cs, visited) <==> b in visited || FromSome(h, cs, b, visited)
  {
    OrderEdgesOnlyReached(h, cs, visited);
    OrderEdgesClosed(h, cs, visited);
    forall b | FromSome(h, cs, b, visited) ensures b in OrderEdges(h, cs, visited) {
      var i :| 0 <= i < |cs| && Reached(h, cs[i], b, visited);
      var n: nat :| Leads(h, cs[i], b, visited, n);
      StaysInside(h, cs[i], b, visited, OrderEdges(h, cs, visited), n);
    }
  }

  // ---- Mixins first -------------------------------------------------------------------------

  lemma {:induction false} OrderEdgesSplit(h: Heap, a: seq<Addr>, b: seq<Addr>, visited: seq<Addr>)
    ensures OrderEdges(h, a + b, visited) == OrderEdges(h, b, OrderEdges(h, a, visited))
    decreases |a|
  {
    if a == [] {
      assert a + b == b;
    } else {
      assert (a + b)[1..] == a[1..] + b;
      OrderEdgesSplit(h, a[1..], b, Order(h, a[0], visited));
    }
  }

  lemma EdgesAre(h: Heap, c: Addr)
    requires c in h.classes
    ensures Edges(h, c) == h.classes[c].mixins + (if h.classes[c].parent.Some? then [h.classes[c].parent.value] else [])
  {
  }

  /** `b` is reached over the `i`-th mixin of `c`. */
  ghost predicate OverMixin(h: Heap, c: Addr, i: nat, b: Addr, avoid: seq<Addr>)
    requires c in h.classes
  {
    i < |h.classes[c].mixins| && Reached(h, h.classes[c].mixins[i], b, avoid)
  }

  ghost predicate OverParent(h: Heap, c: Addr, b: Addr, avoid: seq<Addr>)
    requires c in h.classes
  {
    h.classes[c].parent.Some? && Reached(h, h.classes[c].parent.value, b, avoid)
  }

  /** One of the first mixins of `c`, up to the `i`-th, reaches `b`. */
  ghost predicate OverMixinUpTo(h: Heap, c: Addr, i: nat, b: Addr, avoid: seq<Addr>)
    requires c in h.classes
  {
    exists j: nat :: j <= i && OverMixin(h, c, j, b, avoid)
  }

  ghost predicate OverSomeMixin(h: Heap, c: Addr, b: Addr, avoid: seq<Addr>)
    requires c in h.classes
  {
    exists i: nat :: OverMixin(h, c, i, b, avoid)
  }

  /** The order, from any visited list: it goes on with `c`, then holds exactly what the
      mixins and the parent reach without passing what is visited, and everything that
      some mixin reaches comes only after things that this or an earlier mixin reaches:
      so all that the first mixin reaches comes first, then the rest of what the second
      reaches, and so on, and what only the parent reaches comes last. */
  lemma MixinsFirst(h: Heap, c: Addr, visited: seq<Addr>)
    requires c in h.classes && c !in visited && Distinct(visited)
    ensures var order, met := Order(h, c, visited), visited + [c];
            && met <= order && Distinct(order)
            && (forall b :: b in order <==> b in met || OverSomeMixin(h, c, b, met) || OverParent(h, c, b, met))
            && forall p: nat, q: nat, i: nat :: |met| <= p < q < |order| && OverMixin(h, c, i, order[q], met) ==>
                 OverMixinUpTo(h, c, i, order[p], met)
  {
    hide OverMixin, OverSomeMixin, OverMixinUpTo, OverParent;
    var order, met := Order(h, c, visited), visited + [c];
    OrderDistinct(h, c, visited);
    OrderBegins(h, c, visited);
    forall b ensures b in order <==> b in met || OverSomeMixin(h, c, b, met) || OverParent(h, c, b, met) {
      MixinMember(h, c, visited, b);
    }
    forall p: nat, q: nat, i: nat | |met| <= p < q < |order| && OverMixin(h, c, i, order[q], met)
      ensures OverMixinUpTo(h, c, i, order[p], met)
    {
      MixinBlock(h, c, visited, p, q, i);
    }
  }

  lemma OrderBegins(h: Heap, c: Addr, visited: seq<Addr>)
    requires c !in visited
    ensures visited + [c] <= Order(h, c, visited)
  {
  }

  lemma MixinMember(h: Heap, c: Addr, visited: seq<Addr>, b: Addr)
    requires c in h.classes && c !in visited
    ensures b in Order(h, c, visited) <==>
              b in visited + [c] || OverSomeMixin(h, c, b, visited + [c]) || OverParent(h, c, b, visited + [c])
  {
    hide Reached;
    var met, mixins, parent := visited + [c], h.classes[c].mixins, h.classes[c].parent;
    EdgesAre(h, c);
    OrderEdgesExact(h, Edges(h, c), met);
    if OverSomeMixin(h, c, b, met) {
      var i: nat :| OverMixin(h, c, i, b, met);
      assert Edges(h, c)[i] == mixins[i];
    }
    if OverParent(h, c, b, met) {
      assert Edges(h, c)[|mixins|] == parent.value;
    }
    if b in Order(h, c, visited) && b !in met {
      var i :| 0 <= i < |Edges(h, c)| && Reached(h, Edges(h, c)[i], b, met);
      if i < |mixins| {
        assert OverMixin(h, c, i, b, met);
      }
    }
  }

  lemma MixinBlock(h: Heap, c: Addr, visited: seq<Addr>, p: nat, q: nat, i: nat)
    requires c in h.classes && c !in visited && Distinct(visited)
    requires |visited| + 1 <= p < q < |Order(h, c, visited)| && OverMixin(h, c, i, Order(h, c, visited)[q], visited + [c])
    ensures OverMixinUpTo(h, c, i, Order(h, c, visited)[p], visited + [c])
  {
    hide Reached;
    var order, met, mixins := Order(h, c, visited), visited + [c], h.classes[c].mixins;
    OrderDistinct(h, c, visited);
    EdgesAre(h, c);
    var first, last := mixins[..i + 1], mixins[i + 1..] + (if h.classes[c].parent.Some? then [h.classes[c].parent.value] else []);
    assert Edges(h, c) == first + last;
    OrderEdgesSplit(h, first, last, met);
    var block := OrderEdges(h, first, met);
    OrderEdgesExact(h, first, met);
    assert mixins[i] == first[i];
    assert order[q] in block;
    var k :| 0 <= k < |block| && block[k] == order[q];
    assert order[k] == order[q] && k == q;
    assert order[p] == block[p] && order[p] in block;
    assert order[p] !in met by {
      forall x | 0 <= x < |met| ensures met[x] != order[p] {
        assert order[x] == met[x];
      }
    }
    var j :| 0 <= j < |first| && Reached(h, first[j], order[p], met);
    assert OverMixin(h, c, j, order[p], met);
  }

  /** The order unfolded: each mixin is searched from what is visited so far, then the
      parent. */
  lemma OrderUnfolds(h: Heap, c: Addr, visited: seq<Addr>) returns (pre: seq<seq<Addr>>)
    requires c in h.classes && c !in visited
    ensures var mixins, parent := h.classes[c].mixins, h.classes[c].parent;
            && |pre| == |mixins| + 1 && pre[0] == visited + [c]
            && (forall i :: 0 <= i < |mixins| ==> pre[i + 1] == Order(h, mixins[i], pre[i]))
            && Order(h, c, visited) == if parent.Some? then Order(h, parent.value, pre[|mixins|]) else pre[|mixins|]
  {
    var mixins := h.classes[c].mixins;
    EdgesAre(h, c);
    pre := Prefixes(h, mixins, visited + [c]);
    OrderEdgesSplit(h, mixins, if h.classes[c].parent.Some? then [h.classes[c].parent.value] else [], visited + [c]);
  }

  lemma {:induction false} Prefixes(h: Heap, cs: seq<Addr>, visited: seq<Addr>) returns (pre: seq<seq<Addr>>)
    ensures |pre| == |cs| + 1 && pre[0] == visited && pre[|cs|] == OrderEdges(h, cs, visited)
    ensures forall i :: 0 <= i < |cs| ==> pre[i + 1] == Order(h, cs[i], pre[i])
    decreases |cs|
  {
    if cs == [] {
      pre := [visited];
    } else {
      var rest := Prefixes(h, cs[1..], Order(h, cs[0], visited));
      pre := [visited] + rest;
      forall i | 0 <= i < |cs| ensures pre[i + 1] == Order(h, cs[i], pre[i]) {
        if i > 0 {
          assert rest[i - 1 + 1] == Order(h, cs[1..][i - 1], rest[i - 1]);
        }
      }
    }
  }
}
