/** The type checker's class table (src/class_table.rs): the dispatch walk
    repeated over class names, with a visited set.  What its answers mean on any
    table, and that it never contradicts dispatch. */
module ClassTables {
  import opened Wrappers
  import opened ClassGraph
  import opened Dispatch
  import opened DispatchTransfer
  import opened DispatchCache

  type Type = string

  datatype Sig = Sig(
    parent: Option<Name>,
    mixins: seq<Name>,
    own: set<Selector>,
    catchAll: bool,
    paramTypes: map<Selector, seq<Type>>,
    returnTypes: map<Selector, Type>)

  type Table = map<Name, Sig>

  /** Mixins first, then the parent: the order dispatch uses. */
  function NameEdges(t: Table, c: Name): seq<Name> {
    if c !in t then [] else t[c].mixins + (if t[c].parent.Some? then [t[c].parent.value] else [])
  }

  ghost function Fresh(t: Table, visited: set<Name>): set<Name> {
    t.Keys - visited
  }

  // ---- The queries ----------------------------------------------------------------

  function RespondsTo(t: Table, c: Name, sel: Selector): Option<bool> {
    RespondsRec(t, c, sel, {}).0
  }

  function RespondsRec(t: Table, c: Name, sel: Selector, visited: set<Name>): (r: (Option<bool>, set<Name>))
    ensures visited <= r.1
    decreases Fresh(t, visited), 0
  {
    if c in visited then (Some(false), visited)
    else if c !in t || t[c].catchAll then (None, visited + {c})
    else if sel in t[c].own then (Some(true), visited + {c})
    else RespondsEdges(t, NameEdges(t, c), sel, visited + {c})
  }

  function RespondsEdges(t: Table, es: seq<Name>, sel: Selector, visited: set<Name>): (r: (Option<bool>, set<Name>))
    ensures visited <= r.1
    decreases Fresh(t, visited), 1 + |es|
  {
    if es == [] then (Some(false), visited)
    else
      var (first, visited1) := RespondsRec(t, es[0], sel, visited);
      if first != Some(false) then (first, visited1) else RespondsEdges(t, es[1..], sel, visited1)
  }

  function IsSubtype(t: Table, sub: Name, sup: Name): Option<bool> {
    if sub == sup then Some(true) else SubtypeRec(t, sub, sup, {}).0
  }

  function SubtypeRec(t: Table, sub: Name, sup: Name, visited: set<Name>): (r: (Option<bool>, set<Name>))
    ensures visited <= r.1
    decreases Fresh(t, visited), 0
  {
    if sub == sup then (Some(true), visited)
    else if sub in visited then (Some(false), visited)
    else if sub !in t then (None, visited + {sub})
    else SubtypeEdges(t, NameEdges(t, sub), sup, visited + {sub})
  }

  function SubtypeEdges(t: Table, es: seq<Name>, sup: Name, visited: set<Name>): (r: (Option<bool>, set<Name>))
    ensures visited <= r.1
    decreases Fresh(t, visited), 1 + |es|
  {
    if es == [] then (Some(false), visited)
    else
      var (first, visited1) := SubtypeRec(t, es[0], sup, visited);
      if first != Some(false) then (first, visited1) else SubtypeEdges(t, es[1..], sup, visited1)
  }

  /** The walk shared by `declared_return_rec` and `declared_params_rec`: `pick`
      is the table of declarations searched. */
  function DeclaredRec<T>(t: Table, pick: Sig -> map<Selector, T>, c: Name, sel: Selector, visited: set<Name>)
    : (r: (Option<(T, Name)>, set<Name>))
    ensures visited <= r.1
    decreases Fresh(t, visited), 0
  {
    if c in visited then (None, visited)
    else if c !in t then (None, visited + {c})
    else if sel in pick(t[c]) then (Some((pick(t[c])[sel], c)), visited + {c})
    else DeclaredEdges(t, pick, NameEdges(t, c), sel, visited + {c})
  }

  function DeclaredEdges<T>(t: Table, pick: Sig -> map<Selector, T>, es: seq<Name>, sel: Selector, visited: set<Name>)
    : (r: (Option<(T, Name)>, set<Name>))
    ensures visited <= r.1
    decreases Fresh(t, visited), 1 + |es|
  {
    if es == [] then (None, visited)
    else
      var (first, visited1) := DeclaredRec(t, pick, es[0], sel, visited);
      if first.Some? then (first, visited1) else DeclaredEdges(t, pick, es[1..], sel, visited1)
  }

  function Returns(): Sig -> map<Selector, Type> {
    (s: Sig) => s.returnTypes
  }

  function Params(): Sig -> map<Selector, seq<Type>> {
    (s: Sig) => s.paramTypes
  }

  /** The nearest ancestor's contract, else the universal root's. */
  function InheritedReturn(t: Table, c: Name, sel: Selector): Option<(Type, Name)> {
    if c !in t then None
    else
      var found := DeclaredEdges(t, Returns(), NameEdges(t, c), sel, {c}).0;
      if found.Some? then found
      else if c != "Object" && "Object" in t && sel in t["Object"].returnTypes then Some((t["Object"].returnTypes[sel], "Object"))
      else None
  }

  // ---- Reachability ------------------------------------------------------------------

  /** `b` is `n` edges from `a`. */
  ghost predicate Steps(t: Table, a: Name, b: Name, n: nat)
    decreases n
  {
    if n == 0 then a == b else exists e <- NameEdges(t, a) :: Steps(t, e, b, n - 1)
  }

  ghost predicate Reaches(t: Table, a: Name, b: Name) {
    exists n: nat :: Steps(t, a, b, n)
  }

  lemma ReachesThrough(t: Table, a: Name, e: Name, b: Name)
    requires e in NameEdges(t, a) && Reaches(t, e, b)
    ensures Reaches(t, a, b)
  {
    var n: nat :| Steps(t, e, b, n);
    assert Steps(t, a, b, n + 1);
  }

  ghost predicate ClosedSet(t: Table, s: set<Name>) {
    forall a <- s :: forall e <- NameEdges(t, a) :: e in s
  }

  lemma {:induction false} ClosedHolds(t: Table, s: set<Name>, a: Name, b: Name, n: nat)
    requires ClosedSet(t, s) && a in s && Steps(t, a, b, n)
    ensures b in s
    decreases n
  {
    if n > 0 {
      var e :| e in NameEdges(t, a) && Steps(t, e, b, n - 1);
      ClosedHolds(t, s, e, b, n - 1);
    }
  }

  // ---- What responds_to answers --------------------------------------------------------

  predicate Silent(t: Table, c: Name) {
    c !in t || t[c].catchAll
  }

  predicate Owner(t: Table, c: Name, sel: Selector) {
    c in t && !t[c].catchAll && sel in t[c].own
  }

  /** Everything newly visited is a known class without the selector, and its
      edges are visited too. */
  ghost predicate Barren(t: Table, sel: Selector, visited: set<Name>, visited': set<Name>) {
    forall a <- visited' - visited ::
      !Silent(t, a) && !Owner(t, a, sel) && forall e <- NameEdges(t, a) :: e in visited'
  }

  ghost predicate AnswerMeans(t: Table, c: Name, sel: Selector, visited: set<Name>, r: (Option<bool>, set<Name>)) {
    match r.0
    case None => exists b :: Reaches(t, c, b) && Silent(t, b)
    case Some(true) => exists b :: Reaches(t, c, b) && Owner(t, b, sel)
    case Some(false) => c in r.1 && Barren(t, sel, visited, r.1)
  }

  lemma {:induction false} RespondsMeans(t: Table, c: Name, sel: Selector, visited: set<Name>)
    ensures AnswerMeans(t, c, sel, visited, RespondsRec(t, c, sel, visited))
    decreases Fresh(t, visited), 0
  {
    assert Steps(t, c, c, 0);
    if c !in visited && !Silent(t, c) && !Owner(t, c, sel) {
      EdgesMean(t, c, NameEdges(t, c), sel, visited + {c});
    }
  }

  lemma {:induction false} EdgesMean(t: Table, c: Name, es: seq<Name>, sel: Selector, visited: set<Name>)
    requires forall e <- es :: e in NameEdges(t, c)
    ensures var r := RespondsEdges(t, es, sel, visited);
            match r.0
            case None => exists b :: Reaches(t, c, b) && Silent(t, b)
            case Some(true) => exists b :: Reaches(t, c, b) && Owner(t, b, sel)
            case Some(false) => (forall e <- es :: e in r.1) && Barren(t, sel, visited, r.1)
    decreases Fresh(t, visited), 1 + |es|
  {
    if es != [] {
      RespondsMeans(t, es[0], sel, visited);
      var (first, visited1) := RespondsRec(t, es[0], sel, visited);
      match first
      case None =>
        var b :| Reaches(t, es[0], b) && Silent(t, b);
        ReachesThrough(t, c, es[0], b);
      case Some(true) =>
        var b :| Reaches(t, es[0], b) && Owner(t, b, sel);
        ReachesThrough(t, c, es[0], b);
      case Some(false) =>
        EdgesMean(t, c, es[1..], sel, visited1);
        BarrenJoins(t, sel, visited, visited1, RespondsEdges(t, es[1..], sel, visited1).1);
    }
  }

  lemma BarrenJoins(t: Table, sel: Selector, a: set<Name>, b: set<Name>, c: set<Name>)
    requires a <= b <= c
    ensures Barren(t, sel, a, b) && Barren(t, sel, b, c) ==> Barren(t, sel, a, c)
  {
  }

  /** On every table, cyclic ones included: "no" means that every reachable class
      is known, has no catch-all and does not define the selector, and only then;
      "yes" names a reachable owner; silence a reachable unknown or catch-all. */
  lemma RespondsSpec(t: Table, c: Name, sel: Selector)
    ensures RespondsTo(t, c, sel) == Some(false) <==>
              forall b :: Reaches(t, c, b) ==> !Silent(t, b) && !Owner(t, b, sel)
    ensures RespondsTo(t, c, sel) == Some(true) ==> exists b :: Reaches(t, c, b) && Owner(t, b, sel)
    ensures RespondsTo(t, c, sel) == None ==> exists b :: Reaches(t, c, b) && Silent(t, b)
  {
    RespondsMeans(t, c, sel, {});
    var (r, visited) := RespondsRec(t, c, sel, {});
    if r == Some(false) {
      assert visited - {} == visited;
      forall b | Reaches(t, c, b) ensures !Silent(t, b) && !Owner(t, b, sel) {
        var n: nat :| Steps(t, c, b, n);
        ClosedHolds(t, visited, c, b, n);
      }
    }
  }

  // ---- The checker never contradicts dispatch -----------------------------------------

  function NameOf(h: Heap, a: Addr): Name {
    if a in h.classes then h.classes[a].name else ""
  }

  /** src/class_table.rs:70-76, 142-154: instance- and class-side selectors are
      pooled. */
  predicate Mirrors(h: Heap, a: Addr, s: Sig) {
    && a in h.classes
    && s.own == h.classes[a].instanceMethods.Keys + h.classes[a].classMethods.Keys
    && |s.mixins| == |h.classes[a].mixins|
    && (forall i :: 0 <= i < |s.mixins| ==> s.mixins[i] == NameOf(h, h.classes[a].mixins[i]))
    && s.parent == (if h.classes[a].parent.Some? then Some(NameOf(h, h.classes[a].parent.value)) else None)
  }

  ghost predicate TableMirrors(h: Heap, t: Table) {
    forall a <- h.classes.Keys :: NameOf(h, a) in t ==> Mirrors(h, a, t[NameOf(h, a)])
  }

  /** Reachability in the graph is reachability among names. */
  lemma EdgeNames(h: Heap, t: Table, a: Addr, e: Addr)
    requires TableMirrors(h, t) && a in h.classes && NameOf(h, a) in t && e in Edges(h, a)
    ensures NameOf(h, e) in NameEdges(t, NameOf(h, a))
  {
    var s := t[NameOf(h, a)];
    assert Mirrors(h, a, s);
    var i :| 0 <= i < |Edges(h, a)| && Edges(h, a)[i] == e;
    if i < |s.mixins| {
      assert NameEdges(t, NameOf(h, a))[i] == s.mixins[i] == NameOf(h, e);
    } else {
      assert NameEdges(t, NameOf(h, a))[|s.mixins|] == NameOf(h, e);
    }
  }

  /** Mixins and parents of classes in the heap are in the heap; chains may be cyclic. */
  predicate EdgesLive(h: Heap) {
    forall a <- h.classes.Keys :: forall i | 0 <= i < |Edges(h, a)| :: Edges(h, a)[i] in h.classes
  }

  /** The compile-time "does not respond" is never wrong: when the checker says
      no, dispatch finds no variant for the selector, on either side, for any
      arguments and guards, on every graph. */
  lemma NoFalseMnu(h: Heap, t: Table, c: Addr, sel: Selector, side: bool, views: seq<View>, g: Guards)
    requires EdgesLive(h) && TableMirrors(h, t) && c in h.classes
    requires RespondsTo(t, NameOf(h, c), sel) == Some(false)
    ensures Walk(h, c, sel, side, views, g, []).0 == WalkOut(NotFound, false)
    ensures forall a <- Order(h, c, []) :: Candidates(h, a, sel, side) == []
  {
    RespondsMeans(t, NameOf(h, c), sel, {});
    var names := RespondsRec(t, NameOf(h, c), sel, {}).1;
    assert names - {} == names;
    var kept := set a | a in h.classes && NameOf(h, a) in names;
    forall a <- kept, i | 0 <= i < |Edges(h, a)| ensures Edges(h, a)[i] in kept {
      EdgeNames(h, t, a, Edges(h, a)[i]);
    }
    forall a <- kept ensures Candidates(h, a, sel, side) == [] {
      assert Mirrors(h, a, t[NameOf(h, a)]);
    }
    OrderAgrees(h, h, kept, c, []);
    WalkIsFirstAnswer(h, c, sel, side, views, g, []);
    assert Order(h, c, [])[0..] == Order(h, c, []);
    NothingAnswers(h, Order(h, c, []), sel, side, views, g);
  }

  lemma {:induction false} NothingAnswers(h: Heap, order: seq<Addr>, sel: Selector, side: bool, views: seq<View>, g: Guards)
    requires forall a <- order :: Candidates(h, a, sel, side) == []
    ensures FirstAnswer(h, order, sel, side, views, g) == WalkOut(NotFound, false)
    decreases |order|
  {
    if order != [] {
      NothingAnswers(h, order[1..], sel, side, views, g);
    }
  }

  // ---- Distance and subtyping --------------------------------------------------------------

  ghost predicate NotSup(t: Table, sup: Name, visited: set<Name>, visited': set<Name>) {
    forall a <- visited' - visited :: a in t && a != sup && forall e <- NameEdges(t, a) :: e in visited'
  }

  lemma {:induction false} SubtypeNo(t: Table, sub: Name, sup: Name, visited: set<Name>)
    ensures var r := SubtypeRec(t, sub, sup, visited);
            r.0 == Some(false) ==> sub in r.1 && sub != sup && NotSup(t, sup, visited, r.1)
    decreases Fresh(t, visited), 0
  {
    if sub != sup && sub !in visited && sub in t {
      SubtypeEdgesNo(t, NameEdges(t, sub), sup, visited + {sub});
      var r := SubtypeRec(t, sub, sup, visited);
      if r.0 == Some(false) {
        forall a <- r.1 - visited ensures a in t && a != sup && forall e <- NameEdges(t, a) :: e in r.1 {
          assert a == sub || a in r.1 - (visited + {sub});
        }
      }
    }
  }

  lemma {:induction false} SubtypeEdgesNo(t: Table, es: seq<Name>, sup: Name, visited: set<Name>)
    ensures var r := SubtypeEdges(t, es, sup, visited);
            r.0 == Some(false) ==> (forall e <- es :: e in r.1 && e != sup) && NotSup(t, sup, visited, r.1)
    decreases Fresh(t, visited), 1 + |es|
  {
    if es != [] {
      SubtypeNo(t, es[0], sup, visited);
      var (first, visited1) := SubtypeRec(t, es[0], sup, visited);
      if first == Some(false) {
        SubtypeEdgesNo(t, es[1..], sup, visited1);
      }
    }
  }

  ghost predicate SubtypeMeans(t: Table, c: Name, sup: Name, answer: Option<bool>) {
    && (answer == Some(true) ==> Reaches(t, c, sup))
    && (answer == None ==> exists b :: Reaches(t, c, b) && b !in t)
  }

  lemma {:induction false} SubtypeYes(t: Table, sub: Name, sup: Name, visited: set<Name>)
    ensures SubtypeMeans(t, sub, sup, SubtypeRec(t, sub, sup, visited).0)
    decreases Fresh(t, visited), 0
  {
    assert Steps(t, sub, sub, 0);
    if sub != sup && sub !in visited && sub in t {
      SubtypeEdgesYes(t, sub, NameEdges(t, sub), sup, visited + {sub});
    }
  }

  lemma {:induction false} SubtypeEdgesYes(t: Table, c: Name, es: seq<Name>, sup: Name, visited: set<Name>)
    requires forall e <- es :: e in NameEdges(t, c)
    ensures SubtypeMeans(t, c, sup, SubtypeEdges(t, es, sup, visited).0)
    decreases Fresh(t, visited), 1 + |es|
  {
    hide Reaches;
    if es != [] {
      SubtypeYes(t, es[0], sup, visited);
      var (first, visited1) := SubtypeRec(t, es[0], sup, visited);
      if first.None? {
        var b :| Reaches(t, es[0], b) && b !in t;
        ReachesThrough(t, c, es[0], b);
      } else if first.value {
        ReachesThrough(t, c, es[0], sup);
      } else {
        SubtypeEdgesYes(t, c, es[1..], sup, visited1);
      }
    }
  }

  /** On every table: "not a subtype" means that every reachable class is known and
      none is the supertype, and only then; "yes" means it is reachable; silence
      that an unknown class is. */
  lemma SubtypeSpec(t: Table, sub: Name, sup: Name)
    ensures IsSubtype(t, sub, sup) == Some(false) <==> forall b :: Reaches(t, sub, b) ==> b in t && b != sup
    ensures IsSubtype(t, sub, sup) == Some(true) ==> Reaches(t, sub, sup)
    ensures IsSubtype(t, sub, sup) == None ==> exists b :: Reaches(t, sub, b) && b !in t
  {
    assert Steps(t, sub, sub, 0);
    SubtypeYes(t, sub, sup, {});
    SubtypeNo(t, sub, sup, {});
    var visited := SubtypeRec(t, sub, sup, {}).1;
    assert visited - {} == visited;
    var answer := IsSubtype(t, sub, sup);
    if answer.Some? && !answer.value {
      forall b | Reaches(t, sub, b) ensures b in t && b != sup {
        var n: nat :| Steps(t, sub, b, n);
        ClosedHolds(t, visited, sub, b, n);
      }
    }
  }

  /** When dispatch accepts an argument of class `c` for a hint by walking its
      classes, the checker never denies the subtyping, provided the hint, if it is a
      global, is the class's own name. */
  lemma DistanceImpliesSubtype(h: Heap, t: Table, c: Addr, hint: Name)
    requires WellFormed(h) && TableMirrors(h, t) && c in h.classes
    requires hint in h.globals ==> NameOf(h, h.globals[hint]) == hint
    requires ChainDistance(h, c, hint, 0, {}).Some?
    ensures IsSubtype(t, NameOf(h, c), hint) != Some(false)
  {
    if IsSubtype(t, NameOf(h, c), hint) == Some(false) {
      SubtypeNo(t, NameOf(h, c), hint, {});
      var known := SubtypeRec(t, NameOf(h, c), hint, {}).1;
      assert known - {} == known;
      assert ClassLive(h, c);
      DistanceIsLeast(h, c, hint);
      ClosedNames(h, t, known);
      HintKnown(h, c, hint, ChainDistance(h, c, hint, 0, {}).value, known);
      assert false;
    }
  }

  /** A hint that is a global bound to a class of another name. */
  predicate IsAlias(h: Heap, hint: Name) {
    hint in h.globals && NameOf(h, h.globals[hint]) != hint
  }

  /** A class that the search from `c` meets bears the name. */
  predicate NamedAbove(h: Heap, c: Addr, name: Name) {
    exists a <- Order(h, c, []) :: NameOf(h, a) == name
  }

  /** Every class that the search from `c` meets has an entry. */
  predicate AllListed(h: Heap, t: Table, c: Addr) {
    forall a <- Order(h, c, []) :: NameOf(h, a) in t
  }

  /** Exactly when the checker denies a subtyping, on the class graph.  If a class
      above `c`, itself included, bears the name, no table that mirrors the graph
      denies; if none does, every such table that lists the classes above `c` does. */
  lemma DenialIff(h: Heap, t: Table, c: Addr, name: Name)
    requires EdgesLive(h) && TableMirrors(h, t) && c in h.classes
    ensures NamedAbove(h, c, name) ==> IsSubtype(t, NameOf(h, c), name) != Some(false)
    ensures AllListed(h, t, c) ==> (IsSubtype(t, NameOf(h, c), name) == Some(false) <==> !NamedAbove(h, c, name))
  {
    hide EdgesLive, TableMirrors, Reaches, IsSubtype, Dispatch.Reaches, EdgesIn, Order;
    SubtypeSpec(t, NameOf(h, c), name);
    OrderClosed(h, c, []);
    OrderReached(h, c, []);
    if NamedAbove(h, c, name) {
      var a :| a in Order(h, c, []) && NameOf(h, a) == name;
      NamesFollow(h, t, c, a);
    } else if AllListed(h, t, c) {
      forall b | Reaches(t, NameOf(h, c), b) ensures b in t && b != name {
        var a := ClassBehind(h, t, c, b);
      }
    }
  }

  lemma NamesFollow(h: Heap, t: Table, c: Addr, a: Addr)
    requires EdgesLive(h) && TableMirrors(h, t) && c in h.classes && Dispatch.Reaches(h, c, a)
    ensures Reaches(t, NameOf(h, c), NameOf(h, a)) || exists b :: Reaches(t, NameOf(h, c), b) && b !in t
  {
    var n: nat :| Dispatch.Steps(h, c, a, n);
    NamePath(h, t, c, a, n);
  }

  /** A path of classes is a path of names, up to the first class without an entry. */
  lemma {:induction false} NamePath(h: Heap, t: Table, c: Addr, a: Addr, n: nat)
    requires EdgesLive(h) && TableMirrors(h, t) && c in h.classes && Dispatch.Steps(h, c, a, n)
    ensures Reaches(t, NameOf(h, c), NameOf(h, a)) || exists b :: Reaches(t, NameOf(h, c), b) && b !in t
    decreases n
  {
    assert Steps(t, NameOf(h, c), NameOf(h, c), 0);
    if n > 0 && NameOf(h, c) in t {
      var e :| e in Edges(h, c) && Dispatch.Steps(h, e, a, n - 1);
      EdgeNames(h, t, c, e);
      NamePath(h, t, e, a, n - 1);
      if b :| Reaches(t, NameOf(h, e), b) && b !in t {
        ReachesThrough(t, NameOf(h, c), NameOf(h, e), b);
      } else {
        ReachesThrough(t, NameOf(h, c), NameOf(h, e), NameOf(h, a));
      }
    }
  }

  /** Behind each name edge of a listed class is an edge. */
  lemma EdgeBehind(h: Heap, t: Table, a: Addr, name: Name) returns (e: Addr)
    requires TableMirrors(h, t) && a in h.classes && NameOf(h, a) in t && name in NameEdges(t, NameOf(h, a))
    ensures e in Edges(h, a) && NameOf(h, e) == name
  {
    var s := t[NameOf(h, a)];
    assert Mirrors(h, a, s);
    var i :| 0 <= i < |NameEdges(t, NameOf(h, a))| && NameEdges(t, NameOf(h, a))[i] == name;
    e := Edges(h, a)[i];
  }

  lemma ClassBehind(h: Heap, t: Table, c: Addr, name: Name) returns (a: Addr)
    requires EdgesLive(h) && TableMirrors(h, t) && c in h.classes && AllListed(h, t, c) && Reaches(t, NameOf(h, c), name)
    ensures a in Order(h, c, []) && NameOf(h, a) == name
  {
    OrderClosed(h, c, []);
    var n: nat :| Steps(t, NameOf(h, c), name, n);
    a := ClassPath(h, t, c, c, name, n);
  }

  lemma {:induction false} ClassPath(h: Heap, t: Table, c: Addr, x: Addr, name: Name, n: nat) returns (a: Addr)
    requires EdgesLive(h) && TableMirrors(h, t) && AllListed(h, t, c) && x in Order(h, c, []) && x in h.classes
    requires forall y <- Order(h, c, []) :: EdgesIn(h, y, Order(h, c, []))
    requires Steps(t, NameOf(h, x), name, n)
    ensures a in Order(h, c, []) && NameOf(h, a) == name
    decreases n
  {
    hide Order, TableMirrors;
    if n == 0 {
      a := x;
    } else {
      var next :| next in NameEdges(t, NameOf(h, x)) && Steps(t, next, name, n - 1);
      var e := EdgeBehind(h, t, x, next);
      a := ClassPath(h, t, c, e, name, n - 1);
    }
  }

  /** What dispatch accepts and the checker denies is an alias, or accepted by the type
      name of the value alone. */
  lemma DeniedIsAlias(h: Heap, t: Table, v: View, hint: Name)
    requires WellFormed(h) && TableMirrors(h, t) && v.clz.Some? && v.clz.value in h.classes
    requires hint != "Object" && TypeDistance(h, v, Hint.Plain(hint)).Some?
    requires IsSubtype(t, NameOf(h, v.clz.value), hint) == Some(false)
    ensures (IsAlias(h, hint) || TypeName(h, v) == hint) && !NamedAbove(h, v.clz.value, hint)
  {
    hide WellFormed, TableMirrors, IsSubtype, NamedAbove, EdgesLive;
    LiveEdges(h);
    DenialIff(h, t, v.clz.value, hint);
    if !IsAlias(h, hint) && TypeName(h, v) != hint {
      DistanceImpliesSubtype(h, t, v.clz.value, hint);
    }
  }

  lemma LiveEdges(h: Heap)
    requires WellFormed(h)
    ensures EdgesLive(h)
  {
    forall a <- h.classes.Keys ensures forall i | 0 <= i < |Edges(h, a)| :: Edges(h, a)[i] in h.classes {
      assert ClassLive(h, a);
    }
  }

  /** The other kind: class C itself is accepted for the hint `Class`, its type name,
      and denied as long as nothing called `Class` is above C. */
  lemma TypeNameDenied()
    ensures var h := Heap(map[0 := Class("C", None, [], map[], map[], false, "Object")], map[], map[], map[], map[]);
            var t := map["C" := Sig(None, [], {}, false, map[], map[])];
            && WellFormed(h) && TableMirrors(h, t) && !IsAlias(h, "Class")
            && TypeDistance(h, ViewOf(h, ClassValue(0)), Hint.Plain("Class")) == Some(0)
            && IsSubtype(t, "C", "Class") == Some(false)
  {
    var h := Heap(map[0 := Class("C", None, [], map[], map[], false, "Object")], map[], map[], map[], map[]);
    assert ClassLive(h, 0);
  }

  /** Such a denial: `Alias` is bound to class C and listed with it, a parameter is
      declared `Alias`, and an argument of class C is accepted by dispatch but denied
      by the checker. */
  lemma AliasHintDenied()
    ensures var h := Heap(map[0 := Class("C", None, [], map[], map[], false, "Object")], map[], map[], map["Alias" := 0], map[]);
            var sig := Sig(None, [], {}, false, map[], map[]);
            var t := map["C" := sig, "Alias" := sig];
            && WellFormed(h) && TableMirrors(h, t) && IsAlias(h, "Alias")
            && ChainDistance(h, 0, "Alias", 0, {}) == Some(0)
            && IsSubtype(t, "C", "Alias") == Some(false)
  {
    var h := Heap(map[0 := Class("C", None, [], map[], map[], false, "Object")], map[], map[], map["Alias" := 0], map[]);
    assert ClassLive(h, 0);
  }

  /** Every edge of a class named in `known` leads to one named in `known`. */
  ghost predicate NamesClosed(h: Heap, known: set<Name>) {
    forall a <- h.classes.Keys :: NameOf(h, a) in known ==> forall e <- Edges(h, a) :: NameOf(h, e) in known
  }

  lemma ClosedNames(h: Heap, t: Table, known: set<Name>)
    requires TableMirrors(h, t) && ClosedSet(t, known) && known <= t.Keys
    ensures NamesClosed(h, known)
  {
    forall a <- h.classes.Keys, e <- Edges(h, a) | NameOf(h, a) in known ensures NameOf(h, e) in known {
      EdgeNames(h, t, a, e);
    }
  }

  lemma HintKnown(h: Heap, c: Addr, hint: Name, n: nat, known: set<Name>)
    requires NamesClosed(h, known) && NameOf(h, c) in known && ReachesIn(h, c, hint, n)
    requires hint in h.globals ==> NameOf(h, h.globals[hint]) == hint
    ensures hint in known
  {
    if Ancestor(h, c, n).Some? && Matches(h, Ancestor(h, c, n).value, hint) {
      AncestorKnown(h, c, n, known);
    } else {
      AncestorKnown(h, c, n - 1, known);
      var a := Ancestor(h, c, n - 1).value;
      var i :| 0 <= i < |Mixins(h, a)| && Matches(h, Mixins(h, a)[i], hint);
      assert Edges(h, a)[i] == Mixins(h, a)[i];
    }
  }

  lemma {:induction false} AncestorKnown(h: Heap, c: Addr, n: nat, known: set<Name>)
    requires NamesClosed(h, known) && NameOf(h, c) in known && Ancestor(h, c, n).Some?
    ensures Ancestor(h, c, n).value in h.classes && NameOf(h, Ancestor(h, c, n).value) in known
    decreases n
  {
    if n > 0 {
      var p := h.classes[c].parent.value;
      assert Edges(h, c)[|Edges(h, c)| - 1] == p;
      AncestorKnown(h, p, n - 1, known);
    }
  }

  // ---- Visited-set searches refine the plain ones ----------------------------------------

  /** Every edge to a known class goes down in rank. */
  ghost predicate Acyclic(t: Table, rank: Name -> nat) {
    forall a <- t.Keys :: forall e <- NameEdges(t, a) :: e in t ==> rank(e) < rank(a)
  }

  /** Depth-first search with no visited set. */
  ghost function Plain<T>(t: Table, pick: Sig -> map<Selector, T>, c: Name, sel: Selector, rank: Name -> nat): Option<(T, Name)>
    requires Acyclic(t, rank)
    decreases rank(c), 1, 0
  {
    if c !in t then None
    else if sel in pick(t[c]) then Some((pick(t[c])[sel], c))
    else PlainEdges(t, pick, NameEdges(t, c), sel, rank, rank(c))
  }

  ghost function PlainEdges<T>(t: Table, pick: Sig -> map<Selector, T>, es: seq<Name>, sel: Selector, rank: Name -> nat, bound: nat)
    : Option<(T, Name)>
    requires Acyclic(t, rank) && forall e <- es :: e in t ==> rank(e) < bound
    decreases bound, 0, |es|
  {
    if es == [] then None
    else
      var first := if es[0] in t then Plain(t, pick, es[0], sel, rank) else None;
      if first.Some? then first else PlainEdges(t, pick, es[1..], sel, rank, bound)
  }

  /** What has been visited is either above in rank or known to declare nothing. */
  ghost predicate Exhausted<T>(t: Table, pick: Sig -> map<Selector, T>, sel: Selector, rank: Name -> nat, visited: set<Name>, bound: nat)
    requires Acyclic(t, rank)
  {
    forall v <- visited :: v in t ==> rank(v) >= bound || Plain(t, pick, v, sel, rank).None?
  }

  lemma {:induction false} DeclaredIsPlain<T>(t: Table, pick: Sig -> map<Selector, T>, c: Name, sel: Selector, rank: Name -> nat,
                                              visited: set<Name>, bound: nat)
    requires Acyclic(t, rank) && Exhausted(t, pick, sel, rank, visited, bound)
    requires c in t ==> rank(c) < bound
    ensures var r := DeclaredRec(t, pick, c, sel, visited);
            && r.0 == Plain(t, pick, c, sel, rank)
            && (r.0.None? ==> Exhausted(t, pick, sel, rank, r.1, bound))
    decreases Fresh(t, visited), 0
  {
    if c !in visited && c in t && sel !in pick(t[c]) {
      DeclaredEdgesArePlain(t, pick, NameEdges(t, c), sel, rank, visited + {c}, rank(c));
      var r := DeclaredRec(t, pick, c, sel, visited);
      assert r.0 == Plain(t, pick, c, sel, rank);
      if r.0.None? {
        forall v <- r.1 ensures v in t ==> rank(v) >= bound || Plain(t, pick, v, sel, rank).None? {
          if v !in visited + {c} && v in t {
            OnlyLower(t, pick, NameEdges(t, c), sel, rank, visited + {c}, rank(c), v);
          }
        }
      }
    }
  }

  lemma {:induction false} DeclaredEdgesArePlain<T>(t: Table, pick: Sig -> map<Selector, T>, es: seq<Name>, sel: Selector, rank: Name -> nat,
                                                    visited: set<Name>, bound: nat)
    requires Acyclic(t, rank) && Exhausted(t, pick, sel, rank, visited, bound)
    requires forall e <- es :: e in t ==> rank(e) < bound
    ensures var r := DeclaredEdges(t, pick, es, sel, visited);
            && r.0 == PlainEdges(t, pick, es, sel, rank, bound)
            && (r.0.None? ==> Exhausted(t, pick, sel, rank, r.1, bound))
    decreases Fresh(t, visited), 1 + |es|
  {
    if es != [] {
      DeclaredIsPlain(t, pick, es[0], sel, rank, visited, bound);
      var (first, visited1) := DeclaredRec(t, pick, es[0], sel, visited);
      if first.None? {
        DeclaredEdgesArePlain(t, pick, es[1..], sel, rank, visited1, bound);
      }
    }
  }

  /** A search below `bound` visits only classes below `bound`. */
  lemma {:induction false} OnlyLower<T>(t: Table, pick: Sig -> map<Selector, T>, es: seq<Name>, sel: Selector, rank: Name -> nat,
                                        visited: set<Name>, bound: nat, v: Name)
    requires Acyclic(t, rank) && forall e <- es :: e in t ==> rank(e) < bound
    requires v in DeclaredEdges(t, pick, es, sel, visited).1 && v !in visited && v in t
    ensures rank(v) < bound
    decreases Fresh(t, visited), 1 + |es|
  {
    if es != [] {
      var (first, visited1) := DeclaredRec(t, pick, es[0], sel, visited);
      if v in visited1 {
        if v != es[0] {
          OnlyLower(t, pick, NameEdges(t, es[0]), sel, rank, visited + {es[0]}, rank(es[0]), v);
        }
      } else {
        OnlyLower(t, pick, es[1..], sel, rank, visited1, bound, v);
      }
    }
  }

  /** On every acyclic table, diamonds included, the searches with a visited set
      return the declaration and the defining class of the plain ones. */
  lemma DeclaredRefinesPlain(t: Table, c: Name, sel: Selector, rank: Name -> nat)
    requires Acyclic(t, rank)
    ensures DeclaredRec(t, Returns(), c, sel, {}).0 == Plain(t, Returns(), c, sel, rank)
    ensures DeclaredRec(t, Params(), c, sel, {}).0 == Plain(t, Params(), c, sel, rank)
    ensures c in t ==>
              InheritedReturn(t, c, sel) ==
              var found := PlainEdges(t, Returns(), NameEdges(t, c), sel, rank, rank(c));
              if found.Some? || c == "Object" || "Object" !in t || sel !in t["Object"].returnTypes then found
              else Some((t["Object"].returnTypes[sel], "Object"))
  {
    DeclaredIsPlain(t, Returns(), c, sel, rank, {}, rank(c) + 1);
    DeclaredIsPlain(t, Params(), c, sel, rank, {}, rank(c) + 1);
    if c in t {
      DeclaredEdgesArePlain(t, Returns(), NameEdges(t, c), sel, rank, {c}, rank(c));
    }
  }

  ghost predicate Declares<T>(t: Table, pick: Sig -> map<Selector, T>, c: Name, sel: Selector) {
    DeclaredRec(t, pick, c, sel, {}).0.Some?
  }

  lemma SearchIsPlain<T>(t: Table, pick: Sig -> map<Selector, T>, c: Name, sel: Selector, rank: Name -> nat)
    requires Acyclic(t, rank)
    ensures DeclaredRec(t, pick, c, sel, {}).0 == Plain(t, pick, c, sel, rank)
  {
    DeclaredIsPlain(t, pick, c, sel, rank, {}, rank(c) + 1);
  }

  lemma {:induction false} PlainEdgesInTurn<T>(t: Table, pick: Sig -> map<Selector, T>, es: seq<Name>, sel: Selector, rank: Name -> nat, bound: nat, i: nat)
    requires Acyclic(t, rank) && (forall e <- es :: e in t ==> rank(e) < bound) && i <= |es|
    requires forall j :: 0 <= j < i ==> Plain(t, pick, es[j], sel, rank).None?
    requires i < |es| ==> Plain(t, pick, es[i], sel, rank).Some?
    ensures PlainEdges(t, pick, es, sel, rank, bound) == if i < |es| then Plain(t, pick, es[i], sel, rank) else None
    decreases |es|
  {
    if es != [] && i > 0 {
      PlainEdgesInTurn(t, pick, es[1..], sel, rank, bound, i - 1);
    }
  }

  /** Whose declaration is found, on every acyclic table: the class's own; else that which
      its first mixin finds that finds one; else that which its parent finds. */
  lemma DeclaredOrder<T>(t: Table, pick: Sig -> map<Selector, T>, c: Name, sel: Selector, rank: Name -> nat, i: nat)
    requires Acyclic(t, rank) && c in t && i <= |t[c].mixins|
    requires forall j :: 0 <= j < i ==> !Declares(t, pick, t[c].mixins[j], sel)
    requires i < |t[c].mixins| ==> Declares(t, pick, t[c].mixins[i], sel)
    ensures DeclaredRec(t, pick, c, sel, {}).0 ==
              if sel in pick(t[c]) then Some((pick(t[c])[sel], c))
              else if i < |t[c].mixins| then DeclaredRec(t, pick, t[c].mixins[i], sel, {}).0
              else if t[c].parent.Some? then DeclaredRec(t, pick, t[c].parent.value, sel, {}).0
              else None
  {
    hide DeclaredRec, Plain;
    var es, mixins := NameEdges(t, c), t[c].mixins;
    forall x: Name ensures DeclaredRec(t, pick, x, sel, {}).0 == Plain(t, pick, x, sel, rank) {
      SearchIsPlain(t, pick, x, sel, rank);
    }
    PlainStarts(t, pick, c, sel, rank);
    assert forall j :: 0 <= j < |mixins| ==> es[j] == mixins[j];
    if sel !in pick(t[c]) {
      if i < |mixins| || t[c].parent.None? || Declares(t, pick, t[c].parent.value, sel) {
        PlainEdgesInTurn(t, pick, es, sel, rank, rank(c), i);
      } else {
        PlainEdgesInTurn(t, pick, es, sel, rank, rank(c), |es|);
      }
    }
  }

  lemma PlainStarts<T>(t: Table, pick: Sig -> map<Selector, T>, c: Name, sel: Selector, rank: Name -> nat)
    requires Acyclic(t, rank) && c in t
    ensures forall e <- NameEdges(t, c) :: e in t ==> rank(e) < rank(c)
    ensures Plain(t, pick, c, sel, rank) == if sel in pick(t[c]) then Some((pick(t[c])[sel], c)) else PlainEdges(t, pick, NameEdges(t, c), sel, rank, rank(c))
  {
  }
}
