/** The class graph that method dispatch walks: classes, their method chains,
    the values they dispatch on, and the distance from a value to a type hint
    (src/dispatch.rs:1048-1179).  Every function is total: an address that is
    not in the heap has no name, no methods and no edges. */
module ClassGraph {
  import opened Wrappers

  type Addr = nat
  type MethodId = nat
  type Name = string
  type Selector = string
  type Tag = nat

  /** A parameter annotation; a name is in its rendered form. */
  datatype Hint = Plain(name: Name) | Nullable(base: Hint)

  datatype Body =
    | Block(params: seq<Hint>, tags: seq<Option<Tag>>, guarded: bool)
    | TypedNative(params: seq<Hint>)
    | UntypedNative

  /** `instanceType` is what `type_name` reports for an instance. */
  datatype Class = Class(
    name: Name,
    parent: Option<Addr>,
    mixins: seq<Addr>,
    instanceMethods: map<Selector, seq<MethodId>>,
    classMethods: map<Selector, seq<MethodId>>,
    eigen: bool,
    instanceType: Name)

  datatype Instance = Instance(clz: Addr, tag: Option<Tag>)

  datatype Value =
    | Int(n: int)
    | Double(r: real)
    | Bool(b: bool)
    | Nil
    | Object(id: nat)
    | ClassValue(c: Addr)
    | MetaValue(c: Addr)

  datatype Builtin = IntegerClass | DoubleClass | TrueClass | FalseClass | NilClass

  /** `globals` holds the class-valued globals, `builtins` the dispatch classes
      of the immediates. */
  datatype Heap = Heap(
    classes: map<Addr, Class>,
    methods: map<MethodId, Body>,
    objects: map<nat, Instance>,
    globals: map<Name, Addr>,
    builtins: map<Builtin, Addr>)

  function Parents(h: Heap, c: Addr): seq<Addr> {
    if c in h.classes && h.classes[c].parent.Some? then [h.classes[c].parent.value] else []
  }

  function Mixins(h: Heap, c: Addr): seq<Addr> {
    if c in h.classes then h.classes[c].mixins else []
  }

  /** What the walk follows after a class: its mixins, then its parent. */
  function Edges(h: Heap, c: Addr): seq<Addr> {
    Mixins(h, c) + Parents(h, c)
  }

  function Candidates(h: Heap, c: Addr, sel: Selector, classSide: bool): seq<MethodId> {
    if c !in h.classes then []
    else
      var table := if classSide then h.classes[c].classMethods else h.classes[c].instanceMethods;
      if sel in table then table[sel] else []
  }

  function BodyOf(h: Heap, m: MethodId): Body {
    if m in h.methods then h.methods[m] else UntypedNative
  }

  // ---- What dispatch sees of an argument ---------------------------------------

  /** Variant discriminant, dispatch class and element tag of a value. */
  datatype View = View(kind: nat, clz: Option<Addr>, tag: Option<Tag>)

  function Lookup<K, T>(m: map<K, T>, k: K): Option<T> {
    if k in m then Some(m[k]) else None
  }

  function ViewOf(h: Heap, v: Value): View {
    match v
    case Int(_) => View(0, Lookup(h.builtins, IntegerClass), None)
    case Double(_) => View(1, Lookup(h.builtins, DoubleClass), None)
    case Bool(b) => View(2, Lookup(h.builtins, if b then TrueClass else FalseClass), None)
    case Nil => View(3, Lookup(h.builtins, NilClass), None)
    case Object(id) =>
      if id in h.objects then View(4, Some(h.objects[id].clz), h.objects[id].tag) else View(4, None, None)
    case ClassValue(c) => View(5, Some(c), None)
    case MetaValue(c) => View(6, Some(c), None)
  }

  function ViewsOf(h: Heap, args: seq<Value>): (views: seq<View>)
    ensures |views| == |args|
    ensures forall i :: 0 <= i < |args| ==> views[i] == ViewOf(h, args[i])
  {
    seq(|args|, i requires 0 <= i < |args| => ViewOf(h, args[i]))
  }

  function TypeName(h: Heap, v: View): Name {
    match v.kind
    case 0 => "Integer"
    case 1 => "Double"
    case 2 => "Boolean"
    case 3 => "Nil"
    case 5 => "Class"
    case 6 => "ClassMeta"
    case _ => if v.clz.Some? && v.clz.value in h.classes then h.classes[v.clz.value].instanceType else "Object"
  }

  // ---- Type distance -------------------------------------------------------------

  const OBJECT_UNIVERSAL_DISTANCE := 1_000_000

  /** By identity when the hint names a class global, else by name. */
  predicate Matches(h: Heap, c: Addr, hint: Name) {
    if hint in h.globals then c == h.globals[hint]
    else c in h.classes && h.classes[c].name == hint
  }

  predicate AnyMatches(h: Heap, cs: seq<Addr>, hint: Name) {
    exists i :: 0 <= i < |cs| && Matches(h, cs[i], hint)
  }

  /** The parent chain from `c` ends, meeting none of `seen` and nothing twice. */
  predicate ChainEnds(h: Heap, c: Addr, seen: set<Addr>)
    decreases h.classes.Keys - seen
  {
    && c in h.classes && c !in seen
    && (h.classes[c].parent.Some? ==> ChainEnds(h, h.classes[c].parent.value, seen + {c}))
  }

  /** Distance along the parent chain; a mixin is one hop from its class. */
  function ChainDistance(h: Heap, c: Addr, hint: Name, dist: nat, seen: set<Addr>): Option<nat>
    decreases h.classes.Keys - seen
  {
    if c !in h.classes || c in seen then None
    else if Matches(h, c, hint) then Some(dist)
    else if AnyMatches(h, Mixins(h, c), hint) then Some(dist + 1)
    else if h.classes[c].parent.None? then None
    else ChainDistance(h, h.classes[c].parent.value, hint, dist + 1, seen + {c})
  }

  function TypeDistance(h: Heap, v: View, hint: Hint): Option<nat> {
    match hint
    case Nullable(base) => if v.kind == 3 then Some(0) else TypeDistance(h, v, base)
    case Plain(name) =>
      if TypeName(h, v) == name && name != "Object" then Some(0)
      else if v.clz.None? then None
      else
        match ChainDistance(h, v.clz.value, name, 0, {})
        case Some(d) => Some(d)
        case None => if name == "Object" then Some(OBJECT_UNIVERSAL_DISTANCE) else None
  }

  // ---- Scoring ---------------------------------------------------------------------

  /** Twice the summed distances, less one for each satisfied element tag. */
  function ScoreParams(h: Heap, params: seq<Hint>, tags: seq<Option<Tag>>, views: seq<View>, i: nat, score: int): Option<int>
    requires |params| <= |views|
    decreases |params| - i
  {
    if i >= |params| then Some(score)
    else
      match TypeDistance(h, views[i], params[i])
      case None => None
      case Some(d) =>
        if i < |tags| && tags[i].Some? then
          if views[i].tag == tags[i] then ScoreParams(h, params, tags, views, i + 1, score + 2 * d - 1) else None
        else ScoreParams(h, params, tags, views, i + 1, score + 2 * d)
  }

  function Score(h: Heap, params: seq<Hint>, tags: seq<Option<Tag>>, views: seq<View>): Option<int> {
    if |views| < |params| then None else ScoreParams(h, params, tags, views, 0, 0)
  }

  predicate Tagged(tags: seq<Option<Tag>>) {
    exists i :: 0 <= i < |tags| && tags[i].Some?
  }

  // ---- The loops of the source -----------------------------------------------------

  /** src/dispatch.rs:1155-1170: the walk up the parents, with no visited set. */
  method ChainDistanceLoop(h: Heap, c: Addr, hint: Name) returns (d: Option<nat>)
    requires ChainEnds(h, c, {})
    ensures d == ChainDistance(h, c, hint, 0, {})
  {
    var curr, dist := Some(c), 0;
    ghost var seen: set<Addr> := {};
    while curr.Some?
      invariant curr.Some? ==> ChainEnds(h, curr.value, seen)
      invariant curr.Some? ==>
                  ChainDistance(h, curr.value, hint, dist, seen) == ChainDistance(h, c, hint, 0, {})
      invariant curr.None? ==> ChainDistance(h, c, hint, 0, {}) == None
      decreases curr.Some?, h.classes.Keys - seen
    {
      if Matches(h, curr.value, hint) {
        return Some(dist);
      }
      if AnyMatches(h, Mixins(h, curr.value), hint) {
        return Some(dist + 1);
      }
      ghost var was := curr.value;
      curr, dist := h.classes[curr.value].parent, dist + 1;
      seen := seen + {was};
    }
    d := None;
  }

  /** src/dispatch.rs:1048-1083. */
  method ScoreLoop(h: Heap, params: seq<Hint>, tags: seq<Option<Tag>>, views: seq<View>) returns (r: Option<int>)
    ensures r == Score(h, params, tags, views)
  {
    if |views| < |params| {
      return None;
    }
    var score := 0;
    for i := 0 to |params|
      invariant ScoreParams(h, params, tags, views, i, score) == ScoreParams(h, params, tags, views, 0, 0)
    {
      match TypeDistance(h, views[i], params[i])
      case None => return None;
      case Some(d) =>
        score := score + 2 * d;
        if i < |tags| && tags[i].Some? {
          if views[i].tag != tags[i] {
            return None;
          }
          score := score - 1;
        }
    }
    r := Some(score);
  }

  // ---- Distance is the least hop count ----------------------------------------------

  /** The `n`-th class up the parent chain. */
  function Ancestor(h: Heap, c: Addr, n: nat): Option<Addr>
    decreases n
  {
    if c !in h.classes then None
    else if n == 0 then Some(c)
    else if h.classes[c].parent.None? then None
    else Ancestor(h, h.classes[c].parent.value, n - 1)
  }

  /** `n` hops reach the hint: up the chain, or up and into a mixin. */
  predicate ReachesIn(h: Heap, c: Addr, hint: Name, n: nat) {
    || (Ancestor(h, c, n).Some? && Matches(h, Ancestor(h, c, n).value, hint))
    || (n > 0 && Ancestor(h, c, n - 1).Some? && AnyMatches(h, Mixins(h, Ancestor(h, c, n - 1).value), hint))
  }

  /** On a chain that ends, the distance is the least number of hops, and there
      is none exactly when no number of hops reaches the hint. */
  lemma DistanceIsLeast(h: Heap, c: Addr, hint: Name)
    requires ChainEnds(h, c, {})
    ensures ChainDistance(h, c, hint, 0, {}).None? ==> forall n: nat :: !ReachesIn(h, c, hint, n)
    ensures ChainDistance(h, c, hint, 0, {}).Some? ==>
              && ReachesIn(h, c, hint, ChainDistance(h, c, hint, 0, {}).value)
              && forall n: nat :: n < ChainDistance(h, c, hint, 0, {}).value ==> !ReachesIn(h, c, hint, n)
  {
    LeastFrom(h, c, hint, 0, {});
  }

  lemma {:induction false} LeastFrom(h: Heap, c: Addr, hint: Name, dist: nat, seen: set<Addr>)
    requires ChainEnds(h, c, seen)
    ensures var d := ChainDistance(h, c, hint, dist, seen);
            && (d.None? ==> forall n: nat :: !ReachesIn(h, c, hint, n))
            && (d.Some? ==> d.value >= dist && ReachesIn(h, c, hint, d.value - dist))
            && (d.Some? ==> forall n: nat :: n < d.value - dist ==> !ReachesIn(h, c, hint, n))
    decreases h.classes.Keys - seen
  {
    assert Ancestor(h, c, 0) == Some(c);
    var p := h.classes[c].parent;
    if p.Some? {
      LeastFrom(h, p.value, hint, dist + 1, seen + {c});
      forall n: nat | n > 0 ensures Ancestor(h, c, n) == Ancestor(h, p.value, n - 1) {
      }
      forall n: nat | n > 0 && !Matches(h, c, hint) && !AnyMatches(h, Mixins(h, c), hint)
        ensures ReachesIn(h, c, hint, n) == ReachesIn(h, p.value, hint, n - 1)
      {
        assert n == 1 ==> Ancestor(h, c, n - 1) == Some(c);
      }
      if AnyMatches(h, Mixins(h, c), hint) {
        assert ReachesIn(h, c, hint, 1);
      }
      var d := ChainDistance(h, c, hint, dist, seen);
      if !Matches(h, c, hint) && !AnyMatches(h, Mixins(h, c), hint) {
        assert !ReachesIn(h, c, hint, 0);
        if d.Some? {
          assert ReachesIn(h, p.value, hint, d.value - dist - 1);
        }
      }
    } else {
      forall n: nat | n > 0 ensures Ancestor(h, c, n).None? {
      }
      if AnyMatches(h, Mixins(h, c), hint) {
        assert ReachesIn(h, c, hint, 1);
      }
    }
  }
}
