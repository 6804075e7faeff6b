/** The object graphs that `DeepEqual` and `DeepDerivative` walk.

A node stands for one `reflect.Value`.  Addressable nodes are identified by
their type and address, which is what `reflect.Value.UnsafeAddr` and the
`visit` key of the comparison see.  Pointers, slices, maps and interfaces are
edges, so a graph may be cyclic.
*/
module ObjectGraph {
  import opened Options

  type Addr = nat
  type Key = string
  datatype Type = Type(id: nat)
  datatype Node = Node(id: nat)

  /** The contents of a value, one constructor per case of the `Kind` switch.
      `Basic` and `Text` are compared with Go's `==`. */
  datatype Body =
    | Basic(data: int)
    | Text(text: string)
    | Func(isNil: bool)
    | Array(elems: seq<Node>)
    | Slice(isNil: bool, ptr: Addr, elems: seq<Node>)
    | Interface(elem: Option<Node>)
    | Pointer(elem: Option<Node>)
    | Struct(fields: seq<Node>)
    | Map(isNil: bool, ptr: Addr, entries: map<Key, Node>)

  datatype Cell = Cell(typ: Type, addr: Option<Addr>, body: Body)

  type Graph = map<Node, Cell>

  /** Registered equality functions, by type. */
  type Equalities = map<Type, (Node, Node) -> bool>

  predicate Hard(b: Body) {
    b.Array? || b.Slice? || b.Struct? || b.Map?
  }

  /** Values whose comparisons are remembered in `visited`. */
  predicate Tracked(c: Cell) {
    c.addr.Some? && Hard(c.body)
  }

  function OptionSet(o: Option<Node>): set<Node> {
    if o.Some? then {o.value} else {}
  }

  /** The values that a comparison of this value can recurse into. */
  function Children(b: Body): set<Node> {
    match b
    case Basic(_) => {}
    case Text(_) => {}
    case Func(_) => {}
    case Array(xs) => set i | 0 <= i < |xs| :: xs[i]
    case Slice(_, _, xs) => set i | 0 <= i < |xs| :: xs[i]
    case Interface(o) => OptionSet(o)
    case Pointer(o) => OptionSet(o)
    case Struct(xs) => set i | 0 <= i < |xs| :: xs[i]
    case Map(_, _, m) => set k | k in m :: m[k]
  }

  predicate SameKind(a: Body, b: Body) {
    match a
    case Basic(_) => b.Basic?
    case Text(_) => b.Text?
    case Func(_) => b.Func?
    case Array(xs) => b.Array? && |xs| == |b.elems|
    case Slice(_, _, _) => b.Slice?
    case Interface(_) => b.Interface?
    case Pointer(_) => b.Pointer?
    case Struct(xs) => b.Struct? && |xs| == |b.fields|
    case Map(_, _, _) => b.Map?
  }

  /** What `reflect` guarantees of one value: nil slices and maps are empty,
      pointees and slice elements are addressable, interface and map elements
      are not, fields and array elements inherit addressability. */
  predicate CellOk(g: Graph, c: Cell) {
    && Children(c.body) <= g.Keys
    && (forall n | n in Children(c.body) ::
          g[n].addr.Some? == ChildAddressable(c))
    && (c.body.Slice? && c.body.isNil ==> c.body.elems == [])
    && (c.body.Map? && c.body.isNil ==> c.body.entries == map[])
  }

  lemma {:induction false} ElemsAreChildren(b: Body)
    ensures b.Array? || b.Slice? ==> forall i | 0 <= i < |b.elems| :: b.elems[i] in Children(b)
    ensures b.Struct? ==> forall i | 0 <= i < |b.fields| :: b.fields[i] in Children(b)
    ensures b.Map? ==> forall k | k in b.entries :: b.entries[k] in Children(b)
    ensures b.Pointer? || b.Interface? ==> b.elem.Some? ==> b.elem.value in Children(b)
  {
  }

  predicate ChildAddressable(c: Cell) {
    c.body.Pointer? || c.body.Slice? || ((c.body.Array? || c.body.Struct?) && c.addr.Some?)
  }

  /** What Go guarantees of two values: a type fixes the kind, the array length
      and the field count; type and address fix an addressable value; slices
      over the same storage have a common prefix; a map pointer fixes the map. */
  predicate PairOk(g: Graph, x: Node, y: Node)
    requires x in g && y in g
  {
    var c, d := g[x], g[y];
    c.typ == d.typ ==>
      && SameKind(c.body, d.body)
      && (c.addr.Some? && c.addr == d.addr ==> x == y)
      && (c.body.Slice? && c.body.ptr == d.body.ptr ==>
            c.body.elems <= d.body.elems || d.body.elems <= c.body.elems)
      && (c.body.Map? && !c.body.isNil && !d.body.isNil && c.body.ptr == d.body.ptr ==>
            c.body.entries == d.body.entries)
  }

  predicate WellFormed(g: Graph) {
    && (forall x {:trigger CellOk(g, g[x])} | x in g :: CellOk(g, g[x]))
    && (forall x, y {:trigger PairOk(g, x, y)} | x in g && y in g :: PairOk(g, x, y))
  }

  // ----- relations between values

  datatype Pair = Pair(left: Node, right: Node) {
    function Swap(): Pair {
      Pair(right, left)
    }
  }

  type Relation = set<Pair>

  ghost predicate Related(r: Relation, a: Option<Node>, b: Option<Node>) {
    a.Some? == b.Some? && (a.Some? ==> Pair(a.value, b.value) in r)
  }

  // ----- visited pairs

  datatype Visit = Visit(a1: Addr, a2: Addr, typ: Type)

  function VisitOf(g: Graph, x: Node, y: Node): Visit
    requires x in g && y in g && g[x].addr.Some? && g[y].addr.Some?
  {
    var a1, a2 := g[x].addr.value, g[y].addr.value;
    if a1 > a2 then Visit(a2, a1, g[x].typ) else Visit(a1, a2, g[x].typ)
  }

  predicate TrackedPair(g: Graph, x: Node, y: Node) {
    x in g && y in g && g[x].typ == g[y].typ && Tracked(g[x]) && Tracked(g[y])
  }

  ghost function AllVisits(g: Graph): set<Visit> {
    set x, y | x in g.Keys && y in g.Keys && TrackedPair(g, x, y) :: VisitOf(g, x, y)
  }

  /** The canonical order loses which operand was first, and nothing else. */
  lemma {:induction false} VisitDeterminesPair(g: Graph, x: Node, y: Node, x': Node, y': Node)
    requires WellFormed(g) && TrackedPair(g, x, y) && TrackedPair(g, x', y')
    requires VisitOf(g, x, y) == VisitOf(g, x', y')
    ensures (x == x' && y == y') || (x == y' && y == x')
  {
    assert PairOk(g, x, x') && PairOk(g, y, y') && PairOk(g, x, y') && PairOk(g, y, x');
  }

  // ----- the comparisons that a comparison goes on to

  function Zip(xs: seq<Node>, ys: seq<Node>): Relation {
    set i | 0 <= i < |xs| && i < |ys| :: Pair(xs[i], ys[i])
  }

  function PairOf(a: Option<Node>, b: Option<Node>): Relation {
    if a.Some? && b.Some? then {Pair(a.value, b.value)} else {}
  }

  predicate Fits(exact: bool, m: nat, n: nat) {
    if exact then m == n else m <= n
  }

  /** The parts of two values that are compared with each other.  `DeepEqual` is exact: it
      wants slices and maps of equal sizes. */
  function Parts(exact: bool, a: Body, b: Body): Relation {
    match (a, b)
    case (Array(xs), Array(ys)) => Zip(xs, ys)
    case (Slice(_, _, xs), Slice(_, _, ys)) => if Fits(exact, |xs|, |ys|) then Zip(xs, ys) else {}
    case (Interface(o), Interface(q)) => PairOf(o, q)
    case (Pointer(o), Pointer(q)) => PairOf(o, q)
    case (Struct(xs), Struct(ys)) => Zip(xs, ys)
    case (Map(_, _, m), Map(_, _, n)) =>
      if Fits(exact, |m|, |n|) then set k | k in m && k in n :: Pair(m[k], n[k]) else {}
    case _ => {}
  }

  lemma {:induction false} ZipContains(xs: seq<Node>, ys: seq<Node>)
    ensures forall i | 0 <= i < |xs| && i < |ys| :: Pair(xs[i], ys[i]) in Zip(xs, ys)
  {
  }

  /** Parts that are compared are parts. */
  lemma {:induction false} PartsAreChildren(exact: bool, a: Body, b: Body, q: Pair)
    requires q in Parts(exact, a, b)
    ensures q.left in Children(a) && q.right in Children(b)
  {
  }

  /** Slices and maps over the same storage are not looked into. */
  predicate SharedStorage(a: Body, b: Body) {
    (a.Slice? && b.Slice? && a.ptr == b.ptr) || (a.Map? && b.Map? && a.ptr == b.ptr)
  }

  function PairParts(g: Graph, e: Equalities, exact: bool, p: Pair): Relation {
    if p.left in g && p.right in g && g[p.left].typ == g[p.right].typ && g[p.left].typ !in e
    then Parts(exact, g[p.left].body, g[p.right].body)
    else {}
  }

  predicate UsesVisits(g: Graph, e: Equalities, p: Pair) {
    TrackedPair(g, p.left, p.right) && g[p.left].typ !in e
  }

  // ----- the pairs that a comparison can meet

  ghost predicate Path(g: Graph, e: Equalities, exact: bool, w: seq<Pair>) {
    forall i | 0 < i < |w| :: w[i] in PairParts(g, e, exact, w[i - 1])
  }

  ghost predicate Leads(g: Graph, e: Equalities, exact: bool, w: seq<Pair>, root: Pair, p: Pair) {
    w != [] && w[0] == root && w[|w| - 1] == p && Path(g, e, exact, w)
  }

  ghost predicate Reached(g: Graph, e: Equalities, exact: bool, root: Pair, p: Pair) {
    exists w :: Leads(g, e, exact, w, root, p)
  }

  ghost function Met(g: Graph, e: Equalities, exact: bool, root: Pair): Relation {
    set x, y | x in g.Keys && y in g.Keys && Reached(g, e, exact, root, Pair(x, y)) :: Pair(x, y)
  }

  ghost predicate ClosedPairs(g: Graph, e: Equalities, exact: bool, met: Relation) {
    && (forall p | p in met :: p.left in g && p.right in g)
    && (forall p {:trigger PairParts(g, e, exact, p)} | p in met :: PairParts(g, e, exact, p) <= met)
  }

  lemma {:induction false} MetClosed(g: Graph, e: Equalities, exact: bool, root: Pair)
    requires WellFormed(g) && root.left in g && root.right in g
    ensures root in Met(g, e, exact, root) && ClosedPairs(g, e, exact, Met(g, e, exact, root))
  {
    var met := Met(g, e, exact, root);
    assert Leads(g, e, exact, [root], root, root);
    forall p, q | p in met && q in PairParts(g, e, exact, p)
      ensures q in met
    {
      var w :| Leads(g, e, exact, w, root, p);
      assert Leads(g, e, exact, w + [q], root, q);
      assert CellOk(g, g[p.left]) && CellOk(g, g[p.right]);
      PartsAreChildren(exact, g[p.left].body, g[p.right].body, q);
      assert q == Pair(q.left, q.right);
    }
  }

  /** What is closed and holds the root holds all that is met. */
  lemma {:induction false} MetIsLeast(g: Graph, e: Equalities, exact: bool, w: seq<Pair>, met: Relation)
    requires w != [] && w[0] in met && Path(g, e, exact, w) && ClosedPairs(g, e, exact, met)
    ensures w[|w| - 1] in met
  {
    var n := |w| - 1;
    if n > 0 {
      MetIsLeast(g, e, exact, w[..n], met);
      assert w[n] in PairParts(g, e, exact, w[n - 1]);
    }
  }

  // ----- ranks exist exactly when no cycle avoids the remembered pairs

  /** One comparison leads to another and leaves no trace in `visited`. */
  ghost predicate Step(g: Graph, e: Equalities, exact: bool, p: Pair, q: Pair) {
    && q in PairParts(g, e, exact, p)
    && !TrackedPair(g, p.left, p.right)
    && !SharedStorage(g[p.left].body, g[p.right].body)
  }

  /** Ranks fall along all such steps between the pairs that are met. */
  ghost predicate Ranked(g: Graph, e: Equalities, exact: bool, met: Relation, rank: map<Pair, nat>) {
    && rank.Keys == met
    && forall p, q {:trigger Step(g, e, exact, p, q)} | p in met && Step(g, e, exact, p, q) ::
         q in rank && rank[q] < rank[p]
  }

  /** A strict bound on all ranks. */
  ghost function RankBound(rank: map<Pair, nat>): (b: nat)
    ensures forall p | p in rank :: rank[p] < b
  {
    if rank == map[] then 0
    else
      assert exists p :: p in rank;
      var p :| p in rank;
      var b := RankBound(rank - {p});
      assert forall q | q in rank && q != p :: q in rank - {p} && (rank - {p})[q] == rank[q];
      if rank[p] < b then b else rank[p] + 1
  }

  ghost predicate Walk(g: Graph, e: Equalities, exact: bool, w: seq<Pair>) {
    forall i | 0 < i < |w| :: Step(g, e, exact, w[i - 1], w[i])
  }

  /** No cycle of comparisons consists of unremembered ones only. */
  ghost predicate CyclesTracked(g: Graph, e: Equalities, exact: bool, met: Relation) {
    forall w | |w| >= 2 && w[0] in met && Walk(g, e, exact, w) :: w[0] != w[|w| - 1]
  }

  lemma {:induction false} RankFallsAlongWalk(g: Graph, e: Equalities, exact: bool, met: Relation,
                                              rank: map<Pair, nat>, w: seq<Pair>)
    requires Ranked(g, e, exact, met, rank) && Walk(g, e, exact, w) && |w| >= 2 && w[0] in met
    ensures w[|w| - 1] in rank && rank[w[|w| - 1]] < rank[w[0]]
  {
    var n := |w| - 1;
    assert Step(g, e, exact, w[n - 1], w[n]);
    if n > 1 {
      var v := w[..n];
      forall i | 0 < i < |v|
        ensures Step(g, e, exact, v[i - 1], v[i])
      {
        assert Step(g, e, exact, w[i - 1], w[i]);
      }
      RankFallsAlongWalk(g, e, exact, met, rank, v);
    }
  }

  lemma {:induction false} Pigeonhole(w: seq<Pair>, s: set<Pair>) returns (i: nat, j: nat)
    requires |w| > |s| && forall k | 0 <= k < |w| :: w[k] in s
    ensures i < j < |w| && w[i] == w[j]
  {
    j := |w| - 1;
    if k :| 0 <= k < j && w[k] == w[j] {
      i := k;
    } else {
      i, j := Pigeonhole(w[..j], s - {w[j]});
    }
  }

  /** No step leads from `p` into `s`. */
  ghost predicate Sink(g: Graph, e: Equalities, exact: bool, s: set<Pair>, p: Pair) {
    forall q | q in s :: !Step(g, e, exact, p, q)
  }

  ghost predicate NoSink(g: Graph, e: Equalities, exact: bool, s: set<Pair>) {
    forall p {:trigger Sink(g, e, exact, s, p)} | p in s :: !Sink(g, e, exact, s, p)
  }

  lemma {:induction false} LongWalk(g: Graph, e: Equalities, exact: bool, s: set<Pair>, p: Pair, n: nat)
    returns (w: seq<Pair>)
    requires p in s && NoSink(g, e, exact, s)
    ensures |w| == n + 1 && Walk(g, e, exact, w) && forall k | 0 <= k < |w| :: w[k] in s
  {
    if n == 0 {
      w := [p];
    } else {
      var v := LongWalk(g, e, exact, s, p, n - 1);
      assert !Sink(g, e, exact, s, v[n - 1]);
      var q :| q in s && Step(g, e, exact, v[n - 1], q);
      w := v + [q];
    }
  }

  /** A set that every member can step within holds a cycle. */
  lemma {:induction false} NoSinkMakesCycle(g: Graph, e: Equalities, exact: bool, s: set<Pair>, p: Pair, met: Relation)
    requires p in s && NoSink(g, e, exact, s) && s <= met
    ensures !CyclesTracked(g, e, exact, met)
  {
    var w := LongWalk(g, e, exact, s, p, |s|);
    var i, j := Pigeonhole(w, s);
    var cycle := w[i..j + 1];
    forall k | 0 < k < |cycle|
      ensures Step(g, e, exact, cycle[k - 1], cycle[k])
    {
      assert Step(g, e, exact, w[i + k - 1], w[i + k]);
    }
    assert Walk(g, e, exact, cycle) && cycle[0] == cycle[|cycle| - 1] && cycle[0] in met;
  }

  lemma {:induction false} RankWithin(g: Graph, e: Equalities, exact: bool, s: set<Pair>, met: Relation)
    returns (rank: map<Pair, nat>)
    requires CyclesTracked(g, e, exact, met) && s <= met
    ensures rank.Keys == s
    ensures forall p, q | p in s && q in s && Step(g, e, exact, p, q) :: rank[q] < rank[p]
    decreases s
  {
    if s == {} {
      rank := map[];
    } else {
      var p :| p in s;
      if NoSink(g, e, exact, s) {
        NoSinkMakesCycle(g, e, exact, s, p, met);
      }
      p :| p in s && Sink(g, e, exact, s, p);
      var rest := RankWithin(g, e, exact, s - {p}, met);
      rank := map q | q in s :: if q == p then 0 else rest[q] + 1;
    }
  }

  lemma {:induction false} RankedIffCyclesTracked(g: Graph, e: Equalities, exact: bool, met: Relation)
    requires ClosedPairs(g, e, exact, met)
    ensures (exists rank :: Ranked(g, e, exact, met, rank)) <==> CyclesTracked(g, e, exact, met)
  {
    if rank :| Ranked(g, e, exact, met, rank) {
      forall w | |w| >= 2 && w[0] in met && Walk(g, e, exact, w)
        ensures w[0] != w[|w| - 1]
      {
        RankFallsAlongWalk(g, e, exact, met, rank, w);
      }
    }
    if CyclesTracked(g, e, exact, met) {
      var rank := RankWithin(g, e, exact, met, met);
      forall p, q | p in met && Step(g, e, exact, p, q)
        ensures q in rank && rank[q] < rank[p]
      {
        assert q in PairParts(g, e, exact, p);
      }
      assert Ranked(g, e, exact, met, rank);
    }
  }

  // ----- cycles of values

  /** From a value that has no registered equality, and is not an addressable array, slice,
      struct or map, to one of its parts. */
  predicate ValueStep(g: Graph, e: Equalities, x: Node, y: Node) {
    && x in g && g[x].typ !in e && y in Children(g[x].body)
    && !(g[x].addr.Some? && (g[x].body.Array? || g[x].body.Slice? || g[x].body.Struct? || g[x].body.Map?))
  }

  ghost predicate ValueWalk(g: Graph, e: Equalities, w: seq<Node>) {
    forall i | 0 < i < |w| :: ValueStep(g, e, w[i - 1], w[i])
  }

  /** Every cycle through the values of one operand passes through one that is remembered or
      has a registered equality. */
  ghost predicate ValueCyclesTracked(g: Graph, e: Equalities, s: set<Node>) {
    forall w | |w| >= 2 && w[0] in s && ValueWalk(g, e, w) :: w[0] != w[|w| - 1]
  }

  ghost predicate SameAddressability(g: Graph, p: Pair) {
    p.left in g && p.right in g && g[p.left].addr.Some? == g[p.right].addr.Some?
  }

  lemma {:induction false} PartsSameAddressability(g: Graph, e: Equalities, exact: bool, p: Pair, q: Pair)
    requires WellFormed(g) && SameAddressability(g, p) && q in PairParts(g, e, exact, p)
    ensures SameAddressability(g, q)
  {
    assert CellOk(g, g[p.left]) && CellOk(g, g[p.right]) && PairOk(g, p.left, p.right);
    PartsAreChildren(exact, g[p.left].body, g[p.right].body, q);
  }

  lemma {:induction false} MetSameAddressability(g: Graph, e: Equalities, exact: bool, root: Pair)
    requires WellFormed(g) && SameAddressability(g, root)
    ensures forall p | p in Met(g, e, exact, root) :: SameAddressability(g, p)
  {
    var s := set x, y | x in g.Keys && y in g.Keys && SameAddressability(g, Pair(x, y)) :: Pair(x, y);
    forall p, q | p in s && q in PairParts(g, e, exact, p)
      ensures q in s
    {
      PartsSameAddressability(g, e, exact, p, q);
      assert q == Pair(q.left, q.right);
    }
    assert root == Pair(root.left, root.right);
    forall p | p in Met(g, e, exact, root)
      ensures p in s
    {
      var w :| Leads(g, e, exact, w, root, p);
      MetIsLeast(g, e, exact, w, s);
    }
  }

  /** If the left operand has no unremembered cycle, no comparison of it has one, whatever
      the right operand is. */
  lemma {:induction false} OneOperandEnough(g: Graph, e: Equalities, exact: bool, root: Pair)
    requires WellFormed(g) && SameAddressability(g, root)
    requires ValueCyclesTracked(g, e, set p | p in Met(g, e, exact, root) :: p.left)
    ensures CyclesTracked(g, e, exact, Met(g, e, exact, root))
  {
    MetClosed(g, e, exact, root);
    MetSameAddressability(g, e, exact, root);
    LeftCyclesEnough(g, e, exact, Met(g, e, exact, root));
  }

  lemma {:induction false} StepOfLeft(g: Graph, e: Equalities, exact: bool, p: Pair, q: Pair)
    requires WellFormed(g) && SameAddressability(g, p) && Step(g, e, exact, p, q)
    ensures ValueStep(g, e, p.left, q.left)
  {
    assert PairOk(g, p.left, p.right);
    PartsAreChildren(exact, g[p.left].body, g[p.right].body, q);
  }

  lemma {:induction false} LeftCyclesEnough(g: Graph, e: Equalities, exact: bool, met: Relation)
    requires WellFormed(g) && ClosedPairs(g, e, exact, met) && forall p | p in met :: SameAddressability(g, p)
    requires ValueCyclesTracked(g, e, set p | p in met :: p.left)
    ensures CyclesTracked(g, e, exact, met)
  {
    forall w: seq<Pair> | |w| >= 2 && w[0] in met && Walk(g, e, exact, w)
      ensures w[0] != w[|w| - 1]
    {
      var v := seq(|w|, i requires 0 <= i < |w| => w[i].left);
      forall i | 0 < i < |v|
        ensures ValueStep(g, e, v[i - 1], v[i])
      {
        WalkStaysMet(g, e, exact, met, w, i - 1);
        assert Step(g, e, exact, w[i - 1], w[i]);
        StepOfLeft(g, e, exact, w[i - 1], w[i]);
      }
      assert ValueWalk(g, e, v) && v[0] == w[0].left;
    }
  }

  lemma {:induction false} WalkStaysMet(g: Graph, e: Equalities, exact: bool, met: Relation, w: seq<Pair>, i: nat)
    requires ClosedPairs(g, e, exact, met) && w != [] && w[0] in met && Walk(g, e, exact, w) && i < |w|
    ensures w[i] in met
  {
    if i > 0 {
      WalkStaysMet(g, e, exact, met, w, i - 1);
      assert Step(g, e, exact, w[i - 1], w[i]);
    }
  }
}
