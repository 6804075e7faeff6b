/** `Equalities.DeepEqual`: a recursive comparison that takes every comparison
in progress to be true when it meets it again.

The meaning of deep equality is coinductive: two values are equal when some
relation that contains them is closed under the per-kind rules.  The rules know
nothing of addresses, of remembered pairs or of the identity shortcuts.
*/
module DeepEquality {
  import opened Options
  import opened ObjectGraph

  ghost predicate Pointwise(r: Relation, xs: seq<Node>, ys: seq<Node>) {
    |xs| == |ys| && forall i | 0 <= i < |xs| :: Pair(xs[i], ys[i]) in r
  }

  /** Deep equality of two values of one type, given that of their parts. */
  ghost predicate SameShape(r: Relation, a: Body, b: Body) {
    match (a, b)
    case (Basic(p), Basic(q)) => p == q
    case (Text(p), Text(q)) => p == q
    case (Func(p), Func(q)) => p && q
    case (Array(xs), Array(ys)) => Pointwise(r, xs, ys)
    case (Slice(_, _, xs), Slice(_, _, ys)) => Pointwise(r, xs, ys)
    case (Interface(p), Interface(q)) => Related(r, p, q)
    case (Pointer(p), Pointer(q)) => Related(r, p, q)
    case (Struct(xs), Struct(ys)) => Pointwise(r, xs, ys)
    case (Map(_, _, m), Map(_, _, n)) => m.Keys == n.Keys && forall k | k in m :: Pair(m[k], n[k]) in r
    case _ => false
  }

  ghost predicate Rule(g: Graph, e: Equalities, r: Relation, p: Pair) {
    var Pair(x, y) := p;
    && x in g && y in g && g[x].typ == g[y].typ
    && if g[x].typ in e then e[g[x].typ](x, y) else SameShape(r, g[x].body, g[y].body)
  }

  ghost predicate Bisimulation(g: Graph, e: Equalities, r: Relation) {
    forall p {:trigger Rule(g, e, r, p)} | p in r :: Rule(g, e, r, p)
  }

  ghost predicate Bisimilar(g: Graph, e: Equalities, p: Pair) {
    exists r: Relation :: p in r && Bisimulation(g, e, r)
  }

  /** Equality of two optional values: invalid values equal only each other. */
  ghost predicate Equal(g: Graph, e: Equalities, a: Option<Node>, b: Option<Node>) {
    a.Some? == b.Some? && (a.Some? ==> Bisimilar(g, e, Pair(a.value, b.value)))
  }

  /** Comparing a value with itself can only be skipped if it would succeed. */
  ghost predicate ReflexiveOn(g: Graph, e: Equalities) {
    forall x | x in g ::
      if g[x].typ in e then e[g[x].typ](x, x) else g[x].body.Func? ==> g[x].body.isNil
  }

  ghost predicate SymmetricOn(g: Graph, e: Equalities) {
    forall x, y | x in g && y in g && g[x].typ == g[y].typ && g[x].typ in e && e[g[x].typ](x, y) ::
      e[g[x].typ](y, x)
  }

  ghost predicate TransitiveOn(g: Graph, e: Equalities) {
    forall x, y, z | x in g && y in g && z in g && g[x].typ == g[y].typ == g[z].typ && g[x].typ in e ::
      e[g[x].typ](x, y) && e[g[x].typ](y, z) ==> e[g[x].typ](x, z)
  }

  // ----- the relation that a comparison builds

  /** What the pairs claimed so far stand for: either order, and identity. */
  ghost function Full(g: Graph, c: Relation): Relation {
    c + (set p | p in c :: p.Swap()) + (set x | x in g.Keys :: Pair(x, x))
  }

  /** Every claim made since `base` follows from the claims. */
  ghost predicate Justified(g: Graph, e: Equalities, c: Relation, base: Relation) {
    forall p {:trigger Rule(g, e, Full(g, c), p)} | p in c && p !in base :: Rule(g, e, Full(g, c), p)
  }

  lemma {:induction false} FullMonotone(g: Graph, c: Relation, d: Relation)
    requires c <= d
    ensures Full(g, c) <= Full(g, d)
  {
  }

  lemma {:induction false} RuleMonotone(g: Graph, e: Equalities, r: Relation, s: Relation, p: Pair)
    requires r <= s && Rule(g, e, r, p)
    ensures Rule(g, e, s, p)
  {
  }

  lemma {:induction false} JustifiedExtend(g: Graph, e: Equalities, base: Relation, c: Relation, d: Relation)
    requires c <= d && Justified(g, e, c, base) && Justified(g, e, d, c)
    ensures Justified(g, e, d, base)
  {
    FullMonotone(g, c, d);
    forall p | p in d && p !in base
      ensures Rule(g, e, Full(g, d), p)
    {
      if p in c {
        RuleMonotone(g, e, Full(g, c), Full(g, d), p);
      }
    }
  }

  lemma {:induction false} RuleSymmetric(g: Graph, e: Equalities, r: Relation, s: Relation, p: Pair)
    requires SymmetricOn(g, e) && Rule(g, e, r, p)
    requires forall q | q in r :: q.Swap() in s
    ensures Rule(g, e, s, p.Swap())
  {
    assert forall x, y | Pair(x, y) in r :: Pair(x, y).Swap() in s;
  }

  lemma {:induction false} RuleReflexive(g: Graph, e: Equalities, r: Relation, x: Node)
    requires WellFormed(g) && ReflexiveOn(g, e) && x in g
    requires forall a | a in g :: Pair(a, a) in r
    ensures Rule(g, e, r, Pair(x, x))
  {
    assert CellOk(g, g[x]);
    ElemsAreChildren(g[x].body);
  }

  /** A comparison that justified all its claims has found a bisimulation. */
  lemma {:induction false} ClaimsAreBisimulation(g: Graph, e: Equalities, c: Relation)
    requires WellFormed(g) && ReflexiveOn(g, e) && SymmetricOn(g, e)
    requires Justified(g, e, c, {})
    ensures Bisimulation(g, e, Full(g, c))
  {
    var f := Full(g, c);
    forall p | p in f
      ensures Rule(g, e, f, p)
    {
      if p in c {
      } else if p.left == p.right {
        RuleReflexive(g, e, f, p.left);
      } else {
        assert p.Swap() in c;
        assert forall q | q in f :: q.Swap() in f by {
          forall q | q in f
            ensures q.Swap() in f
          {
            assert q.Swap().Swap() == q;
          }
        }
        RuleSymmetric(g, e, f, f, p.Swap());
      }
    }
  }

  // ----- bisimilarity obeys the rules

  ghost function Bisimilarity(g: Graph, e: Equalities): Relation {
    set x, y | x in g.Keys && y in g.Keys && Bisimilar(g, e, Pair(x, y)) :: Pair(x, y)
  }

  lemma {:induction false} BisimilarityObeysRules(g: Graph, e: Equalities, p: Pair)
    requires Bisimilar(g, e, p)
    ensures Rule(g, e, Bisimilarity(g, e), p)
  {
    var r: Relation :| p in r && Bisimulation(g, e, r);
    forall q | q in r
      ensures q in Bisimilarity(g, e)
    {
      assert Rule(g, e, r, q);
      assert q == Pair(q.left, q.right);
      assert Bisimilar(g, e, q);
    }
    assert Rule(g, e, r, p);
    RuleMonotone(g, e, r, Bisimilarity(g, e), p);
  }

  /** Deep equality is an equivalence whenever the registered equalities are. */
  lemma {:induction false} BisimilarReflexive(g: Graph, e: Equalities, x: Node)
    requires WellFormed(g) && ReflexiveOn(g, e) && x in g
    ensures Bisimilar(g, e, Pair(x, x))
  {
    var r: Relation := set a | a in g.Keys :: Pair(a, a);
    forall p | p in r
      ensures Rule(g, e, r, p)
    {
      RuleReflexive(g, e, r, p.left);
    }
    assert Bisimulation(g, e, r);
  }

  lemma {:induction false} BisimilarSymmetric(g: Graph, e: Equalities, p: Pair)
    requires SymmetricOn(g, e) && Bisimilar(g, e, p)
    ensures Bisimilar(g, e, p.Swap())
  {
    var r: Relation :| p in r && Bisimulation(g, e, r);
    var s: Relation := set q | q in r :: q.Swap();
    forall q | q in s
      ensures Rule(g, e, s, q)
    {
      var q' :| q' in r && q == q'.Swap();
      assert Rule(g, e, r, q');
      RuleSymmetric(g, e, r, s, q');
    }
    assert Bisimulation(g, e, s) && p.Swap() in s;
  }

  ghost function Compose(r: Relation, s: Relation): Relation {
    set p, q | p in r && q in s && p.right == q.left :: Pair(p.left, q.right)
  }

  lemma {:induction false} ComposeContains(r: Relation, s: Relation)
    ensures forall x, y, z {:trigger Pair(x, y), Pair(y, z)} | Pair(x, y) in r && Pair(y, z) in s ::
              Pair(x, z) in Compose(r, s)
  {
    forall x, y, z {:trigger Pair(x, y), Pair(y, z)} | Pair(x, y) in r && Pair(y, z) in s
      ensures Pair(x, z) in Compose(r, s)
    {
      var p, q := Pair(x, y), Pair(y, z);
      assert p in r && q in s && p.right == q.left && Pair(p.left, q.right) == Pair(x, z);
    }
  }

  lemma {:induction false} RuleCompose(g: Graph, e: Equalities, r: Relation, s: Relation, x: Node, y: Node, z: Node)
    requires TransitiveOn(g, e) && Rule(g, e, r, Pair(x, y)) && Rule(g, e, s, Pair(y, z))
    ensures Rule(g, e, Compose(r, s), Pair(x, z))
  {
    ComposeContains(r, s);
  }

  lemma {:induction false} BisimilarTransitive(g: Graph, e: Equalities, x: Node, y: Node, z: Node)
    requires TransitiveOn(g, e) && Bisimilar(g, e, Pair(x, y)) && Bisimilar(g, e, Pair(y, z))
    ensures Bisimilar(g, e, Pair(x, z))
  {
    var r: Relation :| Pair(x, y) in r && Bisimulation(g, e, r);
    var s: Relation :| Pair(y, z) in s && Bisimulation(g, e, s);
    var t := Compose(r, s);
    forall p | p in t
      ensures Rule(g, e, t, p)
    {
      var q, q' :| q in r && q' in s && q.right == q'.left && p == Pair(q.left, q'.right);
      assert Rule(g, e, r, q) && Rule(g, e, s, q');
      RuleCompose(g, e, r, s, q.left, q.right, q'.right);
    }
    ComposeContains(r, s);
    assert Bisimulation(g, e, t) && Pair(x, z) in t;
  }

  // ----- equality is the absence of a visible difference

  /** Two values differ without a look at their parts.  Whether a slice or map is nil does
      not show, only whether it is empty. */
  ghost predicate BodiesDiffer(a: Body, b: Body) {
    match (a, b)
    case (Basic(p), Basic(q)) => p != q
    case (Text(p), Text(q)) => p != q
    case (Func(p), Func(q)) => !p || !q
    case (Array(xs), Array(ys)) => |xs| != |ys|
    case (Slice(_, _, xs), Slice(_, _, ys)) => |xs| != |ys|
    case (Interface(p), Interface(q)) => p.Some? != q.Some?
    case (Pointer(p), Pointer(q)) => p.Some? != q.Some?
    case (Struct(xs), Struct(ys)) => |xs| != |ys|
    case (Map(_, _, m), Map(_, _, n)) => exists k :: (k in m) != (k in n)
    case _ => true
  }

  ghost predicate Differ(g: Graph, e: Equalities, p: Pair)
    requires p.left in g && p.right in g
  {
    var c, d := g[p.left], g[p.right];
    c.typ != d.typ || if c.typ in e then !e[c.typ](p.left, p.right) else BodiesDiffer(c.body, d.body)
  }

  /** No pair that corresponding steps from the roots lead to differs. */
  ghost predicate NoDifference(g: Graph, e: Equalities, root: Pair) {
    forall p | p in Met(g, e, true, root) :: p.left in g && p.right in g && !Differ(g, e, p)
  }

  lemma {:induction false} SameByParts(r: Relation, a: Body, b: Body)
    requires !BodiesDiffer(a, b) && Parts(true, a, b) <= r
    ensures SameShape(r, a, b)
  {
    if a.Array? || a.Slice? {
      ZipContains(a.elems, b.elems);
    } else if a.Struct? {
      ZipContains(a.fields, b.fields);
    } else if a.Map? {
      assert a.entries.Keys == b.entries.Keys;
      assert |a.entries| == |a.entries.Keys| && |b.entries| == |b.entries.Keys|;
    }
  }

  lemma {:induction false} SameHasParts(r: Relation, a: Body, b: Body)
    requires SameShape(r, a, b)
    ensures !BodiesDiffer(a, b) && Parts(true, a, b) <= r
  {
    if a.Map? {
      assert forall k :: k in a.entries <==> k in a.entries.Keys;
      assert forall k :: k in b.entries <==> k in b.entries.Keys;
    }
  }

  lemma {:induction false} BisimilarAlong(g: Graph, e: Equalities, w: seq<Pair>)
    requires w != [] && Path(g, e, true, w) && Bisimilar(g, e, w[0])
    ensures Bisimilar(g, e, w[|w| - 1])
  {
    var n := |w| - 1;
    if n > 0 {
      BisimilarAlong(g, e, w[..n]);
      var p, q := w[n - 1], w[n];
      BisimilarityObeysRules(g, e, p);
      assert q in PairParts(g, e, true, p);
      SameHasParts(Bisimilarity(g, e), g[p.left].body, g[p.right].body);
    }
  }

  /** Two values are equal exactly if no corresponding steps from them lead to a visible
      difference. */
  lemma {:induction false} EqualIffNoDifference(g: Graph, e: Equalities, root: Pair)
    requires WellFormed(g) && root.left in g && root.right in g
    ensures Bisimilar(g, e, root) <==> NoDifference(g, e, root)
  {
    var met := Met(g, e, true, root);
    MetClosed(g, e, true, root);
    if Bisimilar(g, e, root) {
      forall p | p in met
        ensures !Differ(g, e, p)
      {
        var w :| Leads(g, e, true, w, root, p);
        BisimilarAlong(g, e, w);
        BisimilarityObeysRules(g, e, p);
        if g[p.left].typ !in e {
          SameHasParts(Bisimilarity(g, e), g[p.left].body, g[p.right].body);
        }
      }
    }
    if NoDifference(g, e, root) {
      forall p | p in met
        ensures Rule(g, e, met, p)
      {
        if g[p.left].typ !in e {
          assert PairParts(g, e, true, p) <= met;
          SameByParts(met, g[p.left].body, g[p.right].body);
        }
      }
      assert Bisimulation(g, e, met) && root in met;
    }
  }

  // ----- the algorithm

  lemma {:induction false} SubsetSize<T>(a: set<T>, b: set<T>)
    requires a <= b
    ensures |a| <= |b|
    ensures |a| == |b| ==> a == b
  {
    if a != {} {
      var x :| x in a;
      SubsetSize(a - {x}, b - {x});
    }
  }

  class Comparison {
    const g: Graph
    const e: Equalities
    ghost const rank: map<Pair, nat>

    /** The pairs that the comparison can meet. */
    ghost const met: Relation

    var visited: set<Visit>

    /** The keys that `visited` does not hold yet. */
    ghost var unvisited: set<Visit>

    /** The pairs whose comparison has started. */
    ghost var claimed: Relation

    ghost predicate Valid()
      reads this
    {
      && WellFormed(g) && ClosedPairs(g, e, true, met) && Ranked(g, e, true, met, rank)
      && unvisited == AllVisits(g) - visited
      && VisitsClaimed()
    }

    ghost predicate VisitsClaimed()
      reads this
    {
      forall x: Node, y: Node {:trigger TrackedPair(g, x, y)} |
        TrackedPair(g, x, y) && VisitOf(g, x, y) in visited ::
        Pair(x, y) in claimed || Pair(y, x) in claimed
    }

    constructor (g: Graph, e: Equalities, ghost met: Relation, ghost rank: map<Pair, nat>)
      requires WellFormed(g) && ClosedPairs(g, e, true, met) && Ranked(g, e, true, met, rank)
      ensures Valid() && visited == {} && claimed == {}
      ensures this.g == g && this.e == e && this.met == met
    {
      this.g, this.e, this.met, this.rank := g, e, met, rank;
      visited, unvisited, claimed := {}, AllVisits(g), {};
    }

    ghost predicate Comparable(a: Option<Node>, b: Option<Node>) {
      && (a.Some? ==> a.value in g) && (b.Some? ==> b.value in g)
      && (a.Some? && b.Some? ==> Pair(a.value, b.value) in met && SameAddressability(g, Pair(a.value, b.value)))
    }

    ghost function RankOf(a: Option<Node>, b: Option<Node>): int {
      if a.Some? && b.Some? && Pair(a.value, b.value) in rank then rank[Pair(a.value, b.value)] else -1
    }

    /** The parts of `x` and `y` that are compared rank below `bound`. */
    ghost predicate PartsOf(x: Node, y: Node, bound: nat) {
      && Pair(x, y) in met && SameAddressability(g, Pair(x, y))
      && g[x].typ == g[y].typ && g[x].typ !in e
      && (!SharedStorage(g[x].body, g[y].body) ==>
            forall q | q in Parts(true, g[x].body, g[y].body) :: q in rank && rank[q] < bound)
    }

    ghost function BoundOf(x: Node, y: Node): nat
      requires Pair(x, y) in rank
    {
      if TrackedPair(g, x, y) then RankBound(rank) else rank[Pair(x, y)]
    }

    lemma {:induction false} PartsRanked(x: Node, y: Node)
      requires WellFormed(g) && ClosedPairs(g, e, true, met) && Ranked(g, e, true, met, rank)
      requires Pair(x, y) in met && SameAddressability(g, Pair(x, y)) && g[x].typ == g[y].typ && g[x].typ !in e
      ensures PartsOf(x, y, BoundOf(x, y))
    {
      var p := Pair(x, y);
      forall q | q in Parts(true, g[x].body, g[y].body) && !SharedStorage(g[x].body, g[y].body)
        ensures q in rank && rank[q] < BoundOf(x, y)
      {
        assert q in PairParts(g, e, true, p);
        if !TrackedPair(g, x, y) {
          assert Step(g, e, true, p, q);
        }
      }
    }

    lemma {:induction false} PartsComparable(x: Node, y: Node, c: Node, d: Node)
      requires WellFormed(g) && ClosedPairs(g, e, true, met)
      requires Pair(x, y) in met && SameAddressability(g, Pair(x, y)) && g[x].typ == g[y].typ && g[x].typ !in e
      requires Pair(c, d) in Parts(true, g[x].body, g[y].body)
      ensures Comparable(Some(c), Some(d))
    {
      assert Pair(c, d) in PairParts(g, e, true, Pair(x, y));
      PartsSameAddressability(g, e, true, Pair(x, y), Pair(c, d));
    }

    method DeepValueEqual(a: Option<Node>, b: Option<Node>) returns (eq: bool)
      requires Valid() && Comparable(a, b)
      modifies this
      ensures Valid() && unvisited <= old(unvisited) && old(claimed) <= claimed
      ensures eq ==> Related(Full(g, claimed), a, b) && Justified(g, e, claimed, old(claimed))
      ensures !eq ==> !Equal(g, e, a, b)
      decreases unvisited, RankOf(a, b), 1
    {
      if a.None? || b.None? {
        return a.None? == b.None?;
      }
      var x, y := a.value, b.value;
      if g[x].typ != g[y].typ {
        if Bisimilar(g, e, Pair(x, y)) {
          BisimilarityObeysRules(g, e, Pair(x, y));
        }
        return false;
      }
      if g[x].typ in e {
        claimed := claimed + {Pair(x, y)};
        if Bisimilar(g, e, Pair(x, y)) {
          BisimilarityObeysRules(g, e, Pair(x, y));
        }
        return e[g[x].typ](x, y);
      }
      assert PairOk(g, x, y) && CellOk(g, g[x]);
      if g[x].addr.Some? && g[y].addr.Some? && Hard(g[x].body) {
        var a1, a2 := g[x].addr.value, g[y].addr.value;
        if a1 > a2 {
          a1, a2 := a2, a1;
        }
        if a1 == a2 {
          return true;
        }
        var v := Visit(a1, a2, g[x].typ);
        assert TrackedPair(g, x, y);
        if v in visited {
          assert Pair(y, x).Swap() == Pair(x, y);
          return true;
        }
        Remember(x, y, v);
      } else {
        claimed := claimed + {Pair(x, y)};
      }
      ghost var start := claimed;
      PartsRanked(x, y);
      eq := DeepKindEqual(x, y, BoundOf(x, y));
      if eq {
        assert Justified(g, e, claimed, start);
        assert Rule(g, e, Full(g, claimed), Pair(x, y));
      } else if Bisimilar(g, e, Pair(x, y)) {
        BisimilarityObeysRules(g, e, Pair(x, y));
      }
    }

    /** Adds a pair to `visited` before its parts are compared. */
    method Remember(x: Node, y: Node, v: Visit)
      requires Valid() && TrackedPair(g, x, y) && v == VisitOf(g, x, y) && v !in visited
      modifies this
      ensures Valid() && unvisited < old(unvisited)
      ensures visited == old(visited) + {v}
      ensures claimed == old(claimed) + {Pair(x, y)}
    {
      assert v in AllVisits(g);
      visited, unvisited := visited + {v}, unvisited - {v};
      claimed := claimed + {Pair(x, y)};
      forall x': Node, y': Node | TrackedPair(g, x', y') && VisitOf(g, x', y') in visited
        ensures Pair(x', y') in claimed || Pair(y', x') in claimed
      {
        if VisitOf(g, x', y') == v {
          VisitDeterminesPair(g, x, y, x', y');
        }
      }
    }

    /** The switch over kinds, for a pair that has just been claimed. */
    method DeepKindEqual(x: Node, y: Node, ghost bound: nat) returns (eq: bool)
      requires Valid() && PartsOf(x, y, bound)
      modifies this
      ensures Valid() && unvisited <= old(unvisited) && old(claimed) <= claimed
      ensures eq ==> SameShape(Full(g, claimed), g[x].body, g[y].body)
      ensures eq ==> Justified(g, e, claimed, old(claimed))
      ensures !eq ==> !SameShape(Bisimilarity(g, e), g[x].body, g[y].body)
      decreases unvisited, bound, 0, 2
    {
      assert CellOk(g, g[x]) && CellOk(g, g[y]) && PairOk(g, x, y);
      match (g[x].body, g[y].body)
      case (Array(xs), Array(ys)) =>
        ZipContains(xs, ys);
        eq := DeepElemsEqual(xs, ys, x, y, bound);
      case (Slice(_, _, _), Slice(_, _, _)) =>
        eq := DeepSliceEqual(x, y, bound);
      case (Interface(p), Interface(q)) =>
        if p.None? || q.None? {
          return p.None? == q.None?;
        }
        PartsComparable(x, y, p.value, q.value);
        eq := DeepValueEqual(p, q);
      case (Pointer(p), Pointer(q)) =>
        if p.Some? && q.Some? {
          PartsComparable(x, y, p.value, q.value);
        }
        eq := DeepValueEqual(p, q);
      case (Struct(xs), Struct(ys)) =>
        ZipContains(xs, ys);
        eq := DeepElemsEqual(xs, ys, x, y, bound);
      case (Map(_, _, _), Map(_, _, _)) =>
        eq := DeepMapEqual(x, y, bound);
      case (Func(n1), Func(n2)) =>
        return n1 && n2;
      case (Basic(d1), Basic(d2)) =>
        return d1 == d2;
      case (Text(t1), Text(t2)) =>
        return t1 == t2;
    }

    method DeepSliceEqual(x: Node, y: Node, ghost bound: nat) returns (eq: bool)
      requires Valid() && PartsOf(x, y, bound) && g[x].body.Slice? && g[y].body.Slice?
      modifies this
      ensures Valid() && unvisited <= old(unvisited) && old(claimed) <= claimed
      ensures eq ==> Pointwise(Full(g, claimed), g[x].body.elems, g[y].body.elems)
      ensures eq ==> Justified(g, e, claimed, old(claimed))
      ensures !eq ==> !Pointwise(Bisimilarity(g, e), g[x].body.elems, g[y].body.elems)
      decreases unvisited, bound, 0, 1
    {
      assert CellOk(g, g[x]) && CellOk(g, g[y]) && PairOk(g, x, y);
      var Slice(n1, p1, xs) := g[x].body;
      var Slice(n2, p2, ys) := g[y].body;
      if (n1 || |xs| == 0) != (n2 || |ys| == 0) {
        return false;
      }
      if n1 || |xs| == 0 {
        return true;
      }
      if |xs| != |ys| {
        return false;
      }
      if p1 == p2 {
        assert xs == ys;
        ElemsAreChildren(g[x].body);
        return true;
      }
      ZipContains(xs, ys);
      eq := DeepElemsEqual(xs, ys, x, y, bound);
    }

    method DeepMapEqual(x: Node, y: Node, ghost bound: nat) returns (eq: bool)
      requires Valid() && PartsOf(x, y, bound) && g[x].body.Map? && g[y].body.Map?
      modifies this
      ensures Valid() && unvisited <= old(unvisited) && old(claimed) <= claimed
      ensures eq ==> SameShape(Full(g, claimed), g[x].body, g[y].body)
      ensures eq ==> Justified(g, e, claimed, old(claimed))
      ensures !eq ==> !SameShape(Bisimilarity(g, e), g[x].body, g[y].body)
      decreases unvisited, bound, 0, 1
    {
      assert CellOk(g, g[x]) && CellOk(g, g[y]) && PairOk(g, x, y);
      var Map(n1, p1, m1) := g[x].body;
      var Map(n2, p2, m2) := g[y].body;
      assert |m1.Keys| == |m1| && |m2.Keys| == |m2|;
      if (n1 || |m1| == 0) != (n2 || |m2| == 0) {
        return false;
      }
      if n1 || |m1| == 0 {
        return true;
      }
      if |m1| != |m2| {
        return false;
      }
      if p1 == p2 {
        assert m1 == m2;
        ElemsAreChildren(g[x].body);
        return true;
      }
      eq := DeepEntriesEqual(m1, m2, x, y, bound);
    }

    /** The loop over array elements, slice elements or struct fields. */
    method DeepElemsEqual(xs: seq<Node>, ys: seq<Node>, ghost x: Node, ghost y: Node, ghost bound: nat)
      returns (eq: bool)
      requires Valid() && PartsOf(x, y, bound) && |xs| == |ys| && !SharedStorage(g[x].body, g[y].body)
      requires forall i | 0 <= i < |xs| :: Pair(xs[i], ys[i]) in Parts(true, g[x].body, g[y].body)
      modifies this
      ensures Valid() && unvisited <= old(unvisited) && old(claimed) <= claimed
      ensures eq ==> Pointwise(Full(g, claimed), xs, ys) && Justified(g, e, claimed, old(claimed))
      ensures !eq ==> !Pointwise(Bisimilarity(g, e), xs, ys)
      decreases unvisited, bound, 0, 0
    {
      var i := 0;
      while i < |xs|
        invariant 0 <= i <= |xs|
        invariant Valid() && unvisited <= old(unvisited) && old(claimed) <= claimed
        invariant Justified(g, e, claimed, old(claimed))
        invariant forall j | 0 <= j < i :: Pair(xs[j], ys[j]) in Full(g, claimed)
      {
        ghost var before := claimed;
        PartsComparable(x, y, xs[i], ys[i]);
        eq := DeepValueEqual(Some(xs[i]), Some(ys[i]));
        if !eq {
          assert Pair(xs[i], ys[i]) !in Bisimilarity(g, e);
          return;
        }
        FullMonotone(g, before, claimed);
        JustifiedExtend(g, e, old(claimed), before, claimed);
        i := i + 1;
      }
      return true;
    }

    /** The loop over map keys, in any order. */
    method DeepEntriesEqual(m1: map<Key, Node>, m2: map<Key, Node>, ghost x: Node, ghost y: Node, ghost bound: nat)
      returns (eq: bool)
      requires Valid() && PartsOf(x, y, bound) && |m1.Keys| == |m2.Keys| && !SharedStorage(g[x].body, g[y].body)
      requires m1.Values <= g.Keys
      requires forall k | k in m1 && k in m2 :: Pair(m1[k], m2[k]) in Parts(true, g[x].body, g[y].body)
      modifies this
      ensures Valid() && unvisited <= old(unvisited) && old(claimed) <= claimed
      ensures eq ==> m1.Keys == m2.Keys && forall k | k in m1 :: Pair(m1[k], m2[k]) in Full(g, claimed)
      ensures eq ==> Justified(g, e, claimed, old(claimed))
      ensures !eq ==> m1.Keys == m2.Keys ==> exists k | k in m1 :: Pair(m1[k], m2[k]) !in Bisimilarity(g, e)
      decreases unvisited, bound, 0, 0
    {
      var todo := m1.Keys;
      while todo != {}
        invariant todo <= m1.Keys
        invariant Valid() && unvisited <= old(unvisited) && old(claimed) <= claimed
        invariant Justified(g, e, claimed, old(claimed))
        invariant forall k | k in m1.Keys - todo :: k in m2 && Pair(m1[k], m2[k]) in Full(g, claimed)
        decreases todo
      {
        var k :| k in todo;
        ghost var before := claimed;
        if k in m2 {
          PartsComparable(x, y, m1[k], m2[k]);
        }
        eq := DeepValueEqual(Some(m1[k]), if k in m2 then Some(m2[k]) else None);
        if !eq {
          assert k in m2 ==> Pair(m1[k], m2[k]) !in Bisimilarity(g, e);
          return;
        }
        FullMonotone(g, before, claimed);
        JustifiedExtend(g, e, old(claimed), before, claimed);
        todo := todo - {k};
      }
      SubsetSize(m1.Keys, m2.Keys);
      return true;
    }
  }

  /** `DeepEqual` decides bisimilarity: it finds every difference that the rules
      see, and only those if skipping identical and reversed comparisons is harmless. */
  method DeepEqual(g: Graph, e: Equalities, a: Option<Node>, b: Option<Node>) returns (eq: bool)
    requires WellFormed(g)
    requires a.Some? ==> a.value in g && g[a.value].addr.None?
    requires b.Some? ==> b.value in g && g[b.value].addr.None?
    requires a.Some? && b.Some? ==> CyclesTracked(g, e, true, Met(g, e, true, Pair(a.value, b.value)))
    ensures !eq ==> !Equal(g, e, a, b)
    ensures ReflexiveOn(g, e) && SymmetricOn(g, e) && eq ==> Equal(g, e, a, b)
    ensures a.None? || b.None? ==> (eq <==> a.None? && b.None?)
    ensures a.Some? && b.Some? && !eq ==> !NoDifference(g, e, Pair(a.value, b.value))
    ensures a.Some? && b.Some? && ReflexiveOn(g, e) && SymmetricOn(g, e) && eq ==>
              NoDifference(g, e, Pair(a.value, b.value))
  {
    if a.None? || b.None? {
      return a == b;
    }
    EqualIffNoDifference(g, e, Pair(a.value, b.value));
    if g[a.value].typ != g[b.value].typ {
      if Equal(g, e, a, b) {
        BisimilarityObeysRules(g, e, Pair(a.value, b.value));
      }
      return false;
    }
    ghost var root := Pair(a.value, b.value);
    ghost var met := Met(g, e, true, root);
    MetClosed(g, e, true, root);
    RankedIffCyclesTracked(g, e, true, met);
    ghost var rank :| Ranked(g, e, true, met, rank);
    var c := new Comparison(g, e, met, rank);
    eq := c.DeepValueEqual(a, b);
    if eq && ReflexiveOn(g, e) && SymmetricOn(g, e) {
      ClaimsAreBisimulation(g, e, c.claimed);
      assert Pair(a.value, b.value) in Full(g, c.claimed);
    }
  }
}
