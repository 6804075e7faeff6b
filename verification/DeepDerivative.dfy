/** `Equalities.DeepDerivative`: like `DeepEqual`, except that whatever is unset on
the left is not compared.

Its meaning is a simulation rather than a bisimulation.  The keys of `visited`
are stored in canonical order although the relation is not symmetric, so of a pair
that is met in both orders only one is compared, and the other is taken on trust.
*/
module DeepDerivation {
  import opened Options
  import opened ObjectGraph
  import opened DeepEquality

  ghost predicate PrefixPointwise(r: Relation, xs: seq<Node>, ys: seq<Node>) {
    |xs| <= |ys| && forall i | 0 <= i < |xs| :: Pair(xs[i], ys[i]) in r
  }

  ghost predicate UnsetOrRelated(r: Relation, a: Option<Node>, b: Option<Node>) {
    a.Some? ==> b.Some? && Pair(a.value, b.value) in r
  }

  /** What the left value has set, the right value has too. */
  ghost predicate CoveredShape(r: Relation, a: Body, b: Body) {
    match (a, b)
    case (Basic(p), Basic(q)) => p == q
    case (Text(p), Text(q)) => p == "" || p == q
    case (Func(p), Func(q)) => p && q
    case (Array(xs), Array(ys)) => PrefixPointwise(r, xs, ys)
    case (Slice(_, _, xs), Slice(_, _, ys)) => PrefixPointwise(r, xs, ys)
    case (Interface(p), Interface(q)) => UnsetOrRelated(r, p, q)
    case (Pointer(p), Pointer(q)) => UnsetOrRelated(r, p, q)
    case (Struct(xs), Struct(ys)) => PrefixPointwise(r, xs, ys)
    case (Map(_, _, m), Map(_, _, n)) => m.Keys <= n.Keys && forall k | k in m :: Pair(m[k], n[k]) in r
    case _ => false
  }

  ghost predicate DeriveRule(g: Graph, e: Equalities, r: Relation, p: Pair) {
    var Pair(x, y) := p;
    && x in g && y in g && g[x].typ == g[y].typ
    && if g[x].typ in e then e[g[x].typ](x, y) else CoveredShape(r, g[x].body, g[y].body)
  }

  ghost predicate Simulation(g: Graph, e: Equalities, r: Relation) {
    forall p {:trigger DeriveRule(g, e, r, p)} | p in r :: DeriveRule(g, e, r, p)
  }

  ghost predicate Simulated(g: Graph, e: Equalities, p: Pair) {
    exists r: Relation :: p in r && Simulation(g, e, r)
  }

  ghost predicate Derivative(g: Graph, e: Equalities, a: Option<Node>, b: Option<Node>) {
    a.Some? == b.Some? && (a.Some? ==> Simulated(g, e, Pair(a.value, b.value)))
  }

  lemma {:induction false} DeriveRuleMonotone(g: Graph, e: Equalities, r: Relation, s: Relation, p: Pair)
    requires r <= s && DeriveRule(g, e, r, p)
    ensures DeriveRule(g, e, s, p)
  {
  }

  /** Every claim made since `base` follows from what is accepted. */
  ghost predicate Supported(g: Graph, e: Equalities, c: Relation, accepted: Relation, base: Relation) {
    forall p {:trigger DeriveRule(g, e, accepted, p)} | p in c && p !in base :: DeriveRule(g, e, accepted, p)
  }

  lemma {:induction false} SupportedExtend(g: Graph, e: Equalities, base: Relation,
                                           c: Relation, s: Relation, d: Relation, t: Relation)
    requires c <= d && s <= t && Supported(g, e, c, s, base) && Supported(g, e, d, t, c)
    ensures Supported(g, e, d, t, base)
  {
    forall p | p in d && p !in base
      ensures DeriveRule(g, e, t, p)
    {
      if p in c {
        DeriveRuleMonotone(g, e, s, t, p);
      }
    }
  }

  ghost function Similarity(g: Graph, e: Equalities): Relation {
    set x, y | x in g.Keys && y in g.Keys && Simulated(g, e, Pair(x, y)) :: Pair(x, y)
  }

  lemma {:induction false} SimilarityObeysRules(g: Graph, e: Equalities, p: Pair)
    requires Simulated(g, e, p)
    ensures DeriveRule(g, e, Similarity(g, e), p)
  {
    var r: Relation :| p in r && Simulation(g, e, r);
    forall q | q in r
      ensures q in Similarity(g, e)
    {
      assert DeriveRule(g, e, r, q);
      assert q == Pair(q.left, q.right);
      assert Simulated(g, e, q);
    }
    assert DeriveRule(g, e, r, p);
    DeriveRuleMonotone(g, e, r, Similarity(g, e), p);
  }

  // ----- how derivatives relate to equality and to each other

  /** Deep equality implies derivation in both directions. */
  lemma {:induction false} EqualImpliesDerivative(g: Graph, e: Equalities, a: Option<Node>, b: Option<Node>)
    requires SymmetricOn(g, e) && Equal(g, e, a, b)
    ensures Derivative(g, e, a, b) && Derivative(g, e, b, a)
  {
    if a.Some? {
      var p := Pair(a.value, b.value);
      BisimilarImpliesSimulated(g, e, p);
      BisimilarSymmetric(g, e, p);
      BisimilarImpliesSimulated(g, e, p.Swap());
    }
  }

  lemma {:induction false} BisimilarImpliesSimulated(g: Graph, e: Equalities, p: Pair)
    requires Bisimilar(g, e, p)
    ensures Simulated(g, e, p)
  {
    var r: Relation :| p in r && Bisimulation(g, e, r);
    forall q | q in r
      ensures DeriveRule(g, e, r, q)
    {
      assert Rule(g, e, r, q);
    }
    assert Simulation(g, e, r);
  }

  lemma {:induction false} DeriveRuleCompose(g: Graph, e: Equalities, r: Relation, s: Relation,
                                             x: Node, y: Node, z: Node)
    requires TransitiveOn(g, e) && DeriveRule(g, e, r, Pair(x, y)) && DeriveRule(g, e, s, Pair(y, z))
    ensures DeriveRule(g, e, Compose(r, s), Pair(x, z))
  {
    ComposeContains(r, s);
  }

  /** Derivation is transitive. */
  lemma {:induction false} DerivativeTransitive(g: Graph, e: Equalities,
                                                a: Option<Node>, b: Option<Node>, c: Option<Node>)
    requires TransitiveOn(g, e) && Derivative(g, e, a, b) && Derivative(g, e, b, c)
    ensures Derivative(g, e, a, c)
  {
    if a.Some? {
      var x, y, z := a.value, b.value, c.value;
      var r: Relation :| Pair(x, y) in r && Simulation(g, e, r);
      var s: Relation :| Pair(y, z) in s && Simulation(g, e, s);
      var t := Compose(r, s);
      forall p | p in t
        ensures DeriveRule(g, e, t, p)
      {
        var q, q' :| q in r && q' in s && q.right == q'.left && p == Pair(q.left, q'.right);
        assert DeriveRule(g, e, r, q) && DeriveRule(g, e, s, q');
        DeriveRuleCompose(g, e, r, s, q.left, q.right, q'.right);
      }
      ComposeContains(r, s);
      assert Simulation(g, e, t) && Pair(x, z) in t;
    }
  }

  lemma {:induction false} MutualShape(r: Relation, m: Relation, a: Body, b: Body)
    requires CoveredShape(r, a, b) && CoveredShape(r, b, a)
    requires forall p | p in r && p.Swap() in r :: p in m
    ensures SameShape(m, a, b)
  {
    assert forall x, y | Pair(x, y) in r && Pair(y, x) in r :: Pair(x, y).Swap() in r && Pair(x, y) in m;
  }

  /** Derivation in both directions is equality. */
  lemma {:induction false} MutualDerivativeIsEqual(g: Graph, e: Equalities, p: Pair)
    requires Simulated(g, e, p) && Simulated(g, e, p.Swap())
    ensures Bisimilar(g, e, p)
  {
    var r := Similarity(g, e);
    var m := set q | q in r && q.Swap() in r;
    forall q | q in m
      ensures Rule(g, e, m, q)
    {
      SimilarityObeysRules(g, e, q);
      SimilarityObeysRules(g, e, q.Swap());
      if g[q.left].typ !in e {
        MutualShape(r, m, g[q.left].body, g[q.right].body);
      }
    }
    SimilarityObeysRules(g, e, p);
    assert p == Pair(p.left, p.right) && p.Swap() == Pair(p.right, p.left);
    assert Bisimulation(g, e, m) && p in m;
  }

  // ----- derivation is the absence of anything that the right side lacks

  /** The left value has something set that the right one does not have, as far as shows
      without a look at their parts. */
  ghost predicate BodyLacks(a: Body, b: Body) {
    match (a, b)
    case (Basic(p), Basic(q)) => p != q
    case (Text(p), Text(q)) => p != "" && p != q
    case (Func(p), Func(q)) => !p || !q
    case (Array(xs), Array(ys)) => |xs| > |ys|
    case (Slice(_, _, xs), Slice(_, _, ys)) => |xs| > |ys|
    case (Interface(p), Interface(q)) => p.Some? && q.None?
    case (Pointer(p), Pointer(q)) => p.Some? && q.None?
    case (Struct(xs), Struct(ys)) => |xs| > |ys|
    case (Map(_, _, m), Map(_, _, n)) => exists k :: k in m && k !in n
    case _ => true
  }

  ghost predicate Lacks(g: Graph, e: Equalities, p: Pair)
    requires p.left in g && p.right in g
  {
    var c, d := g[p.left], g[p.right];
    c.typ != d.typ || if c.typ in e then !e[c.typ](p.left, p.right) else BodyLacks(c.body, d.body)
  }

  ghost predicate NothingLacking(g: Graph, e: Equalities, root: Pair) {
    forall p | p in Met(g, e, false, root) :: p.left in g && p.right in g && !Lacks(g, e, p)
  }

  lemma {:induction false} CoveredByParts(r: Relation, a: Body, b: Body)
    requires !BodyLacks(a, b) && Parts(false, a, b) <= r
    ensures CoveredShape(r, a, b)
  {
    if a.Array? || a.Slice? {
      ZipContains(a.elems, b.elems);
    } else if a.Struct? {
      ZipContains(a.fields, b.fields);
    } else if a.Map? {
      assert a.entries.Keys <= b.entries.Keys;
      SubsetSize(a.entries.Keys, b.entries.Keys);
      assert |a.entries| == |a.entries.Keys| && |b.entries| == |b.entries.Keys|;
    }
  }

  lemma {:induction false} CoveredLacksNothing(r: Relation, a: Body, b: Body)
    requires CoveredShape(r, a, b)
    ensures !BodyLacks(a, b)
  {
    if a.Map? {
      assert forall k | k in a.entries :: k in a.entries.Keys && k in b.entries.Keys;
    }
  }

  /** A value is a derivative exactly if no corresponding steps lead to something that the
      left side has set and the right side lacks. */
  lemma {:induction false} DerivativeIffNothingLacking(g: Graph, e: Equalities, root: Pair)
    requires WellFormed(g) && root.left in g && root.right in g
    ensures Simulated(g, e, root) <==> NothingLacking(g, e, root)
  {
    var met := Met(g, e, false, root);
    MetClosed(g, e, false, root);
    if Simulated(g, e, root) {
      forall p | p in met
        ensures !Lacks(g, e, p)
      {
        var w :| Leads(g, e, false, w, root, p);
        MetIsNeeded(g, e, w);
        SimilarityObeysRules(g, e, p);
        if g[p.left].typ !in e {
          CoveredLacksNothing(Similarity(g, e), g[p.left].body, g[p.right].body);
        }
      }
    }
    if NothingLacking(g, e, root) {
      forall p | p in met
        ensures DeriveRule(g, e, met, p)
      {
        if g[p.left].typ !in e {
          assert PairParts(g, e, false, p) <= met;
          CoveredByParts(met, g[p.left].body, g[p.right].body);
        }
      }
      assert Simulation(g, e, met) && root in met;
    }
  }

  // ----- what is taken on trust

  lemma {:induction false} SubsetTooLarge<T>(a: set<T>, b: set<T>)
    requires |a| > |b|
    ensures !(a <= b)
  {
    if a <= b {
      SubsetSize(a, b);
    }
  }

  /** A derivation needs every pair that its comparison can meet to be one. */
  lemma {:induction false} MetIsNeeded(g: Graph, e: Equalities, w: seq<Pair>)
    requires w != [] && Path(g, e, false, w) && Simulated(g, e, w[0])
    ensures Simulated(g, e, w[|w| - 1])
  {
    var n := |w| - 1;
    if n > 0 {
      MetIsNeeded(g, e, w[..n]);
      var p, q := w[n - 1], w[n];
      SimilarityObeysRules(g, e, p);
      assert q in PairParts(g, e, false, p);
      PartsCovered(Similarity(g, e), g[p.left].body, g[p.right].body, q);
    }
  }

  lemma {:induction false} PartsCovered(r: Relation, a: Body, b: Body, q: Pair)
    requires CoveredShape(r, a, b) && q in Parts(false, a, b)
    ensures q in r
  {
  }

  /** Claims that follow from claims and derivations are derivations. */
  lemma {:induction false} ClaimsAreSimulated(g: Graph, e: Equalities, c: Relation, trusted: Relation, p: Pair)
    requires Supported(g, e, c, c + trusted, {}) && trusted <= Similarity(g, e) && p in c + trusted
    ensures Simulated(g, e, p)
  {
    var r := c + Similarity(g, e);
    forall q | q in r
      ensures DeriveRule(g, e, r, q)
    {
      if q in c {
        DeriveRuleMonotone(g, e, c + trusted, r, q);
      } else {
        SimilarityObeysRules(g, e, q);
        DeriveRuleMonotone(g, e, Similarity(g, e), r, q);
      }
    }
    assert Simulation(g, e, r) && p in r;
  }

  /** What skips a comparison with itself. */
  ghost predicate EqualsItself(g: Graph, e: Equalities, x: Node)
    requires x in g
  {
    if g[x].typ in e then e[g[x].typ](x, x) else g[x].body.Func? ==> g[x].body.isNil
  }

  /** Nothing that can be met is wrongly taken on trust: no remembered pair is met in both
      orders, and what is compared with itself equals itself. */
  ghost predicate OneOrder(g: Graph, e: Equalities, met: Relation)
    requires forall p | p in met :: p.left in g && p.right in g
  {
    && (forall p | p in met && UsesVisits(g, e, p) && p.left != p.right :: p.Swap() !in met)
    && (forall p | p in met && p.left == p.right :: EqualsItself(g, e, p.left))
  }

  /** A pair that is accepted without a comparison. */
  ghost predicate Trusted(g: Graph, e: Equalities, c: Relation, p: Pair) {
    p.left == p.right || (UsesVisits(g, e, p) && p.Swap() in c)
  }

  lemma {:induction false} SelfSimulated(g: Graph, e: Equalities, met: Relation, x: Node)
    requires WellFormed(g) && ClosedPairs(g, e, false, met) && OneOrder(g, e, met) && Pair(x, x) in met
    ensures Simulated(g, e, Pair(x, x))
  {
    var r := set p | p in met && p.left == p.right;
    forall p | p in r
      ensures DeriveRule(g, e, r, p)
    {
      SelfCovered(g, e, met, r, p.left);
      assert p == Pair(p.left, p.left);
    }
    assert Simulation(g, e, r) && Pair(x, x) in r;
  }

  lemma {:induction false} SelfCovered(g: Graph, e: Equalities, met: Relation, r: Relation, x: Node)
    requires WellFormed(g) && ClosedPairs(g, e, false, met) && Pair(x, x) in met && EqualsItself(g, e, x)
    requires forall p | p in met && p.left == p.right :: p in r
    ensures DeriveRule(g, e, r, Pair(x, x))
  {
    var b := g[x].body;
    if g[x].typ !in e {
      assert Parts(false, b, b) == PairParts(g, e, false, Pair(x, x));
      if b.Array? || b.Slice? {
        ZipContains(b.elems, b.elems);
      } else if b.Struct? {
        ZipContains(b.fields, b.fields);
      }
    }
  }

  /** If nothing is met in both orders, whatever is taken on trust is a derivation. */
  lemma {:induction false} TrustJustified(g: Graph, e: Equalities, met: Relation, c: Relation, trusted: Relation)
    requires WellFormed(g) && ClosedPairs(g, e, false, met) && OneOrder(g, e, met)
    requires c <= met && trusted <= met && forall p | p in trusted :: Trusted(g, e, c, p)
    ensures trusted <= Similarity(g, e)
  {
    forall p | p in trusted
      ensures p in Similarity(g, e)
    {
      assert p.Swap() in c ==> p.Swap() in met;
      assert p == Pair(p.left, p.left);
      SelfSimulated(g, e, met, p.left);
    }
  }

  // ----- operands that share little

  /** A set of values that holds the parts of its members. */
  ghost predicate Closed(g: Graph, s: set<Node>) {
    s <= g.Keys && forall x {:trigger Children(g[x].body)} | x in s :: Children(g[x].body) <= s
  }

  /** Of the values that both operands reach, no two that are remembered have the same type,
      and each equals itself. */
  ghost predicate Unmixed(g: Graph, e: Equalities, lefts: set<Node>, rights: set<Node>)
    requires lefts <= g.Keys && rights <= g.Keys
  {
    && (forall x, y | x in lefts * rights && y in lefts * rights && TrackedPair(g, x, y) :: x == y)
    && (forall x | x in lefts * rights :: EqualsItself(g, e, x))
  }

  /** Operands that share no storage are unmixed, whatever they hold. */
  lemma {:induction false} DisjointIsUnmixed(g: Graph, e: Equalities, lefts: set<Node>, rights: set<Node>)
    requires lefts <= g.Keys && rights <= g.Keys && lefts !! rights
    ensures Unmixed(g, e, lefts, rights)
  {
    assert lefts * rights == {};
  }

  /** No pair of unmixed operands can be met in both orders. */
  lemma {:induction false} UnmixedIsOneOrder(g: Graph, e: Equalities, lefts: set<Node>, rights: set<Node>, root: Pair)
    requires WellFormed(g) && Closed(g, lefts) && Closed(g, rights) && Unmixed(g, e, lefts, rights)
    requires root.left in lefts && root.right in rights
    ensures OneOrder(g, e, Met(g, e, false, root))
  {
    var s := set x, y | x in lefts && y in rights :: Pair(x, y);
    forall p, q | p in s && q in PairParts(g, e, false, p)
      ensures q in s
    {
      PartsAreChildren(false, g[p.left].body, g[p.right].body, q);
      assert q == Pair(q.left, q.right);
    }
    assert root == Pair(root.left, root.right);
    forall p | p in Met(g, e, false, root)
      ensures p in s
    {
      var w :| Leads(g, e, false, w, root, p);
      MetIsLeast(g, e, false, w, s);
    }
  }

  // ----- what is bound to be accepted

  /** A pair that is to be accepted when these comparisons have been remembered. */
  datatype Goal = Goal(visits: set<Visit>, pair: Pair)

  ghost function GoalsAt(goals: set<Goal>, visits: set<Visit>): Relation {
    set t | t in goals && t.visits <= visits :: t.pair
  }

  /** The pair is accepted without a comparison. */
  ghost predicate Skipped(g: Graph, e: Equalities, visits: set<Visit>, p: Pair) {
    UsesVisits(g, e, p) && (p.left == p.right || VisitOf(g, p.left, p.right) in visits)
  }

  ghost function Entered(g: Graph, e: Equalities, visits: set<Visit>, p: Pair): set<Visit> {
    if UsesVisits(g, e, p) then visits + {VisitOf(g, p.left, p.right)} else visits
  }

  /** Each goal is skipped, or meets its rule once its own comparison is remembered. */
  ghost predicate Achievable(g: Graph, e: Equalities, goals: set<Goal>) {
    forall t | t in goals ::
      || Skipped(g, e, t.visits, t.pair)
      || DeriveRule(g, e, GoalsAt(goals, Entered(g, e, t.visits, t.pair)), t.pair)
  }

  ghost predicate Acceptable(g: Graph, e: Equalities, visits: set<Visit>, p: Pair) {
    exists goals :: p in GoalsAt(goals, visits) && Achievable(g, e, goals)
  }

  ghost function Acceptance(g: Graph, e: Equalities, visits: set<Visit>): Relation {
    set x, y | x in g.Keys && y in g.Keys && Acceptable(g, e, visits, Pair(x, y)) :: Pair(x, y)
  }

  lemma {:induction false} GoalsAccepted(g: Graph, e: Equalities, goals: set<Goal>, visits: set<Visit>)
    requires Achievable(g, e, goals)
    ensures GoalsAt(goals, visits) <= Acceptance(g, e, visits)
  {
    forall p | p in GoalsAt(goals, visits)
      ensures p in Acceptance(g, e, visits)
    {
      assert p.left in g && p.right in g && p == Pair(p.left, p.right);
      assert Acceptable(g, e, visits, p);
    }
  }

  lemma {:induction false} AcceptanceMonotone(g: Graph, e: Equalities, u: set<Visit>, v: set<Visit>)
    requires u <= v
    ensures Acceptance(g, e, u) <= Acceptance(g, e, v)
  {
    forall p | p in Acceptance(g, e, u)
      ensures p in Acceptance(g, e, v)
    {
      var goals: set<Goal> :| p in GoalsAt(goals, u) && Achievable(g, e, goals);
      GoalsAccepted(g, e, goals, v);
      assert GoalsAt(goals, u) <= GoalsAt(goals, v);
    }
  }

  lemma {:induction false} AcceptanceObeysRules(g: Graph, e: Equalities, visits: set<Visit>, p: Pair)
    requires p in Acceptance(g, e, visits)
    ensures Skipped(g, e, visits, p) || DeriveRule(g, e, Acceptance(g, e, Entered(g, e, visits, p)), p)
  {
    var goals: set<Goal> :| p in GoalsAt(goals, visits) && Achievable(g, e, goals);
    var t: Goal :| t in goals && t.visits <= visits && t.pair == p;
    if !Skipped(g, e, visits, p) {
      var before, after := Entered(g, e, t.visits, p), Entered(g, e, visits, p);
      assert DeriveRule(g, e, GoalsAt(goals, before), p);
      GoalsAccepted(g, e, goals, after);
      assert GoalsAt(goals, before) <= GoalsAt(goals, after);
      DeriveRuleMonotone(g, e, GoalsAt(goals, before), Acceptance(g, e, after), p);
    }
  }

  /** Derivations are accepted whatever has been remembered. */
  lemma {:induction false} SimulatedIsAcceptable(g: Graph, e: Equalities, visits: set<Visit>, p: Pair)
    requires Simulated(g, e, p)
    ensures p in Acceptance(g, e, visits)
  {
    var r: Relation :| p in r && Simulation(g, e, r);
    var goals := set q | q in r :: Goal({}, q);
    forall v: set<Visit>
      ensures GoalsAt(goals, v) == r
    {
      forall q | q in r
        ensures q in GoalsAt(goals, v)
      {
        assert Goal({}, q) in goals;
      }
    }
    forall t | t in goals
      ensures DeriveRule(g, e, GoalsAt(goals, Entered(g, e, t.visits, t.pair)), t.pair)
    {
      assert DeriveRule(g, e, r, t.pair);
    }
    GoalsAccepted(g, e, goals, visits);
  }

  // ----- the algorithm

  class Derivation {
    const g: Graph
    const e: Equalities
    ghost const rank: map<Pair, nat>

    /** The pairs that the comparison can meet. */
    ghost const met: Relation

    var visited: set<Visit>

    /** The keys that `visited` does not hold yet. */
    ghost var unvisited: set<Visit>

    /** The pairs whose comparison has started. */
    ghost var claimed: Relation

    /** The pairs that were accepted without a comparison. */
    ghost var trusted: Relation

    ghost predicate Valid()
      reads this
    {
      && WellFormed(g) && ClosedPairs(g, e, false, met) && Ranked(g, e, false, met, rank)
      && claimed <= met && trusted <= met
      && (forall p {:trigger Trusted(g, e, claimed, p)} | p in trusted :: Trusted(g, e, claimed, p))
      && unvisited == AllVisits(g) - visited
      && VisitsClaimed()
    }

    ghost predicate VisitsClaimed()
      reads this
    {
      forall x: Node, y: Node {:trigger VisitOf(g, x, y)} |
        TrackedPair(g, x, y) && VisitOf(g, x, y) in visited ::
        Pair(x, y) in claimed || Pair(y, x) in claimed
    }

    constructor (g: Graph, e: Equalities, ghost met: Relation, ghost rank: map<Pair, nat>)
      requires WellFormed(g) && ClosedPairs(g, e, false, met) && Ranked(g, e, false, met, rank)
      ensures Valid() && visited == {} && claimed == {} && trusted == {}
      ensures this.g == g && this.e == e && this.met == met
    {
      this.g, this.e, this.met, this.rank := g, e, met, rank;
      visited, unvisited, claimed, trusted := {}, AllVisits(g), {}, {};
    }

    ghost function Seen(): Relation
      reads this
    {
      claimed + trusted
    }

    /** What every call adds to. */
    twostate predicate Grows()
      reads this
    {
      && unvisited <= old(unvisited) && old(visited) <= visited
      && old(claimed) <= claimed && old(trusted) <= trusted
    }

    ghost predicate Comparable(a: Option<Node>, b: Option<Node>) {
      && (a.Some? ==> a.value in g) && (b.Some? ==> b.value in g)
      && (a.Some? && b.Some? ==> Pair(a.value, b.value) in met && SameAddressability(g, Pair(a.value, b.value)))
    }

    ghost function RankOf(a: Option<Node>, b: Option<Node>): int {
      if a.Some? && b.Some? && Pair(a.value, b.value) in rank then rank[Pair(a.value, b.value)] else -1
    }

    /** The parts of `x` and `y` that are compared rank below `bound`. */
    ghost predicate PartsOf(x: Node, y: Node, bound: nat) {
      && Pair(x, y) in met && SameAddressability(g, Pair(x, y))
      && g[x].typ == g[y].typ && g[x].typ !in e
      && (!SharedStorage(g[x].body, g[y].body) ==>
            forall q | q in Parts(false, g[x].body, g[y].body) :: q in rank && rank[q] < bound)
    }

    ghost function BoundOf(x: Node, y: Node): nat
      requires Pair(x, y) in rank
    {
      if TrackedPair(g, x, y) then RankBound(rank) else rank[Pair(x, y)]
    }

    lemma {:induction false} PartsRanked(x: Node, y: Node)
      requires WellFormed(g) && ClosedPairs(g, e, false, met) && Ranked(g, e, false, met, rank)
      requires Pair(x, y) in met && SameAddressability(g, Pair(x, y)) && g[x].typ == g[y].typ && g[x].typ !in e
      ensures PartsOf(x, y, BoundOf(x, y))
    {
      var p := Pair(x, y);
      forall q | q in Parts(false, g[x].body, g[y].body) && !SharedStorage(g[x].body, g[y].body)
        ensures q in rank && rank[q] < BoundOf(x, y)
      {
        assert q in PairParts(g, e, false, p);
        if !TrackedPair(g, x, y) {
          assert Step(g, e, false, p, q);
        }
      }
    }

    /** These pairs may be compared, and rank below `bound`. */
    ghost predicate Below(parts: Relation, bound: nat) {
      forall q | q in parts :: q in met && SameAddressability(g, q) && q in rank && rank[q] < bound
    }

    lemma {:induction false} PartsBelow(x: Node, y: Node, bound: nat)
      requires WellFormed(g) && ClosedPairs(g, e, false, met) && PartsOf(x, y, bound)
      ensures !SharedStorage(g[x].body, g[y].body) ==> Below(Parts(false, g[x].body, g[y].body), bound)
    {
      forall q | q in Parts(false, g[x].body, g[y].body)
        ensures q in met && SameAddressability(g, q)
      {
        assert q in PairParts(g, e, false, Pair(x, y));
        PartsSameAddressability(g, e, false, Pair(x, y), q);
      }
    }

    method DeepValueDerive(a: Option<Node>, b: Option<Node>) returns (ok: bool)
      requires Valid() && Comparable(a, b)
      modifies this
      ensures Valid() && Grows()
      ensures ok ==> Related(Seen(), a, b) && Supported(g, e, claimed, Seen(), old(claimed))
      ensures !ok ==> !Related(Acceptance(g, e, old(visited)), a, b)
      decreases unvisited, RankOf(a, b), 1
    {
      if a.None? || b.None? {
        return a.None? == b.None?;
      }
      var x, y := a.value, b.value;
      ghost var p := Pair(x, y);
      if p in Acceptance(g, e, visited) {
        AcceptanceObeysRules(g, e, visited, p);
      }
      if g[x].typ != g[y].typ {
        return false;
      }
      if g[x].typ in e {
        Claim(p);
        return e[g[x].typ](x, y);
      }
      var skip := Enter(x, y);
      if skip {
        return true;
      }
      PartsRanked(x, y);
      ok := DeepKindDerive(x, y, BoundOf(x, y));
      if ok {
        assert DeriveRule(g, e, Seen(), p);
      }
    }

    /** Looks a pair up in `visited`, or adds it there, before its parts are compared. */
    method Enter(x: Node, y: Node) returns (skip: bool)
      requires Valid() && Comparable(Some(x), Some(y)) && g[x].typ == g[y].typ && g[x].typ !in e
      modifies this
      ensures Valid() && Grows() && (TrackedPair(g, x, y) && !skip ==> unvisited < old(unvisited))
      ensures skip ==> Pair(x, y) in Seen() && claimed == old(claimed)
      ensures skip <==> Skipped(g, e, old(visited), Pair(x, y))
      ensures !skip ==> claimed == old(claimed) + {Pair(x, y)}
      ensures !skip ==> visited == Entered(g, e, old(visited), Pair(x, y))
    {
      ghost var p := Pair(x, y);
      assert PairOk(g, x, y);
      if g[x].addr.Some? && g[y].addr.Some? && Hard(g[x].body) {
        var a1, a2 := g[x].addr.value, g[y].addr.value;
        if a1 > a2 {
          a1, a2 := a2, a1;
        }
        var v := Visit(a1, a2, g[x].typ);
        assert UsesVisits(g, e, p) && v == VisitOf(g, x, y);
        if a1 == a2 || v in visited {
          Trust({p});
          return true;
        }
        Remember(x, y, v);
      } else {
        Claim(p);
      }
      return false;
    }

    ghost method Claim(p: Pair)
      requires Valid() && p in met
      modifies this`claimed
      ensures Valid() && claimed == old(claimed) + {p}
    {
      claimed := claimed + {p};
      forall q | q in trusted
        ensures Trusted(g, e, claimed, q)
      {
        assert Trusted(g, e, old(claimed), q);
      }
    }

    /** Accepts what is not compared. */
    ghost method Trust(ps: Relation)
      requires Valid() && ps <= met
      requires forall p | p in ps :: p in claimed || Trusted(g, e, claimed, p)
      modifies this`trusted
      ensures Valid() && old(trusted) <= trusted && ps <= Seen()
    {
      trusted := trusted + (ps - claimed);
    }

    /** Adds a pair to `visited` before its parts are compared. */
    method Remember(x: Node, y: Node, v: Visit)
      requires Valid() && TrackedPair(g, x, y) && v == VisitOf(g, x, y) && v !in visited && Pair(x, y) in met
      modifies this
      ensures Valid() && unvisited < old(unvisited) && trusted == old(trusted)
      ensures visited == old(visited) + {v}
      ensures claimed == old(claimed) + {Pair(x, y)}
    {
      assert v in AllVisits(g);
      Claim(Pair(x, y));
      visited, unvisited := visited + {v}, unvisited - {v};
      forall x': Node, y': Node | TrackedPair(g, x', y') && VisitOf(g, x', y') in visited
        ensures Pair(x', y') in claimed || Pair(y', x') in claimed
      {
        if VisitOf(g, x', y') == v {
          VisitDeterminesPair(g, x, y, x', y');
        }
      }
    }

    /** The switch over kinds, for a pair that has just been claimed. */
    method DeepKindDerive(x: Node, y: Node, ghost bound: nat) returns (ok: bool)
      requires Valid() && PartsOf(x, y, bound)
      modifies this
      ensures Valid() && Grows()
      ensures ok ==> CoveredShape(Seen(), g[x].body, g[y].body)
      ensures ok ==> Supported(g, e, claimed, Seen(), old(claimed))
      ensures !ok ==> !CoveredShape(Acceptance(g, e, old(visited)), g[x].body, g[y].body)
      decreases unvisited, bound, 0, 3
    {
      assert CellOk(g, g[x]) && CellOk(g, g[y]) && PairOk(g, x, y);
      PartsBelow(x, y, bound);
      match (g[x].body, g[y].body)
      case (Array(xs), Array(ys)) =>
        ZipContains(xs, ys);
        ok := DeepElemsDerive(xs, ys, Zip(xs, ys), bound);
      case (Slice(_, _, _), Slice(_, _, _)) =>
        ok := DeepSliceDerive(x, y, bound);
      case (Interface(p), Interface(q)) =>
        if p.None? {
          return true;
        }
        ok := DeepValueDerive(p, q);
      case (Pointer(p), Pointer(q)) =>
        if p.None? {
          return true;
        }
        ok := DeepValueDerive(p, q);
      case (Struct(xs), Struct(ys)) =>
        ZipContains(xs, ys);
        ok := DeepElemsDerive(xs, ys, Zip(xs, ys), bound);
      case (Map(_, _, _), Map(_, _, _)) =>
        ok := DeepMapDerive(x, y, bound);
      case (Func(n1), Func(n2)) =>
        return n1 && n2;
      case (Basic(d1), Basic(d2)) =>
        return d1 == d2;
      case (Text(t1), Text(t2)) =>
        if |t1| == 0 {
          return true;
        }
        if |t1| > |t2| {
          return false;
        }
        return t1 == t2;
    }

    method DeepSliceDerive(x: Node, y: Node, ghost bound: nat) returns (ok: bool)
      requires Valid() && PartsOf(x, y, bound) && g[x].body.Slice? && g[y].body.Slice?
      modifies this
      ensures Valid() && Grows()
      ensures ok ==> PrefixPointwise(Seen(), g[x].body.elems, g[y].body.elems)
      ensures ok ==> Supported(g, e, claimed, Seen(), old(claimed))
      ensures !ok ==> !PrefixPointwise(Acceptance(g, e, old(visited)), g[x].body.elems, g[y].body.elems)
      decreases unvisited, bound, 0, 2
    {
      assert CellOk(g, g[x]) && CellOk(g, g[y]) && PairOk(g, x, y);
      var Slice(n1, p1, xs) := g[x].body;
      var Slice(n2, p2, ys) := g[y].body;
      if n1 || |xs| == 0 {
        return true;
      }
      if |xs| > |ys| {
        return false;
      }
      ZipContains(xs, ys);
      if p1 == p2 {
        TrustParts(x, y);
        return true;
      }
      PartsBelow(x, y, bound);
      ok := DeepElemsDerive(xs, ys, Zip(xs, ys), bound);
    }

    method DeepMapDerive(x: Node, y: Node, ghost bound: nat) returns (ok: bool)
      requires Valid() && PartsOf(x, y, bound) && g[x].body.Map? && g[y].body.Map?
      modifies this
      ensures Valid() && Grows()
      ensures ok ==> CoveredShape(Seen(), g[x].body, g[y].body)
      ensures ok ==> Supported(g, e, claimed, Seen(), old(claimed))
      ensures !ok ==> !CoveredShape(Acceptance(g, e, old(visited)), g[x].body, g[y].body)
      decreases unvisited, bound, 0, 2
    {
      assert CellOk(g, g[x]) && CellOk(g, g[y]) && PairOk(g, x, y);
      var Map(n1, p1, m1) := g[x].body;
      var Map(n2, p2, m2) := g[y].body;
      assert |m1.Keys| == |m1| && |m2.Keys| == |m2|;
      if n1 || |m1| == 0 {
        return true;
      }
      if |m1| > |m2| {
        SubsetTooLarge(m1.Keys, m2.Keys);
        return false;
      }
      if p1 == p2 {
        assert m1 == m2;
        TrustParts(x, y);
        return true;
      }
      ElemsAreChildren(g[x].body);
      PartsBelow(x, y, bound);
      ok := DeepEntriesDerive(m1, m2, Parts(false, g[x].body, g[y].body), bound);
    }

    /** Slices and maps over the same storage have the same parts. */
    ghost method TrustParts(x: Node, y: Node)
      requires Valid() && Pair(x, y) in met && g[x].typ == g[y].typ && g[x].typ !in e
      requires SharedStorage(g[x].body, g[y].body)
      requires g[x].body.Map? ==> !g[x].body.isNil && !g[y].body.isNil
      modifies this`trusted
      ensures Valid() && old(trusted) <= trusted && Parts(false, g[x].body, g[y].body) <= Seen()
    {
      assert PairOk(g, x, y);
      assert PairParts(g, e, false, Pair(x, y)) <= met;
      Trust(Parts(false, g[x].body, g[y].body));
    }

    /** The loop over array elements, slice elements or struct fields. */
    method DeepElemsDerive(xs: seq<Node>, ys: seq<Node>, ghost parts: Relation, ghost bound: nat) returns (ok: bool)
      requires Valid() && Below(parts, bound) && |xs| <= |ys|
      requires forall i | 0 <= i < |xs| :: Pair(xs[i], ys[i]) in parts
      modifies this
      ensures Valid() && Grows()
      ensures ok ==> PrefixPointwise(Seen(), xs, ys) && Supported(g, e, claimed, Seen(), old(claimed))
      ensures !ok ==> !PrefixPointwise(Acceptance(g, e, old(visited)), xs, ys)
      decreases unvisited, bound, 0, 1
    {
      ghost var done: Relation := {};
      for i := 0 to |xs|
        invariant Valid() && Grows()
        invariant Supported(g, e, claimed, Seen(), old(claimed)) && done <= Seen()
        invariant forall j | 0 <= j < i :: Pair(xs[j], ys[j]) in done
      {
        AcceptanceMonotone(g, e, old(visited), visited);
        ok := DeepPartDerive(xs[i], Some(ys[i]), parts, bound, old(claimed));
        if !ok {
          assert !PrefixPointwise(Acceptance(g, e, old(visited)), xs, ys);
          return;
        }
        done := done + {Pair(xs[i], ys[i])};
      }
      return true;
    }

    /** One part with another, if there is one, adding to the claims made since `base`. */
    method DeepPartDerive(c: Node, d: Option<Node>, ghost parts: Relation, ghost bound: nat, ghost base: Relation)
      returns (ok: bool)
      requires Valid() && Below(parts, bound)
      requires c in g && (d.Some? ==> Pair(c, d.value) in parts)
      requires base <= claimed && Supported(g, e, claimed, Seen(), base)
      modifies this
      ensures Valid() && Grows() && old(Seen()) <= Seen()
      ensures ok ==> d.Some? && Pair(c, d.value) in Seen() && Supported(g, e, claimed, Seen(), base)
      ensures !ok ==> d.None? || Pair(c, d.value) !in Acceptance(g, e, old(visited))
      decreases unvisited, bound, 0, 0
    {
      ghost var before, seen := claimed, Seen();
      ok := DeepValueDerive(Some(c), d);
      if ok {
        SupportedExtend(g, e, base, before, seen, claimed, Seen());
      }
    }

    /** The loop over map keys, in any order. */
    method DeepEntriesDerive(m1: map<Key, Node>, m2: map<Key, Node>, ghost parts: Relation, ghost bound: nat)
      returns (ok: bool)
      requires Valid() && Below(parts, bound)
      requires forall k | k in m1 :: m1[k] in g
      requires forall k | k in m1 && k in m2 :: Pair(m1[k], m2[k]) in parts
      modifies this
      ensures Valid() && Grows()
      ensures ok ==> m1.Keys <= m2.Keys && forall k | k in m1 :: Pair(m1[k], m2[k]) in Seen()
      ensures ok ==> Supported(g, e, claimed, Seen(), old(claimed))
      ensures !ok ==> m1.Keys <= m2.Keys ==>
                exists k | k in m1 :: Pair(m1[k], m2[k]) !in Acceptance(g, e, old(visited))
      decreases unvisited, bound, 0, 1
    {
      var todo := m1.Keys;
      while todo != {}
        invariant todo <= m1.Keys
        invariant Valid() && Grows()
        invariant Supported(g, e, claimed, Seen(), old(claimed))
        invariant forall k | k in m1.Keys - todo :: k in m2 && Pair(m1[k], m2[k]) in Seen()
        decreases todo
      {
        var k :| k in todo;
        AcceptanceMonotone(g, e, old(visited), visited);
        ok := DeepPartDerive(m1[k], if k in m2 then Some(m2[k]) else None, parts, bound, old(claimed));
        if !ok {
          return;
        }
        todo := todo - {k};
      }
      return true;
    }
  }

  /** `DeepDerivative` never refuses a derivative.  What it accepts is one exactly if all that
      it took on trust are derivatives, which they are if no pair can be met in both orders.
      A nil left operand is a derivative of everything; otherwise a nil right operand makes
      the call panic, which is `None`. */
  method DeepDerivative(g: Graph, e: Equalities, a: Option<Node>, b: Option<Node>)
    returns (answer: Option<bool>, ghost trusted: Relation)
    requires WellFormed(g)
    requires a.Some? ==> a.value in g && g[a.value].addr.None?
    requires b.Some? ==> b.value in g && g[b.value].addr.None?
    requires a.Some? && b.Some? ==> CyclesTracked(g, e, false, Met(g, e, false, Pair(a.value, b.value)))
    ensures answer.None? <==> a.Some? && b.None?
    ensures a.None? || Derivative(g, e, a, b) ==> answer == Some(true)
    ensures a.Some? && b.Some? && Pair(a.value, b.value) in Acceptance(g, e, {}) ==> answer == Some(true)
    ensures a.Some? && answer == Some(true) ==> (Derivative(g, e, a, b) <==> trusted <= Similarity(g, e))
    ensures a.Some? && b.Some? ==>
              var met := Met(g, e, false, Pair(a.value, b.value));
              && (forall p | p in trusted :: p in met && Trusted(g, e, met, p))
              && (OneOrder(g, e, met) && answer == Some(true) ==> Derivative(g, e, a, b))
    ensures a.Some? && b.Some? && NothingLacking(g, e, Pair(a.value, b.value)) ==> answer == Some(true)
    ensures a.Some? && b.Some? && OneOrder(g, e, Met(g, e, false, Pair(a.value, b.value))) && answer == Some(true) ==>
              NothingLacking(g, e, Pair(a.value, b.value))
  {
    trusted := {};
    if a.None? {
      return Some(true), trusted;
    }
    if b.None? {
      return None, trusted;
    }
    ghost var root := Pair(a.value, b.value);
    DerivativeIffNothingLacking(g, e, root);
    if Simulated(g, e, root) {
      SimulatedIsAcceptable(g, e, {}, root);
    }
    if g[a.value].typ != g[b.value].typ {
      if root in Acceptance(g, e, {}) {
        AcceptanceObeysRules(g, e, {}, root);
      }
      return Some(false), trusted;
    }
    var ok;
    ghost var claimed;
    ok, claimed, trusted := DeriveFrom(g, e, a.value, b.value);
    answer := Some(ok);
    if ok {
      TrustDecides(g, e, root, claimed, trusted);
    }
  }

  /** Operands whose comparison is bound to end. */
  ghost predicate Terminates(g: Graph, e: Equalities, x: Node, y: Node) {
    && x in g && g[x].addr.None? && y in g && g[y].addr.None?
    && CyclesTracked(g, e, false, Met(g, e, false, Pair(x, y)))
  }

  /** What `DeepEqual` accepts, `DeepDerivative` accepts in both orders. */
  method EqualThenDerived(g: Graph, e: Equalities, a: Node, b: Node)
    returns (eq: bool, ab: Option<bool>, ba: Option<bool>)
    requires WellFormed(g) && Terminates(g, e, a, b) && Terminates(g, e, b, a)
    requires CyclesTracked(g, e, true, Met(g, e, true, Pair(a, b)))
    ensures ReflexiveOn(g, e) && SymmetricOn(g, e) && eq ==> ab == Some(true) && ba == Some(true)
  {
    eq := DeepEqual(g, e, Some(a), Some(b));
    if ReflexiveOn(g, e) && SymmetricOn(g, e) && eq {
      EqualImpliesDerivative(g, e, Some(a), Some(b));
    }
    ghost var trusted;
    ab, trusted := DeepDerivative(g, e, Some(a), Some(b));
    ba, trusted := DeepDerivative(g, e, Some(b), Some(a));
  }

  /** Conversely, if no pair is met in both orders, what `DeepDerivative` accepts in both
      orders `DeepEqual` accepts. */
  method DerivedThenEqual(g: Graph, e: Equalities, a: Node, b: Node)
    returns (ab: Option<bool>, ba: Option<bool>, eq: bool)
    requires WellFormed(g) && Terminates(g, e, a, b) && Terminates(g, e, b, a)
    requires CyclesTracked(g, e, true, Met(g, e, true, Pair(a, b)))
    ensures OneOrder(g, e, Met(g, e, false, Pair(a, b))) && OneOrder(g, e, Met(g, e, false, Pair(b, a))) ==>
            ab == Some(true) && ba == Some(true) ==> eq
  {
    ghost var trusted;
    ab, trusted := DeepDerivative(g, e, Some(a), Some(b));
    ba, trusted := DeepDerivative(g, e, Some(b), Some(a));
    if Derivative(g, e, Some(a), Some(b)) && Derivative(g, e, Some(b), Some(a)) {
      assert Pair(a, b).Swap() == Pair(b, a);
      MutualDerivativeIsEqual(g, e, Pair(a, b));
    }
    eq := DeepEqual(g, e, Some(a), Some(b));
  }

  /** If no pair is met in both orders, two accepted calls make the third accepted. */
  method DerivedTransitively(g: Graph, e: Equalities, a: Node, b: Node, c: Node)
    returns (ab: Option<bool>, bc: Option<bool>, ac: Option<bool>)
    requires WellFormed(g) && Terminates(g, e, a, b) && Terminates(g, e, b, c) && Terminates(g, e, a, c)
    ensures TransitiveOn(g, e) ==>
            OneOrder(g, e, Met(g, e, false, Pair(a, b))) && OneOrder(g, e, Met(g, e, false, Pair(b, c))) ==>
            ab == Some(true) && bc == Some(true) ==> ac == Some(true)
  {
    ghost var trusted;
    ab, trusted := DeepDerivative(g, e, Some(a), Some(b));
    bc, trusted := DeepDerivative(g, e, Some(b), Some(c));
    if TransitiveOn(g, e) && Derivative(g, e, Some(a), Some(b)) && Derivative(g, e, Some(b), Some(c)) {
      DerivativeTransitive(g, e, Some(a), Some(b), Some(c));
    }
    ac, trusted := DeepDerivative(g, e, Some(a), Some(c));
  }

  method DeriveFrom(g: Graph, e: Equalities, x: Node, y: Node)
    returns (ok: bool, ghost claimed: Relation, ghost trusted: Relation)
    requires WellFormed(g) && SameAddressability(g, Pair(x, y))
    requires CyclesTracked(g, e, false, Met(g, e, false, Pair(x, y)))
    ensures ok ==> Supported(g, e, claimed, claimed + trusted, {}) && Pair(x, y) in claimed + trusted
    ensures !ok ==> Pair(x, y) !in Acceptance(g, e, {})
    ensures claimed <= Met(g, e, false, Pair(x, y)) && trusted <= Met(g, e, false, Pair(x, y))
    ensures forall p | p in trusted :: Trusted(g, e, claimed, p)
  {
    ghost var met := Met(g, e, false, Pair(x, y));
    MetClosed(g, e, false, Pair(x, y));
    RankedIffCyclesTracked(g, e, false, met);
    ghost var rank :| Ranked(g, e, false, met, rank);
    var d := new Derivation(g, e, met, rank);
    ok := d.DeepValueDerive(Some(x), Some(y));
    claimed, trusted := d.claimed, d.trusted;
  }

  /** An accepted root is a derivation exactly if all that was taken on trust are. */
  lemma {:induction false} TrustDecides(g: Graph, e: Equalities, root: Pair, c: Relation, trusted: Relation)
    requires WellFormed(g) && root.left in g && root.right in g
    requires Supported(g, e, c, c + trusted, {}) && root in c + trusted
    requires c <= Met(g, e, false, root) && trusted <= Met(g, e, false, root)
    requires forall p | p in trusted :: Trusted(g, e, c, p)
    ensures Simulated(g, e, root) <==> trusted <= Similarity(g, e)
    ensures OneOrder(g, e, Met(g, e, false, root)) ==> Simulated(g, e, root)
  {
    var met := Met(g, e, false, root);
    MetClosed(g, e, false, root);
    if Simulated(g, e, root) {
      forall p | p in trusted
        ensures p in Similarity(g, e)
      {
        var w :| Leads(g, e, false, w, root, p);
        MetIsNeeded(g, e, w);
        assert p == Pair(p.left, p.right);
      }
    }
    if OneOrder(g, e, met) {
      TrustJustified(g, e, met, c, trusted);
    }
    if trusted <= Similarity(g, e) {
      ClaimsAreSimulated(g, e, c, trusted, root);
    }
  }

  // ----- a wrong answer

  /** Two structs, of a pointer and a string, that point to each other; one string is unset.
      Nodes 0 and 1 are pointers to them. */
  const ENTANGLED: Graph := map[
    Node(0) := Cell(Type(0), None, Pointer(Some(Node(2)))),
    Node(1) := Cell(Type(0), None, Pointer(Some(Node(3)))),
    Node(2) := Cell(Type(1), Some(2), Struct([Node(4), Node(5)])),
    Node(3) := Cell(Type(1), Some(3), Struct([Node(6), Node(7)])),
    Node(4) := Cell(Type(0), Some(4), Pointer(Some(Node(3)))),
    Node(5) := Cell(Type(2), Some(5), Text("")),
    Node(6) := Cell(Type(0), Some(6), Pointer(Some(Node(2)))),
    Node(7) := Cell(Type(2), Some(7), Text("x"))
  ]

  /** A type fixes the kind, and an address the value. */
  ghost predicate Typed(x: Node, c: Cell) {
    && (c.addr.Some? ==> c.addr.value == x.id)
    && (c.typ == Type(0) || c.typ == Type(1) || c.typ == Type(2))
    && (c.typ == Type(0) ==> c.body.Pointer? && (c.body.elem == Some(Node(2)) || c.body.elem == Some(Node(3))))
    && (c.typ == Type(1) ==> c.body.Struct? && |c.body.fields| == 2 && c.addr.Some?)
    && (c.typ == Type(2) ==> c.body.Text?)
  }

  lemma {:induction false} EntangledTyped(x: Node)
    requires x in ENTANGLED
    ensures Typed(x, ENTANGLED[x]) && CellOk(ENTANGLED, ENTANGLED[x])
  {
  }

  lemma {:induction false} EntangledWellFormed()
    ensures WellFormed(ENTANGLED)
  {
    var g := ENTANGLED;
    forall x | x in g
      ensures CellOk(g, g[x])
    {
      EntangledTyped(x);
    }
    forall x, y | x in g && y in g
      ensures PairOk(g, x, y)
    {
      EntangledTyped(x);
      EntangledTyped(y);
      TypedPairOk(g, x, y);
    }
  }

  lemma {:induction false} TypedPairOk(g: Graph, x: Node, y: Node)
    requires x in g && y in g && Typed(x, g[x]) && Typed(y, g[y])
    ensures PairOk(g, x, y)
  {
  }

  lemma {:induction false} EntangledTracked(root: Pair)
    requires root.left in ENTANGLED && root.right in ENTANGLED
    ensures CyclesTracked(ENTANGLED, map[], false, Met(ENTANGLED, map[], false, root))
  {
    var g, met := ENTANGLED, Met(ENTANGLED, map[], false, root);
    EntangledWellFormed();
    MetClosed(g, map[], false, root);
    var rank := map p | p in met :: if g[p.left].body.Pointer? then 1 else 0;
    forall p, q | p in met && Step(g, map[], false, p, q)
      ensures q in rank && rank[q] < rank[p]
    {
      EntangledTyped(p.left);
      EntangledTyped(p.right);
      assert q in PairParts(g, map[], false, p);
      TypedStep(g, p, q);
    }
    assert Ranked(g, map[], false, met, rank);
    RankedIffCyclesTracked(g, map[], false, met);
  }

  /** Only pointers are not remembered. */
  lemma {:induction false} TypedStep(g: Graph, p: Pair, q: Pair)
    requires p.left in g && p.right in g && Typed(p.left, g[p.left]) && Typed(p.right, g[p.right])
    requires Step(g, map[], false, p, q)
    ensures g[p.left].body.Pointer? && (q.left == Node(2) || q.left == Node(3))
  {
  }

  /** The second struct, which has the string, is not covered by the first. */
  lemma {:induction false} FilledNotCovered(s: Relation)
    requires Simulation(ENTANGLED, map[], s)
    ensures Pair(Node(3), Node(2)) !in s
  {
    assert !DeriveRule(ENTANGLED, map[], s, Pair(Node(7), Node(5)));
    assert Pair([Node(6), Node(7)][1], [Node(4), Node(5)][1]) !in s;
    assert !DeriveRule(ENTANGLED, map[], s, Pair(Node(3), Node(2)));
  }

  lemma {:induction false} PointersNotCovered(s: Relation)
    requires Simulation(ENTANGLED, map[], s) && Pair(Node(3), Node(2)) !in s
    ensures Pair(Node(2), Node(3)) !in s
  {
    assert !DeriveRule(ENTANGLED, map[], s, Pair(Node(4), Node(6)));
    assert Pair([Node(4), Node(5)][0], [Node(6), Node(7)][0]) !in s;
    assert !DeriveRule(ENTANGLED, map[], s, Pair(Node(2), Node(3)));
  }

  /** Nor is the first covered by the second: where it points to the second, that would have
      to be covered by the first. */
  lemma {:induction false} EntangledDiffer()
    ensures !Simulated(ENTANGLED, map[], Pair(Node(0), Node(1)))
  {
    forall s: Relation | Simulation(ENTANGLED, map[], s)
      ensures Pair(Node(0), Node(1)) !in s
    {
      FilledNotCovered(s);
      PointersNotCovered(s);
      assert !DeriveRule(ENTANGLED, map[], s, Pair(Node(0), Node(1)));
    }
  }

  lemma {:induction false} EntangledRules(start: Relation, inside: Relation)
    requires Pair(Node(2), Node(3)) in start
    requires {Pair(Node(4), Node(6)), Pair(Node(5), Node(7)), Pair(Node(3), Node(2))} <= inside
    ensures DeriveRule(ENTANGLED, map[], start, Pair(Node(0), Node(1)))
    ensures DeriveRule(ENTANGLED, map[], inside, Pair(Node(2), Node(3)))
    ensures DeriveRule(ENTANGLED, map[], inside, Pair(Node(4), Node(6)))
    ensures DeriveRule(ENTANGLED, map[], inside, Pair(Node(5), Node(7)))
  {
  }

  const STRUCTS := Visit(2, 3, Type(1))

  lemma {:induction false} EntangledVisits()
    ensures Entered(ENTANGLED, map[], {}, Pair(Node(0), Node(1))) == {}
    ensures Entered(ENTANGLED, map[], {}, Pair(Node(2), Node(3))) == {STRUCTS}
    ensures Entered(ENTANGLED, map[], {STRUCTS}, Pair(Node(4), Node(6))) == {STRUCTS}
    ensures Entered(ENTANGLED, map[], {STRUCTS}, Pair(Node(5), Node(7))) == {STRUCTS}
    ensures Skipped(ENTANGLED, map[], {STRUCTS}, Pair(Node(3), Node(2)))
  {
  }

  /** Yet their comparison meets itself in the other order and takes that on trust. */
  lemma {:induction false} EntangledAcceptable()
    ensures Pair(Node(0), Node(1)) in Acceptance(ENTANGLED, map[], {})
  {
    var g0, g1 := Goal({}, Pair(Node(0), Node(1))), Goal({}, Pair(Node(2), Node(3)));
    var g2, g3 := Goal({STRUCTS}, Pair(Node(4), Node(6))), Goal({STRUCTS}, Pair(Node(5), Node(7)));
    var g4 := Goal({STRUCTS}, Pair(Node(3), Node(2)));
    var goals := {g0, g1, g2, g3, g4};
    GoalIn(goals, g0, {});
    GoalIn(goals, g1, {});
    GoalIn(goals, g2, {STRUCTS});
    GoalIn(goals, g3, {STRUCTS});
    GoalIn(goals, g4, {STRUCTS});
    EntangledRules(GoalsAt(goals, {}), GoalsAt(goals, {STRUCTS}));
    EntangledAchievable(goals);
    GoalsAccepted(ENTANGLED, map[], goals, {});
  }

  lemma {:induction false} GoalIn(goals: set<Goal>, t: Goal, visits: set<Visit>)
    requires t in goals && t.visits <= visits
    ensures t.pair in GoalsAt(goals, visits)
  {
  }

  lemma {:induction false} EntangledAchievable(goals: set<Goal>)
    requires forall t | t in goals ::
               || t == Goal({}, Pair(Node(0), Node(1))) || t == Goal({}, Pair(Node(2), Node(3)))
               || t == Goal({STRUCTS}, Pair(Node(4), Node(6))) || t == Goal({STRUCTS}, Pair(Node(5), Node(7)))
               || t == Goal({STRUCTS}, Pair(Node(3), Node(2)))
    requires DeriveRule(ENTANGLED, map[], GoalsAt(goals, {}), Pair(Node(0), Node(1)))
    requires DeriveRule(ENTANGLED, map[], GoalsAt(goals, {STRUCTS}), Pair(Node(2), Node(3)))
    requires DeriveRule(ENTANGLED, map[], GoalsAt(goals, {STRUCTS}), Pair(Node(4), Node(6)))
    requires DeriveRule(ENTANGLED, map[], GoalsAt(goals, {STRUCTS}), Pair(Node(5), Node(7)))
    ensures Achievable(ENTANGLED, map[], goals)
  {
    EntangledVisits();
  }

  lemma {:induction false} EntangledRoots()
    ensures Node(0) in ENTANGLED && ENTANGLED[Node(0)].addr.None?
    ensures Node(1) in ENTANGLED && ENTANGLED[Node(1)].addr.None?
  {
  }

  /** `DeepDerivative` accepts the pointers to the two structs although the second is not
      covered by the first where the first points back to it. */
  method AcceptsReversed() returns (answer: Option<bool>)
    ensures answer == Some(true) && !Derivative(ENTANGLED, map[], Some(Node(0)), Some(Node(1)))
  {
    EntangledRoots();
    EntangledWellFormed();
    EntangledTracked(Pair(Node(0), Node(1)));
    EntangledAcceptable();
    EntangledDiffer();
    answer := AcceptsWrongly(ENTANGLED, map[], Node(0), Node(1));
  }

  /** Whatever is bound to be accepted is, derivation or not. */
  method AcceptsWrongly(g: Graph, e: Equalities, x: Node, y: Node) returns (answer: Option<bool>)
    requires WellFormed(g) && x in g && g[x].addr.None? && y in g && g[y].addr.None?
    requires CyclesTracked(g, e, false, Met(g, e, false, Pair(x, y)))
    requires Pair(x, y) in Acceptance(g, e, {}) && !Simulated(g, e, Pair(x, y))
    ensures answer == Some(true) && !Derivative(g, e, Some(x), Some(y))
  {
    ghost var trusted;
    answer, trusted := DeepDerivative(g, e, Some(x), Some(y));
  }
}
