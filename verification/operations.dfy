/** The operations on `Bdd` handles. Each one asks the engine for a node and
    wraps it in a fresh handle; what the model tracks is which handles are
    created and dropped on the way, so that the net change of every operation
    is one new handle (the result) minus the operands it consumed. */
module Operations {
  import opened Engine
  import opened Lifetime
  import opened Cudd
  import opened Indices

  /** The three binary connectives `&`, `|` and `^`. */
  datatype BinOp = And | Or | Xor

  /** `Cudd_bddAnd`, `Cudd_bddOr` or `Cudd_bddXor` on manager `p`. */
  function Apply(o: Oracle, op: BinOp, p: Ptr, a: Node, b: Node): Node {
    match op
    case And => o.bddAnd(p, a, b)
    case Or => o.bddOr(p, a, b)
    case Xor => o.bddXor(p, a, b)
  }

  /** The operand as a consumed handle: passed by value, it is dropped when
      the call returns; passed by reference, it is not. */
  function Owned(h: Bdd, byValue: bool): (hs: seq<Bdd>)
    ensures |hs| <= 1 && (byValue <==> hs == [h])
  {
    if byValue then [h] else []
  }

  /** The end of an operation: the result handle exists; the locals `temps`
      and then the by-value operands `owned` go out of scope. The net change
      is the result minus the operands. */
  function Release(w0: World, p: Ptr, r: Outcome<Bdd>, temps: seq<Bdd>, owned: seq<Bdd>): (r2: Outcome<Bdd>)
    requires Wf(w0) && Held(w0, p, owned) && AllIn(temps, p)
    requires r.Ok? ==>
               && Wf(r.w) && r.value.cudd == p
               && Net(w0, r.w, p, multiset{}, Nodes(temps) + multiset{r.value.node.base})
    ensures r2.Panic? <==> r.Panic?
    ensures r.Panic? ==> r2 == r
    ensures r2.Ok? ==>
              && r2.value == r.value
              && Wf(r2.w)
              && Net(w0, r2.w, p, Nodes(owned), multiset{r2.value.node.base})
              && SameEngine(r.w, r2.w, p)
              && Live(r2.w, r2.value)
  {
    if r.Panic? then r
    else
      StartRelease(w0, r.w, p, temps, owned, r.value);
      var w2 := DropAll(r.w, temps + owned, r.value);
      EndRelease(w0, r.w, w2, p, temps, owned, r.value.node.base);
      Ok(w2, r.value)
  }

  lemma StartRelease(w0: World, w: World, p: Ptr, temps: seq<Bdd>, owned: seq<Bdd>, v: Bdd)
    requires Held(w0, p, owned) && AllIn(temps, p) && v.cudd == p
    requires Net(w0, w, p, multiset{}, Nodes(temps) + multiset{v.node.base})
    ensures Held(w, p, temps + owned + [v])
  {
    var all := temps + owned + [v];
    NodesAppend(temps, owned);
    NodesAppend(temps + owned, [v]);
    assert Nodes([v]) == multiset{v.node.base} + Nodes([]);
    assert w.managers[p].refs == w0.managers[p].refs + (Nodes(temps) + multiset{v.node.base});
    forall k | 0 <= k < |all| ensures all[k].cudd == p {
      if k < |temps| {
        assert all[k] == temps[k];
      } else if k < |temps| + |owned| {
        assert all[k] == owned[k - |temps|];
      }
    }
  }

  lemma EndRelease(w0: World, w: World, w2: World, p: Ptr, temps: seq<Bdd>, owned: seq<Bdd>, b: nat)
    requires Net(w0, w, p, multiset{}, Nodes(temps) + multiset{b})
    requires Net(w, w2, p, Nodes(temps + owned), multiset{})
    ensures Net(w0, w2, p, Nodes(owned), multiset{b})
  {
    NetCompose(w0, w, w2, p, multiset{}, Nodes(temps) + multiset{b}, Nodes(temps + owned), multiset{});
    NodesAppend(temps, owned);
    assert multiset{} + Nodes(temps + owned) == Nodes(owned) + Nodes(temps);
    assert Nodes(temps) + multiset{b} + multiset{} == multiset{b} + Nodes(temps);
    NetCancel(w0, w2, p, Nodes(owned), multiset{b}, Nodes(temps));
  }

  /** A fresh result and no locals to drop. */
  lemma NoTemps(w: World, w2: World, p: Ptr, b: nat)
    requires Net(w, w2, p, multiset{}, multiset{b})
    ensures Net(w, w2, p, multiset{}, Nodes([]) + multiset{b})
  {
    assert Nodes([]) + multiset{b} == multiset{b};
  }

  /** The by-value operands of a binary operator on one manager can be
      dropped together. */
  lemma OwnedHeld(w: World, a: Bdd, ownA: bool, b: Bdd, ownB: bool)
    requires Wf(w) && Live(w, a) && Live(w, b) && a.cudd == b.cudd
    requires ownA && ownB ==> Held(w, a.cudd, [b, a])
    ensures Held(w, a.cudd, Owned(b, ownB) + Owned(a, ownA))
  {
    LiveHeld(w, a);
    LiveHeld(w, b);
    if ownA && ownB {
      assert Owned(b, ownB) + Owned(a, ownA) == [b, a];
    } else if ownA {
      assert Owned(b, ownB) + Owned(a, ownA) == [a];
    } else if ownB {
      assert Owned(b, ownB) + Owned(a, ownA) == [b];
    } else {
      assert Owned(b, ownB) + Owned(a, ownA) == [];
    }
  }

  /** `&`, `|`, `^` in all four ownership combinations (`Bdd op Bdd`,
      `Bdd op &Bdd`, `&Bdd op Bdd`, `&Bdd op &Bdd`): the managers must be the
      same; the result lives in the left operand's manager; then the
      right-hand operand and the receiver, when passed by value, are dropped. */
  function Binary(o: Oracle, w: World, op: BinOp, a: Bdd, ownA: bool, b: Bdd, ownB: bool): (r: Outcome<Bdd>)
    requires Wf(w) && Live(w, a) && Live(w, b)
    requires ownA && ownB && SameManager(a.cudd, b.cudd) ==> Held(w, a.cudd, [b, a])
    ensures r.Panic? <==> !SameManager(a.cudd, b.cudd) || Apply(o, op, a.cudd, a.node, b.node).Null?
    ensures !SameManager(a.cudd, b.cudd) ==> r == Panic(ManagerMismatch)
    ensures r.Ok? ==>
              && r.value == Bdd(a.cudd, Apply(o, op, a.cudd, a.node, b.node))
              && Wf(r.w)
              && Net(w, r.w, a.cudd, Nodes(Owned(b, ownB) + Owned(a, ownA)), multiset{r.value.node.base})
              && SameEngine(w, r.w, a.cudd)
              && Live(r.w, r.value)
  {
    if !SameManager(a.cudd, b.cudd) then Panic(ManagerMismatch)
    else
      OwnedHeld(w, a, ownA, b, ownB);
      Finish(w, a.cudd, Apply(o, op, a.cudd, a.node, b.node), Owned(b, ownB) + Owned(a, ownA))
  }

  /** Wraps node `n` as the result, then drops the by-value operands. */
  function Finish(w: World, p: Ptr, n: Node, owned: seq<Bdd>): (r: Outcome<Bdd>)
    requires Wf(w) && Held(w, p, owned)
    ensures r.Panic? <==> n.Null?
    ensures r.Panic? ==> r.fault == NullNode
    ensures r.Ok? ==>
              && r.value == Bdd(p, n)
              && Wf(r.w)
              && Net(w, r.w, p, Nodes(owned), multiset{n.base})
              && SameEngine(w, r.w, p)
              && Live(r.w, r.value)
  {
    var r1 := Wrap(w, p, n);
    if r1.Panic? then r1
    else
      NoTemps(w, r1.w, p, n.base);
      Release(w, p, r1, [], owned)
  }

  /** `&=`, `|=`, `^=`: the same check, then `*self = &*self op &rhs`, which
      drops the old receiver, and finally the by-value right-hand side. */
  function BinaryAssign(o: Oracle, w: World, op: BinOp, a: Bdd, b: Bdd, ownB: bool): (r: Outcome<Bdd>)
    requires Wf(w) && Live(w, a) && Live(w, b)
    requires ownB && SameManager(a.cudd, b.cudd) ==> Held(w, a.cudd, [a, b])
    ensures r.Panic? <==> !SameManager(a.cudd, b.cudd) || Apply(o, op, a.cudd, a.node, b.node).Null?
    ensures !SameManager(a.cudd, b.cudd) ==> r == Panic(ManagerMismatch)
    ensures r.Ok? ==>
              && r.value == Bdd(a.cudd, Apply(o, op, a.cudd, a.node, b.node))
              && Wf(r.w)
              && Net(w, r.w, a.cudd, Nodes([a] + Owned(b, ownB)), multiset{r.value.node.base})
              && SameEngine(w, r.w, a.cudd)
              && Live(r.w, r.value)
  {
    if !SameManager(a.cudd, b.cudd) then Panic(ManagerMismatch)
    else
      AssignHeld(w, a, b, ownB);
      Finish(w, a.cudd, Apply(o, op, a.cudd, a.node, b.node), [a] + Owned(b, ownB))
  }

  lemma AssignHeld(w: World, a: Bdd, b: Bdd, ownB: bool)
    requires Wf(w) && Live(w, a) && Live(w, b) && a.cudd == b.cudd
    requires ownB ==> Held(w, a.cudd, [a, b])
    ensures Held(w, a.cudd, [a] + Owned(b, ownB))
  {
    LiveHeld(w, a);
    if ownB {
      assert [a] + Owned(b, ownB) == [a, b];
    } else {
      assert [a] + Owned(b, ownB) == [a];
    }
  }

  /** The assignment form computes what the borrowed operator computes, and
      differs from it only in also releasing the old receiver. */
  lemma AssignIsBinary(o: Oracle, w: World, op: BinOp, a: Bdd, b: Bdd)
    requires Wf(w) && Live(w, a) && Live(w, b)
    ensures var r1, r2 := BinaryAssign(o, w, op, a, b, false), Binary(o, w, op, a, false, b, false);
            && (r1.Ok? <==> r2.Ok?)
            && (r1.Ok? ==> r1.value == r2.value)
            && (r1.Ok? ==> Nodes([a] + Owned(b, false)) == multiset{a.node.base} + Nodes(Owned(b, false) + Owned(a, false)))
  {
    assert [a] + Owned(b, false) == [a];
    assert Owned(b, false) + Owned(a, false) == [];
    assert Nodes([a]) == multiset{a.node.base} + Nodes([]);
  }

  /** `!h` for `Bdd` (by value) and `&Bdd`: wraps `Cudd_Not`, which is never
      null, so it cannot fail. */
  function Not(w: World, h: Bdd, byValue: bool): (r: Outcome<Bdd>)
    requires Wf(w) && Live(w, h)
    ensures r.Ok? && r.value == Bdd(h.cudd, Complement(h.node))
    ensures Wf(r.w) && Net(w, r.w, h.cudd, Nodes(Owned(h, byValue)), multiset{h.node.base})
    ensures SameEngine(w, r.w, h.cudd) && Live(r.w, r.value)
  {
    LiveHeld(w, h);
    Finish(w, h.cudd, Complement(h.node), Owned(h, byValue))
  }

  /** Negating a consumed handle leaves the world exactly as it was: the
      complemented node shares its regular node with the operand. */
  lemma NotByValueInPlace(w: World, h: Bdd)
    requires Wf(w) && Live(w, h)
    ensures Not(w, h, true).w == w
  {
    var w2 := Not(w, h, true).w;
    var b := multiset{h.node.base};
    assert Nodes([h]) == b + Nodes([]);
    assert multiset{} + b == b;
    NetCancel(w, w2, h.cudd, multiset{}, multiset{}, b);
    NetNothing(w, w2, h.cudd);
  }

  /** Negating twice gives back the node negated. */
  lemma DoubleNegation(w: World, h: Bdd)
    requires Wf(w) && Live(w, h)
    ensures var r1 := Not(w, h, false);
            Not(r1.w, r1.value, false).value == h
  {
  }

  /** `is_constant(value)`: compares with a temporary `constant(value)`
      handle, which is dropped again; the world is left exactly as found. */
  function IsConstant(o: Oracle, w: World, h: Bdd, value: bool): (r: Outcome<bool>)
    requires Wf(w) && Live(w, h)
    ensures r.Panic? <==> ConstantNode(o, h.cudd, value).Null?
    ensures r.Panic? ==> r.fault == NullNode
    ensures r.Ok? ==> r.w == w && (r.value <==> h.node == ConstantNode(o, h.cudd, value))
  {
    var c := Constant(o, w, h.cudd, value);
    if c.Panic? then Panic(NullNode)
    else
      var eq := BddEq(c.w, h, c.value);
      var w2 := BddDrop(c.w, c.value);
      MintThenDrop(w, c.w, w2, h.cudd, c.value.node.base);
      Ok(w2, eq.value)
  }

  /** A handle minted and dropped again leaves no trace. */
  lemma MintThenDrop(w: World, w1: World, w2: World, p: Ptr, b: nat)
    requires Net(w, w1, p, multiset{}, multiset{b}) && SameEngine(w, w1, p)
    requires Net(w1, w2, p, multiset{b}, multiset{}) && SameEngine(w1, w2, p)
    ensures w2 == w
  {
    NetCompose(w, w1, w2, p, multiset{}, multiset{b}, multiset{b}, multiset{});
    assert multiset{} + multiset{b} == multiset{b} + multiset{};
    NetCancel(w, w2, p, multiset{}, multiset{}, multiset{b});
    NetNothing(w, w2, p);
  }

  /** `support`: `Cudd_Support`, wrapped. */
  function Support(o: Oracle, w: World, h: Bdd): (r: Outcome<Bdd>)
    requires Wf(w) && Live(w, h)
    ensures r.Panic? <==> o.support(h.cudd, h.node).Null?
    ensures r.Ok? ==>
              && r.value == Bdd(h.cudd, o.support(h.cudd, h.node))
              && Wf(r.w)
              && Net(w, r.w, h.cudd, multiset{}, multiset{r.value.node.base})
              && SameEngine(w, r.w, h.cudd)
  {
    Wrap(w, h.cudd, o.support(h.cudd, h.node))
  }

  /** The `num_var`-long indicator array `Cudd_SupportIndex` returns. */
  function Indicator(o: Oracle, w: World, h: Bdd): (ind: seq<int>)
    requires h.cudd in w.managers
  {
    seq(NumVar(w, h.cudd), i requires 0 <= i => o.supportIndex(h.cudd, h.node, i))
  }

  /** `support_index`: the variables whose indicator entry is positive, in
      ascending order, each below `num_var`. Nothing in the world changes. */
  function SupportIndex(o: Oracle, w: World, h: Bdd): (r: seq<nat>)
    requires Live(w, h)
    ensures forall k :: 0 <= k < |r| ==> r[k] < NumVar(w, h.cudd) && o.supportIndex(h.cudd, h.node, r[k]) > 0
    ensures forall i, j :: 0 <= i < j < |r| ==> r[i] < r[j]
  {
    Positions(Indicator(o, w, h))
  }

  /** Every variable with a positive indicator entry is reported. */
  lemma SupportIndexComplete(o: Oracle, w: World, h: Bdd, i: nat)
    requires Live(w, h) && i < NumVar(w, h.cudd) && o.supportIndex(h.cudd, h.node, i) > 0
    ensures i in SupportIndex(o, w, h)
  {
    PositionsComplete(Indicator(o, w, h), i);
  }

  /** The `test_support_index` scenario: with three variables and an
      indicator that marks only variable 2, the result is `[2]`. */
  lemma SupportIndexOfVarTwo(o: Oracle, w: World, h: Bdd)
    requires Live(w, h) && NumVar(w, h.cudd) == 3
    requires o.supportIndex(h.cudd, h.node, 0) == 0 && o.supportIndex(h.cudd, h.node, 1) == 0
    requires o.supportIndex(h.cudd, h.node, 2) == 1
    ensures SupportIndex(o, w, h) == [2]
  {
    var ind := Indicator(o, w, h);
    assert ind == [0, 0, 1];
    assert ind[..2] == [0, 0];
    assert [0, 0][..1] == [0];
    assert [0][..0] == [];
    assert Positions([0]) == Positions([]) + [];
    assert Positions([0, 0]) == Positions([0]) + [];
    assert Positions([0, 0, 1]) == Positions([0, 0]) + [2];
  }

  /** `h` is the handle `ith_var(i)` returns on manager `p`. */
  ghost predicate IsVar(o: Oracle, p: Ptr, i: nat, h: Bdd) {
    h.cudd == p && h.node == o.ithVar(p, i)
  }

  /** `self.ith_var(var)` for each index, collected into a `Vec<Bdd>` that
      stays alive until the end of the calling function. */
  function VarHandles(o: Oracle, w: World, p: Ptr, idxs: seq<nat>): (r: Outcome<seq<Bdd>>)
    requires Wf(w) && p in w.managers
    ensures r.Panic? <==> !VarsOk(o, p, idxs)
    ensures r.Ok? ==>
              && Wf(r.w)
              && |r.value| == |idxs|
              && (forall k :: 0 <= k < |idxs| ==> IsVar(o, p, idxs[k], r.value[k]))
              && Net(w, r.w, p, multiset{}, Nodes(r.value))
              && r.w.managers[p].numTransfer == w.managers[p].numTransfer
              && NumVar(r.w, p) == GrowTo(NumVar(w, p), idxs)
    decreases |idxs|
  {
    if |idxs| == 0 then Ok(w, [])
    else
      var r1 := IthVar(o, w, p, idxs[0]);
      if r1.Panic? then
        VarsOkCons(o, p, idxs);
        Panic(r1.fault)
      else JoinVarHandles(o, w, p, idxs, r1, VarHandles(o, r1.w, p, idxs[1..]))
  }

  function JoinVarHandles(o: Oracle, w: World, p: Ptr, idxs: seq<nat>, r1: Outcome<Bdd>, rest: Outcome<seq<Bdd>>)
    : (r: Outcome<seq<Bdd>>)
    requires Wf(w) && p in w.managers && |idxs| > 0
    requires r1 == IthVar(o, w, p, idxs[0]) && r1.Ok?
    requires rest.Panic? <==> !VarsOk(o, p, idxs[1..])
    requires rest.Ok? ==>
               && Wf(rest.w)
               && |rest.value| == |idxs| - 1
               && (forall k :: 0 <= k < |idxs| - 1 ==> IsVar(o, p, idxs[1..][k], rest.value[k]))
               && Net(r1.w, rest.w, p, multiset{}, Nodes(rest.value))
               && rest.w.managers[p].numTransfer == r1.w.managers[p].numTransfer
               && NumVar(rest.w, p) == GrowTo(NumVar(r1.w, p), idxs[1..])
    ensures r.Panic? <==> !VarsOk(o, p, idxs)
    ensures r.Ok? ==>
              && Wf(r.w)
              && |r.value| == |idxs|
              && (forall k :: 0 <= k < |idxs| ==> IsVar(o, p, idxs[k], r.value[k]))
              && Net(w, r.w, p, multiset{}, Nodes(r.value))
              && r.w.managers[p].numTransfer == w.managers[p].numTransfer
              && NumVar(r.w, p) == GrowTo(NumVar(w, p), idxs)
  {
    VarsOkCons(o, p, idxs);
    if rest.Panic? then Panic(rest.fault)
    else
      JoinHandleFacts(o, w, r1.w, rest.w, p, idxs, r1.value, rest.value);
      Ok(rest.w, [r1.value] + rest.value)
  }

  lemma JoinHandleFacts(o: Oracle, w: World, w1: World, w2: World, p: Ptr, idxs: seq<nat>, v: Bdd, vs: seq<Bdd>)
    requires |idxs| > 0 && IsVar(o, p, idxs[0], v)
    requires Net(w, w1, p, multiset{}, multiset{v.node.base})
    requires |vs| == |idxs| - 1 && forall k :: 0 <= k < |idxs| - 1 ==> IsVar(o, p, idxs[1..][k], vs[k])
    requires Net(w1, w2, p, multiset{}, Nodes(vs))
    ensures forall k :: 0 <= k < |idxs| ==> IsVar(o, p, idxs[k], ([v] + vs)[k])
    ensures Net(w, w2, p, multiset{}, Nodes([v] + vs))
  {
    NetCompose(w, w1, w2, p, multiset{}, multiset{v.node.base}, multiset{}, Nodes(vs));
    assert ([v] + vs)[1..] == vs;
    var none: multiset<nat> := multiset{};
    assert none + none == none;
    forall k | 1 <= k < |idxs| ensures IsVar(o, p, idxs[k], ([v] + vs)[k]) {
      assert idxs[1..][k - 1] == idxs[k];
    }
  }

  /** The nodes of a list of handles, in order. */
  function NodesOf(hs: seq<Bdd>): (ns: seq<Node>)
    ensures |ns| == |hs|
    ensures forall k :: 0 <= k < |hs| ==> ns[k] == hs[k].node
  {
    seq(|hs|, k requires 0 <= k < |hs| => hs[k].node)
  }

  /** The node `cube_bdd` builds from the variables `vars`. */
  ghost function CubeNode(o: Oracle, p: Ptr, vars: seq<nat>): Node {
    o.computeCube(p, VarNodeSeq(o, p, vars))
  }

  /** The two quantifications: `exist_abstract` and `and_abstract` with the
      conjunct `f`. */
  datatype Quantifier = Exists | AndExists(f: Bdd)

  /** The handle whose node the quantification hands the engine besides the
      receiver `h`: the conjunct of `and_abstract`, or `h` itself. */
  function Conjunct(q: Quantifier, h: Bdd): Bdd {
    match q
    case Exists => h
    case AndExists(f) => f
  }

  function Quantify(o: Oracle, q: Quantifier, p: Ptr, n: Node, cube: Node): Node {
    match q
    case Exists => o.existAbstract(p, n, cube)
    case AndExists(f) => o.andAbstract(p, n, f.node, cube)
  }

  /** The shared shape of `exist_abstract` and `and_abstract`: a `Vec` of
      variable handles, a cube handle built from it, the engine call, and
      then the cube and every variable handle are dropped. Manager affinity
      of the conjunct is not checked. */
  function Abstract(o: Oracle, w: World, h: Bdd, q: Quantifier, vars: seq<nat>): (r: Outcome<Bdd>)
    requires Wf(w) && Live(w, h)
    ensures r.Panic? <==>
              || !VarsOk(o, h.cudd, vars)
              || CubeNode(o, h.cudd, vars).Null?
              || Quantify(o, q, h.cudd, h.node, CubeNode(o, h.cudd, vars)).Null?
    ensures r.Ok? ==>
              && r.value == Bdd(h.cudd, Quantify(o, q, h.cudd, h.node, CubeNode(o, h.cudd, vars)))
              && Wf(r.w)
              && Net(w, r.w, h.cudd, multiset{}, multiset{r.value.node.base})
              && r.w.managers[h.cudd].numTransfer == w.managers[h.cudd].numTransfer
              && NumVar(r.w, h.cudd) == Max(GrowTo(NumVar(w, h.cudd), vars), Reach(o, h.cudd, Conjunct(q, h)))
  {
    var t := VarHandles(o, w, h.cudd, vars);
    if t.Panic? then Panic(t.fault)
    else AbstractOver(o, w, h, q, vars, t)
  }

  function AbstractOver(o: Oracle, w: World, h: Bdd, q: Quantifier, vars: seq<nat>, t: Outcome<seq<Bdd>>)
    : (r: Outcome<Bdd>)
    requires Wf(w) && h.cudd in w.managers
    requires t == VarHandles(o, w, h.cudd, vars) && t.Ok?
    ensures r.Panic? <==>
              CubeNode(o, h.cudd, vars).Null? || Quantify(o, q, h.cudd, h.node, CubeNode(o, h.cudd, vars)).Null?
    ensures r.Ok? ==>
              && r.value == Bdd(h.cudd, Quantify(o, q, h.cudd, h.node, CubeNode(o, h.cudd, vars)))
              && Wf(r.w)
              && Net(w, r.w, h.cudd, multiset{}, multiset{r.value.node.base})
              && r.w.managers[h.cudd].numTransfer == w.managers[h.cudd].numTransfer
              && NumVar(r.w, h.cudd) == Max(GrowTo(NumVar(w, h.cudd), vars), Reach(o, h.cudd, Conjunct(q, h)))
  {
    VarHandleNodes(o, h.cudd, vars, t.value);
    var c := Wrap(t.w, h.cudd, o.computeCube(h.cudd, NodesOf(t.value)));
    if c.Panic? then Panic(c.fault)
    else AbstractFinish(o, w, h, q, vars, t, c)
  }

  lemma VarHandleNodes(o: Oracle, p: Ptr, vars: seq<nat>, hs: seq<Bdd>)
    requires |hs| == |vars| && forall k :: 0 <= k < |vars| ==> IsVar(o, p, vars[k], hs[k])
    ensures NodesOf(hs) == VarNodeSeq(o, p, vars) && AllIn(hs, p)
  {
  }

  function AbstractFinish(o: Oracle, w: World, h: Bdd, q: Quantifier, vars: seq<nat>,
                          t: Outcome<seq<Bdd>>, c: Outcome<Bdd>): (r: Outcome<Bdd>)
    requires Wf(w) && h.cudd in w.managers
    requires t == VarHandles(o, w, h.cudd, vars) && t.Ok? && AllIn(t.value, h.cudd)
    requires c == Wrap(t.w, h.cudd, CubeNode(o, h.cudd, vars)) && c.Ok?
    ensures r.Panic? <==> Quantify(o, q, h.cudd, h.node, CubeNode(o, h.cudd, vars)).Null?
    ensures r.Ok? ==>
              && r.value == Bdd(h.cudd, Quantify(o, q, h.cudd, h.node, CubeNode(o, h.cudd, vars)))
              && Wf(r.w)
              && Net(w, r.w, h.cudd, multiset{}, multiset{r.value.node.base})
              && r.w.managers[h.cudd].numTransfer == w.managers[h.cudd].numTransfer
              && NumVar(r.w, h.cudd) == Max(GrowTo(NumVar(w, h.cudd), vars), Reach(o, h.cudd, Conjunct(q, h)))
  {
    var a := Adopt(o, c.w, h.cudd, Conjunct(q, h));
    var r1 := Wrap(a, h.cudd, Quantify(o, q, h.cudd, h.node, c.value.node));
    if r1.Panic? then r1
    else
      NetChain(c.w, c.w, a, r1.w, h.cudd, r1.value.node.base);
      AbstractFacts(w, t.w, c.w, r1.w, h.cudd, t.value, c.value, r1.value);
      Release(w, h.cudd, r1, [c.value] + t.value, [])
  }

  lemma AbstractFacts(w: World, w1: World, w2: World, w3: World, p: Ptr, ts: seq<Bdd>, c: Bdd, h: Bdd)
    requires p in w.managers && c.cudd == p && AllIn(ts, p)
    requires Net(w, w1, p, multiset{}, Nodes(ts))
    requires Net(w1, w2, p, multiset{}, multiset{c.node.base})
    requires Net(w2, w3, p, multiset{}, multiset{h.node.base})
    ensures Held(w, p, []) && AllIn([c] + ts, p)
    ensures Net(w, w3, p, multiset{}, Nodes([c] + ts) + multiset{h.node.base})
  {
    NetCompose(w, w1, w2, p, multiset{}, Nodes(ts), multiset{}, multiset{c.node.base});
    NetCompose(w, w2, w3, p, multiset{}, Nodes(ts) + multiset{c.node.base}, multiset{}, multiset{h.node.base});
    assert ([c] + ts)[1..] == ts;
    assert Nodes([c] + ts) == multiset{c.node.base} + Nodes(ts);
    var none: multiset<nat> := multiset{};
    assert none + none + none == none;
    forall k | 0 <= k < |[c] + ts| ensures ([c] + ts)[k].cudd == p {
      if k > 0 {
        assert ([c] + ts)[k] == ts[k - 1];
      }
    }
  }

  /** `exist_abstract(vars)`. */
  function ExistAbstract(o: Oracle, w: World, h: Bdd, vars: seq<nat>): (r: Outcome<Bdd>)
    requires Wf(w) && Live(w, h)
    ensures r.Panic? <==>
              || !VarsOk(o, h.cudd, vars)
              || CubeNode(o, h.cudd, vars).Null?
              || o.existAbstract(h.cudd, h.node, CubeNode(o, h.cudd, vars)).Null?
    ensures r.Ok? ==>
              && r.value == Bdd(h.cudd, o.existAbstract(h.cudd, h.node, CubeNode(o, h.cudd, vars)))
              && Wf(r.w)
              && Net(w, r.w, h.cudd, multiset{}, multiset{r.value.node.base})
              && r.w.managers[h.cudd].numTransfer == w.managers[h.cudd].numTransfer
              && NumVar(r.w, h.cudd) == GrowTo(NumVar(w, h.cudd), vars)
  {
    Abstract(o, w, h, Exists, vars)
  }

  /** `and_abstract(f, vars)`: `f` is never checked against the receiver's
      manager; its node goes to the receiver's engine whatever it belongs to,
      and a foreign node's variables are created there. */
  function AndAbstract(o: Oracle, w: World, h: Bdd, f: Bdd, vars: seq<nat>): (r: Outcome<Bdd>)
    requires Wf(w) && Live(w, h) && Live(w, f)
    ensures r.Panic? <==>
              || !VarsOk(o, h.cudd, vars)
              || CubeNode(o, h.cudd, vars).Null?
              || o.andAbstract(h.cudd, h.node, f.node, CubeNode(o, h.cudd, vars)).Null?
    ensures r.Ok? ==>
              && r.value == Bdd(h.cudd, o.andAbstract(h.cudd, h.node, f.node, CubeNode(o, h.cudd, vars)))
              && Wf(r.w)
              && Net(w, r.w, h.cudd, multiset{}, multiset{r.value.node.base})
              && r.w.managers[h.cudd].numTransfer == w.managers[h.cudd].numTransfer
              && NumVar(r.w, h.cudd) == Max(GrowTo(NumVar(w, h.cudd), vars), Reach(o, h.cudd, f))
              && (SameManager(f.cudd, h.cudd) ==> NumVar(r.w, h.cudd) == GrowTo(NumVar(w, h.cudd), vars))
  {
    assert Quantify(o, AndExists(f), h.cudd, h.node, CubeNode(o, h.cudd, vars))
        == o.andAbstract(h.cudd, h.node, f.node, CubeNode(o, h.cudd, vars));
    Abstract(o, w, h, AndExists(f), vars)
  }

  /** `if_then_else(then, else)`: no manager check on either branch; the
      variables of a foreign branch are created in the receiver's engine. */
  function IfThenElse(o: Oracle, w: World, h: Bdd, t: Bdd, e: Bdd): (r: Outcome<Bdd>)
    requires Wf(w) && Live(w, h) && Live(w, t) && Live(w, e)
    ensures r.Panic? <==> o.bddIte(h.cudd, h.node, t.node, e.node).Null?
    ensures r.Ok? ==>
              && r.value == Bdd(h.cudd, o.bddIte(h.cudd, h.node, t.node, e.node))
              && Wf(r.w)
              && Net(w, r.w, h.cudd, multiset{}, multiset{r.value.node.base})
              && r.w.managers[h.cudd].numTransfer == w.managers[h.cudd].numTransfer
              && NumVar(r.w, h.cudd) == Max(Max(NumVar(w, h.cudd), Reach(o, h.cudd, t)), Reach(o, h.cudd, e))
              && (SameManager(t.cudd, h.cudd) && SameManager(e.cudd, h.cudd) ==> SameEngine(w, r.w, h.cudd))
  {
    var w1 := Adopt(o, w, h.cudd, t);
    var w2 := Adopt(o, w1, h.cudd, e);
    var r := Wrap(w2, h.cudd, o.bddIte(h.cudd, h.node, t.node, e.node));
    if r.Ok? then
      NetChain(w, w1, w2, r.w, h.cudd, r.value.node.base);
      r
    else r
  }

  /** The affinity difference: with operands from two different managers the
      binary operators always panic, while `and_abstract` and `if_then_else`
      hand the foreign node to the receiver's engine and fail only if that
      engine returns null. */
  lemma AffinityGap(o: Oracle, w: World, a: Bdd, b: Bdd)
    requires Wf(w) && Live(w, a) && Live(w, b) && !SameManager(a.cudd, b.cudd)
    ensures Binary(o, w, And, a, false, b, false) == Panic(ManagerMismatch)
    ensures BddEq(w, a, b) == Panic(ManagerMismatch)
    ensures IfThenElse(o, w, a, b, b).Ok? <==> o.bddIte(a.cudd, a.node, b.node, b.node).Node?
    ensures AndAbstract(o, w, a, b, []).Ok? <==>
              CubeNode(o, a.cudd, []).Node? && o.andAbstract(a.cudd, a.node, b.node, CubeNode(o, a.cudd, [])).Node?
  {
    assert VarsOk(o, a.cudd, []);
  }

  /** `swap_vars(from, to)`: both index lists become node lists through
      temporary variable handles, the lengths are asserted equal, and the
      engine's swap is wrapped. */
  function SwapVars(o: Oracle, w: World, h: Bdd, from: seq<nat>, to: seq<nat>): (r: Outcome<Bdd>)
    requires Wf(w) && Live(w, h)
    ensures r.Panic? <==>
              || !VarsOk(o, h.cudd, from) || !VarsOk(o, h.cudd, to) || |from| != |to|
              || o.swapVariables(h.cudd, h.node, VarNodeSeq(o, h.cudd, from), VarNodeSeq(o, h.cudd, to)).Null?
    ensures VarsOk(o, h.cudd, from) && VarsOk(o, h.cudd, to) && |from| != |to| ==> r == Panic(LengthMismatch)
    ensures r.Ok? ==>
              && r.value == Bdd(h.cudd, o.swapVariables(h.cudd, h.node, VarNodeSeq(o, h.cudd, from), VarNodeSeq(o, h.cudd, to)))
              && Wf(r.w)
              && Net(w, r.w, h.cudd, multiset{}, multiset{r.value.node.base})
              && r.w.managers[h.cudd].numTransfer == w.managers[h.cudd].numTransfer
              && NumVar(r.w, h.cudd) == GrowTo(GrowTo(NumVar(w, h.cudd), from), to)
  {
    var f := VarNodes(o, w, h.cudd, from);
    if f.Panic? then Panic(f.fault)
    else SwapWith(o, w, h, from, to, f)
  }

  function SwapWith(o: Oracle, w: World, h: Bdd, from: seq<nat>, to: seq<nat>, f: Outcome<seq<NodeRef>>)
    : (r: Outcome<Bdd>)
    requires Wf(w) && h.cudd in w.managers
    requires f == VarNodes(o, w, h.cudd, from) && f.Ok?
    ensures r.Panic? <==>
              || !VarsOk(o, h.cudd, to) || |from| != |to|
              || o.swapVariables(h.cudd, h.node, VarNodeSeq(o, h.cudd, from), VarNodeSeq(o, h.cudd, to)).Null?
    ensures VarsOk(o, h.cudd, to) && |from| != |to| ==> r == Panic(LengthMismatch)
    ensures r.Ok? ==>
              && r.value == Bdd(h.cudd, o.swapVariables(h.cudd, h.node, VarNodeSeq(o, h.cudd, from), VarNodeSeq(o, h.cudd, to)))
              && Wf(r.w)
              && Net(w, r.w, h.cudd, multiset{}, multiset{r.value.node.base})
              && r.w.managers[h.cudd].numTransfer == w.managers[h.cudd].numTransfer
              && NumVar(r.w, h.cudd) == GrowTo(GrowTo(NumVar(w, h.cudd), from), to)
  {
    var t := VarNodes(o, f.w, h.cudd, to);
    if t.Panic? then Panic(t.fault)
    else if |f.value| != |t.value| then Panic(LengthMismatch)
    else
      var r := Wrap(t.w, h.cudd, o.swapVariables(h.cudd, h.node, f.value, t.value));
      if r.Panic? then r
      else
        NetChain(w, f.w, t.w, r.w, h.cudd, r.value.node.base);
        r
  }

  /** Two steps with no net change followed by one new handle. */
  lemma NetChain(w: World, w1: World, w2: World, w3: World, p: Ptr, b: nat)
    requires Net(w, w1, p, multiset{}, multiset{}) && Net(w1, w2, p, multiset{}, multiset{})
    requires Net(w2, w3, p, multiset{}, multiset{b})
    ensures Net(w, w3, p, multiset{}, multiset{b})
  {
    NetCompose(w, w1, w2, p, multiset{}, multiset{}, multiset{}, multiset{});
    var none: multiset<nat> := multiset{};
    assert none + none == none;
    NetCompose(w, w2, w3, p, multiset{}, multiset{}, multiset{}, multiset{b});
    assert multiset{} + multiset{b} == multiset{b};
  }

  /** `next_state`: swaps the even (current-state) variables with the odd
      (next-state) ones below `num_var`. */
  function NextState(o: Oracle, w: World, h: Bdd): (r: Outcome<Bdd>)
    requires Wf(w) && Live(w, h)
    ensures var n := NumVar(w, h.cudd);
            var from, to := WithParity(n, 0), WithParity(n, 1);
            && (r.Panic? <==>
                  || !VarsOk(o, h.cudd, from) || !VarsOk(o, h.cudd, to) || |from| != |to|
                  || o.swapVariables(h.cudd, h.node, VarNodeSeq(o, h.cudd, from), VarNodeSeq(o, h.cudd, to)).Null?)
            && (r.Ok? ==>
                  && r.value == Bdd(h.cudd, o.swapVariables(h.cudd, h.node, VarNodeSeq(o, h.cudd, from), VarNodeSeq(o, h.cudd, to)))
                  && Wf(r.w)
                  && Net(w, r.w, h.cudd, multiset{}, multiset{r.value.node.base})
                  && SameEngine(w, r.w, h.cudd))
  {
    var n := NumVar(w, h.cudd);
    GrowToWithin(n, WithParity(n, 0));
    GrowToWithin(n, WithParity(n, 1));
    SwapVars(o, w, h, WithParity(n, 0), WithParity(n, 1))
  }

  /** An odd variable count always panics, and on the length assertion
      whenever every variable exists. */
  lemma NextStateOddPanics(o: Oracle, w: World, h: Bdd)
    requires Wf(w) && Live(w, h) && NumVar(w, h.cudd) % 2 == 1
    ensures NextState(o, w, h).Panic?
    ensures var n := NumVar(w, h.cudd);
            VarsOk(o, h.cudd, WithParity(n, 0)) && VarsOk(o, h.cudd, WithParity(n, 1)) ==>
              NextState(o, w, h) == Panic(LengthMismatch)
  {
    NextStatePairs(NumVar(w, h.cudd));
  }

  /** With an even count, `next_state` fails only when the engine does, pairs
      each even variable with the odd one after it, and never changes the
      variable count: every index it asks for exists. */
  lemma NextStateEven(o: Oracle, w: World, h: Bdd)
    requires Wf(w) && Live(w, h) && NumVar(w, h.cudd) % 2 == 0
    ensures var n := NumVar(w, h.cudd);
            var from, to := WithParity(n, 0), WithParity(n, 1);
            NextState(o, w, h).Panic? <==>
              !VarsOk(o, h.cudd, from) || !VarsOk(o, h.cudd, to)
              || o.swapVariables(h.cudd, h.node, VarNodeSeq(o, h.cudd, from), VarNodeSeq(o, h.cudd, to)).Null?
    ensures NextState(o, w, h).Ok? ==> NumVar(NextState(o, w, h).w, h.cudd) == NumVar(w, h.cudd)
  {
  }
}
