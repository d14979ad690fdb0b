/** The `Cudd` manager: creation, variables, constants, transfer between
    managers and cubes over variable indices. */
module Cudd {
  import opened Engine
  import opened Lifetime

  /** `Cudd::new`: `Cudd_Init` either returns null, which trips the assertion,
      or a fresh engine with no variables, one holder and a zero transfer
      counter. The new manager differs from every live one and from every one
      already quit. */
  function New(o: Oracle, w: World): (r: Outcome<Ptr>)
    requires Wf(w)
    ensures r.Panic? <==> o.initFails(w.nextPtr)
    ensures r.Panic? ==> r.fault == NullManager
    ensures r.Ok? ==>
              && Wf(r.w)
              && r.w.managers.Keys == w.managers.Keys + {r.value}
              && r.w.managers[r.value] == Shared(multiset{}, 0, 0, 1)
              && r.w.quitLog == w.quitLog
              && r.value == w.nextPtr && r.w.nextPtr == w.nextPtr + 1
              && (forall i :: 0 <= i < |w.quitLog| ==> !SameManager(w.quitLog[i], r.value))
              && forall q :: q in w.managers ==> !SameManager(q, r.value) && r.w.managers[q] == w.managers[q]
  {
    if o.initFails(w.nextPtr) then Panic(NullManager)
    else
      var p := w.nextPtr;
      Ok(World(w.managers[p := Shared(multiset{}, 0, 0, 1)], p + 1, w.quitLog), p)
  }

  /** Manager equality compares engine addresses, so two managers created
      one after the other are unequal, while clones of one manager (which
      share its address) are equal. */
  lemma SeparateManagersDiffer(o: Oracle, w: World)
    requires Wf(w)
    ensures var m1 := New(o, w);
            m1.Ok? ==>
              && SameManager(m1.value, m1.value)
              && var m2 := New(o, m1.w);
                 m2.Ok? ==> !SameManager(m1.value, m2.value)
  {
  }

  /** `Cudd::num_var` (`Cudd_ReadSize`). */
  function NumVar(w: World, p: Ptr): nat
    requires p in w.managers
  {
    w.managers[p].size
  }

  /** `num_var` counts the variables that exist: `new_var` makes variable
      `num_var` and adds one, and `ith_var(i)` leaves the count alone exactly
      when `i` is already below it. */
  lemma NumVarCountsVariables(o: Oracle, w: World, p: Ptr, i: nat)
    requires Wf(w) && p in w.managers
    ensures var r := NewVar(o, w, p);
            r.Ok? ==> r.value.node == o.newVar(p, NumVar(w, p)) && NumVar(r.w, p) == NumVar(w, p) + 1
    ensures var r := IthVar(o, w, p, i);
            r.Ok? ==> (NumVar(r.w, p) == NumVar(w, p) <==> i < NumVar(w, p))
  {
  }

  /** `Cudd::new_var`: the variable at index `num_var`, which grows by one. */
  function NewVar(o: Oracle, w: World, p: Ptr): (r: Outcome<Bdd>)
    requires Wf(w) && p in w.managers
    ensures r.Panic? <==> o.newVar(p, NumVar(w, p)).Null?
    ensures r.Panic? ==> r.fault == NullNode
    ensures r.Ok? ==>
              && r.value == Bdd(p, o.newVar(p, NumVar(w, p)))
              && Wf(r.w)
              && Net(w, r.w, p, multiset{}, multiset{r.value.node.base})
              && NumVar(r.w, p) == NumVar(w, p) + 1
              && r.w.managers[p].numTransfer == w.managers[p].numTransfer
  {
    var s := w.managers[p];
    var n := o.newVar(p, s.size);
    Wrap(Update(w, p, s.(size := if n.Node? then s.size + 1 else s.size)), p, n)
  }

  /** The variable count after `Cudd_bddIthVar(i)` succeeds on a manager with
      `size` variables. */
  function Grown(size: nat, i: nat): (n: nat)
    ensures n > i && n >= size
    ensures n == size || n == i + 1
  {
    if i < size then size else i + 1
  }

  /** The `i as c_int` conversion at the `Cudd_bddIthVar` call: keeps the low
      32 bits of `i` as a two's-complement integer. */
  function CInt(i: nat): (c: int)
    ensures -0x8000_0000 <= c < 0x8000_0000
    ensures (i - c) % 0x1_0000_0000 == 0
    ensures i < 0x8000_0000 ==> c == i
  {
    var m := i % 0x1_0000_0000;
    if m < 0x8000_0000 then m else m - 0x1_0000_0000
  }

  /** `Cudd::ith_var` as written: the index is truncated to a C `int` before
      it reaches the engine. A non-null answer for a non-negative index means
      every variable up to it now exists. */
  function IthVarAsWritten(o: Oracle, w: World, p: Ptr, i: nat): (r: Outcome<Bdd>)
    requires Wf(w) && p in w.managers
    ensures r.Panic? <==> o.ithVar(p, CInt(i)).Null?
    ensures r.Panic? ==> r.fault == NullNode
    ensures r.Ok? ==>
              && r.value == Bdd(p, o.ithVar(p, CInt(i)))
              && Wf(r.w)
              && Net(w, r.w, p, multiset{}, multiset{r.value.node.base})
              && r.w.managers[p].numTransfer == w.managers[p].numTransfer
              && NumVar(r.w, p) == if CInt(i) >= 0 then Grown(NumVar(w, p), CInt(i)) else NumVar(w, p)
  {
    var s := w.managers[p];
    var c := CInt(i);
    var n := o.ithVar(p, c);
    Wrap(Update(w, p, s.(size := if n.Node? && c >= 0 then Grown(s.size, c) else s.size)), p, n)
  }

  /** The truncation aliases index 2^32 + 3 to variable 3: the handle returned
      is variable 3's, and `num_var` need not exceed the index asked for. */
  lemma IthVarAliases(o: Oracle, w: World, p: Ptr)
    requires Wf(w) && p in w.managers && NumVar(w, p) <= 4
    ensures IthVarAsWritten(o, w, p, 0x1_0000_0003) == IthVarAsWritten(o, w, p, 3)
    ensures var r := IthVarAsWritten(o, w, p, 0x1_0000_0003);
            r.Ok? ==> NumVar(r.w, p) < 0x1_0000_0003 + 1
  {
    assert CInt(0x1_0000_0003) == 3;
  }

  /** `Cudd::ith_var` with the index conversion checked: an index a C `int`
      cannot hold panics instead of naming another variable. */
  function IthVar(o: Oracle, w: World, p: Ptr, i: nat): (r: Outcome<Bdd>)
    requires Wf(w) && p in w.managers
    ensures r.Panic? <==> i >= 0x8000_0000 || o.ithVar(p, i).Null?
    ensures i >= 0x8000_0000 ==> r == Panic(IndexOverflow)
    ensures r.Ok? ==>
              && r.value == Bdd(p, o.ithVar(p, i))
              && Wf(r.w)
              && Net(w, r.w, p, multiset{}, multiset{r.value.node.base})
              && r.w.managers[p].numTransfer == w.managers[p].numTransfer
              && NumVar(r.w, p) == Grown(NumVar(w, p), i)
  {
    if i >= 0x8000_0000 then Panic(IndexOverflow)
    else IthVarAsWritten(o, w, p, i)
  }

  lemma IthVarRejectsWideIndex(o: Oracle, w: World, p: Ptr)
    requires Wf(w) && p in w.managers
    ensures IthVar(o, w, p, 0x1_0000_0003) == Panic(IndexOverflow)
  {
  }

  /** The scenario of the `test_num_var` test: variables 0, 1 and 3 on a new
      manager leave exactly four variables. */
  lemma NumVarAfterIthVars(o: Oracle, w: World)
    requires Wf(w)
    ensures var m := New(o, w);
            m.Ok? ==>
              var r0 := IthVar(o, m.w, m.value, 0);
              r0.Ok? ==>
                var r1 := IthVar(o, r0.w, m.value, 1);
                r1.Ok? ==>
                  var r3 := IthVar(o, r1.w, m.value, 3);
                  r3.Ok? ==> NumVar(r3.w, m.value) == 4
  {
  }

  /** `Cudd::constant`: `Cudd_ReadOne` or `Cudd_ReadLogicZero`, wrapped. */
  function ConstantNode(o: Oracle, p: Ptr, value: bool): Node {
    if value then o.readOne(p) else o.readLogicZero(p)
  }

  function Constant(o: Oracle, w: World, p: Ptr, value: bool): (r: Outcome<Bdd>)
    requires Wf(w) && p in w.managers
    ensures r.Panic? <==> ConstantNode(o, p, value).Null?
    ensures r.Panic? ==> r.fault == NullNode
    ensures r.Ok? ==>
              && r.value == Bdd(p, ConstantNode(o, p, value))
              && Wf(r.w)
              && Net(w, r.w, p, multiset{}, multiset{r.value.node.base})
              && SameEngine(w, r.w, p)
              && Live(r.w, r.value)
  {
    Wrap(w, p, ConstantNode(o, p, value))
  }

  /** `*self.num_transfer.lock().unwrap() += 1`. */
  function CountTransfer(w: World, p: Ptr): (w1: World)
    requires Wf(w) && p in w.managers
    ensures Wf(w1) && Net(w, w1, p, multiset{}, multiset{})
    ensures w1.managers[p].numTransfer == w.managers[p].numTransfer + 1 && NumVar(w1, p) == NumVar(w, p)
    ensures forall h :: Live(w, h) ==> Live(w1, h)
  {
    Update(w, p, w.managers[p].(numTransfer := w.managers[p].numTransfer + 1))
  }

  /** The larger of two counts. */
  function Max(a: nat, b: nat): (m: nat)
    ensures m >= a && m >= b && (m == a || m == b)
  {
    if a >= b then a else b
  }

  /** The variables manager `p`'s engine needs after it is handed the node
      of `h`: none for a node of its own, the node's levels for a node of
      another manager. */
  function Reach(o: Oracle, p: Ptr, h: Bdd): nat {
    if SameManager(h.cudd, p) then 0 else o.levels(h.cudd, h.node)
  }

  /** Manager `p`'s engine after it has worked on the node of `h`: its own
      node leaves it as it was, while the variables of a foreign node are
      created in it. References, holders and the counter do not move. */
  function Adopt(o: Oracle, w: World, p: Ptr, h: Bdd): (w2: World)
    requires Wf(w) && p in w.managers
    ensures Wf(w2) && Net(w, w2, p, multiset{}, multiset{})
    ensures w2.managers[p].numTransfer == w.managers[p].numTransfer
    ensures NumVar(w2, p) == Max(NumVar(w, p), Reach(o, p, h))
    ensures SameManager(h.cudd, p) ==> w2 == w
  {
    if SameManager(h.cudd, p) then w
    else
      var s := w.managers[p];
      Update(w, p, s.(size := Max(s.size, Reach(o, p, h))))
  }

  /** `Cudd::translocate`: the target's transfer counter always goes up by
      one. A handle already in the target comes back as a clone and the
      target's variables stay as they were. Any other handle is transferred:
      the result belongs to the target, whose engine now has every variable
      the node reaches. */
  function Translocate(o: Oracle, w: World, p: Ptr, h: Bdd): (r: Outcome<Bdd>)
    requires Wf(w) && p in w.managers && Live(w, h)
    ensures SameManager(p, h.cudd) ==> r.Ok? && r.value == h
    ensures !SameManager(p, h.cudd) ==>
              && (r.Panic? <==> o.transfer(h.cudd, p, h.node).Null?)
              && (r.Ok? ==> r.value == Bdd(p, o.transfer(h.cudd, p, h.node)))
    ensures r.Ok? ==>
              && r.value.cudd == p
              && Wf(r.w)
              && Net(w, r.w, p, multiset{}, multiset{r.value.node.base})
              && r.w.managers[p].numTransfer == w.managers[p].numTransfer + 1
              && NumVar(r.w, p) == if SameManager(p, h.cudd) then NumVar(w, p)
                                   else Max(NumVar(w, p), o.levels(h.cudd, h.node))
  {
    var w1 := CountTransfer(w, p);
    if SameManager(p, h.cudd) then
      var r := BddClone(w1, h);
      NetCompose(w, w1, r.w, p, multiset{}, multiset{}, multiset{}, multiset{r.value.node.base});
      r
    else
      var r := Import(o, w1, p, h);
      if r.Ok? then
        NetCompose(w, w1, r.w, p, multiset{}, multiset{}, multiset{}, multiset{r.value.node.base});
        r
      else r
  }

  /** The cross-manager half of `transfer`: the engine of `p` creates the
      variables the foreign diagram reaches, then rebuilds it. */
  function Import(o: Oracle, w: World, p: Ptr, h: Bdd): (r: Outcome<Bdd>)
    requires Wf(w) && p in w.managers && !SameManager(p, h.cudd)
    ensures r.Panic? <==> o.transfer(h.cudd, p, h.node).Null?
    ensures r.Ok? ==>
              && r.value == Bdd(p, o.transfer(h.cudd, p, h.node))
              && Wf(r.w)
              && Net(w, r.w, p, multiset{}, multiset{r.value.node.base})
              && r.w.managers[p].numTransfer == w.managers[p].numTransfer
              && NumVar(r.w, p) == Max(NumVar(w, p), o.levels(h.cudd, h.node))
  {
    var w1 := Adopt(o, w, p, h);
    var r := Wrap(w1, p, o.transfer(h.cudd, p, h.node));
    if r.Ok? then
      var none: multiset<nat> := multiset{};
      assert none + none == none;
      NetCompose(w, w1, r.w, p, multiset{}, multiset{}, multiset{}, multiset{r.value.node.base});
      r
    else r
  }

  /** The `test_transfer` scenario: a handle moved into a new manager is
      that manager's, and its variables now exist there. */
  lemma TranslocateIntoNew(o: Oracle, w: World, h: Bdd)
    requires Wf(w) && Live(w, h)
    ensures var m := New(o, w);
            m.Ok? ==>
              var r := Translocate(o, m.w, m.value, h);
              r.Ok? ==> r.value.cudd == m.value && NumVar(r.w, m.value) == o.levels(h.cudd, h.node)
  {
  }

  /** Whether `ith_var` succeeds on every index of `idxs`. */
  ghost predicate VarsOk(o: Oracle, p: Ptr, idxs: seq<nat>) {
    forall k :: 0 <= k < |idxs| ==> idxs[k] < 0x8000_0000 && o.ithVar(p, idxs[k]).Node?
  }

  lemma VarsOkCons(o: Oracle, p: Ptr, idxs: seq<nat>)
    requires |idxs| > 0
    ensures VarsOk(o, p, idxs) <==>
              idxs[0] < 0x8000_0000 && o.ithVar(p, idxs[0]).Node? && VarsOk(o, p, idxs[1..])
  {
    if idxs[0] < 0x8000_0000 && o.ithVar(p, idxs[0]).Node? && VarsOk(o, p, idxs[1..]) {
      forall k | 0 <= k < |idxs| ensures idxs[k] < 0x8000_0000 && o.ithVar(p, idxs[k]).Node? {
        if k > 0 {
          assert idxs[1..][k - 1] == idxs[k];
        }
      }
    }
  }

  /** The engine's variable nodes for `idxs`, in order. */
  ghost function VarNodeSeq(o: Oracle, p: Ptr, idxs: seq<nat>): seq<Node> {
    seq(|idxs|, k requires 0 <= k < |idxs| => o.ithVar(p, idxs[k]))
  }

  /** The variable count after creating the variables `idxs` one after the
      other, starting from `size` variables. */
  function GrowTo(size: nat, idxs: seq<nat>): nat
    decreases |idxs|
  {
    if |idxs| == 0 then size else GrowTo(Grown(size, idxs[0]), idxs[1..])
  }

  /** `GrowTo` never shrinks, covers every index, and is no larger than it
      must be: it is the old count or one past some index. */
  lemma {:induction false} GrowToCovers(size: nat, idxs: seq<nat>)
    ensures GrowTo(size, idxs) >= size
    ensures forall k :: 0 <= k < |idxs| ==> idxs[k] < GrowTo(size, idxs)
    ensures GrowTo(size, idxs) == size || exists k :: 0 <= k < |idxs| && GrowTo(size, idxs) == idxs[k] + 1
    decreases |idxs|
  {
    if |idxs| > 0 {
      var s1 := Grown(size, idxs[0]);
      GrowToCovers(s1, idxs[1..]);
      forall k | 1 <= k < |idxs| ensures idxs[k] == idxs[1..][k - 1] {}
      if GrowTo(size, idxs) != size && GrowTo(size, idxs) != idxs[0] + 1 {
        var k :| 0 <= k < |idxs[1..]| && GrowTo(s1, idxs[1..]) == idxs[1..][k] + 1;
        assert GrowTo(size, idxs) == idxs[k + 1] + 1;
      }
    }
  }

  /** Asking only for variables that already exist leaves the count alone. */
  lemma {:induction false} GrowToWithin(size: nat, idxs: seq<nat>)
    requires forall k :: 0 <= k < |idxs| ==> idxs[k] < size
    ensures GrowTo(size, idxs) == size
    decreases |idxs|
  {
    if |idxs| > 0 {
      forall k | 0 <= k < |idxs[1..]| ensures idxs[1..][k] < size {
        assert idxs[1..][k] == idxs[k + 1];
      }
      GrowToWithin(size, idxs[1..]);
    }
  }

  /** `self.ith_var(var).node` as a temporary: the handle is dropped at once,
      so only the node and the grown variable count remain. */
  function VarNode(o: Oracle, w: World, p: Ptr, i: nat): (r: Outcome<NodeRef>)
    requires Wf(w) && p in w.managers
    ensures r.Panic? <==> i >= 0x8000_0000 || o.ithVar(p, i).Null?
    ensures r.Ok? ==>
              && Wf(r.w)
              && r.value == o.ithVar(p, i)
              && Net(w, r.w, p, multiset{}, multiset{})
              && r.w.managers[p].numTransfer == w.managers[p].numTransfer
              && NumVar(r.w, p) == Grown(NumVar(w, p), i)
  {
    var r := IthVar(o, w, p, i);
    if r.Panic? then Panic(r.fault)
    else
      var w2 := BddDrop(r.w, r.value);
      NetCompose(w, r.w, w2, p, multiset{}, multiset{r.value.node.base}, multiset{r.value.node.base}, multiset{});
      NetCancel(w, w2, p, multiset{}, multiset{}, multiset{r.value.node.base});
      Ok(w2, r.value.node)
  }

  /** `idxs.map(|var| self.ith_var(var).node)`: no reference is left behind;
      only the variable count grows. */
  function VarNodes(o: Oracle, w: World, p: Ptr, idxs: seq<nat>): (r: Outcome<seq<NodeRef>>)
    requires Wf(w) && p in w.managers
    ensures r.Panic? <==> !VarsOk(o, p, idxs)
    ensures r.Ok? ==>
              && Wf(r.w)
              && r.value == VarNodeSeq(o, p, idxs)
              && Net(w, r.w, p, multiset{}, multiset{})
              && r.w.managers[p].numTransfer == w.managers[p].numTransfer
              && NumVar(r.w, p) == GrowTo(NumVar(w, p), idxs)
    decreases |idxs|
  {
    if |idxs| == 0 then Ok(w, [])
    else
      var r1 := VarNode(o, w, p, idxs[0]);
      if r1.Panic? then
        VarsOkCons(o, p, idxs);
        Panic(r1.fault)
      else JoinVarNodes(o, w, p, idxs, r1, VarNodes(o, r1.w, p, idxs[1..]))
  }

  function JoinVarNodes(o: Oracle, w: World, p: Ptr, idxs: seq<nat>, r1: Outcome<NodeRef>, rest: Outcome<seq<NodeRef>>)
    : (r: Outcome<seq<NodeRef>>)
    requires Wf(w) && p in w.managers && |idxs| > 0
    requires r1 == VarNode(o, w, p, idxs[0]) && r1.Ok?
    requires rest.Panic? <==> !VarsOk(o, p, idxs[1..])
    requires rest.Ok? ==>
               && Wf(rest.w)
               && rest.value == VarNodeSeq(o, p, idxs[1..])
               && Net(r1.w, rest.w, p, multiset{}, multiset{})
               && rest.w.managers[p].numTransfer == r1.w.managers[p].numTransfer
               && NumVar(rest.w, p) == GrowTo(NumVar(r1.w, p), idxs[1..])
    ensures r.Panic? <==> !VarsOk(o, p, idxs)
    ensures r.Ok? ==>
              && Wf(r.w)
              && r.value == VarNodeSeq(o, p, idxs)
              && Net(w, r.w, p, multiset{}, multiset{})
              && r.w.managers[p].numTransfer == w.managers[p].numTransfer
              && NumVar(r.w, p) == GrowTo(NumVar(w, p), idxs)
  {
    VarsOkCons(o, p, idxs);
    if rest.Panic? then Panic(rest.fault)
    else
      NetCompose(w, r1.w, rest.w, p, multiset{}, multiset{}, multiset{}, multiset{});
      VarNodeSeqCons(o, p, idxs);
      Ok(rest.w, [r1.value] + rest.value)
  }

  lemma VarNodeSeqCons(o: Oracle, p: Ptr, idxs: seq<nat>)
    requires |idxs| > 0
    ensures VarNodeSeq(o, p, idxs) == [o.ithVar(p, idxs[0])] + VarNodeSeq(o, p, idxs[1..])
  {
  }

  /** `Cudd::cube`: collects the variable nodes (no net reference), then
      wraps `Cudd_bddComputeCube` over them: a net gain of one reference, on
      the cube only. */
  function Cube(o: Oracle, w: World, p: Ptr, idxs: seq<nat>): (r: Outcome<Bdd>)
    requires Wf(w) && p in w.managers
    ensures r.Panic? <==> !VarsOk(o, p, idxs) || o.computeCube(p, VarNodeSeq(o, p, idxs)).Null?
    ensures r.Ok? ==>
              && r.value == Bdd(p, o.computeCube(p, VarNodeSeq(o, p, idxs)))
              && Wf(r.w)
              && Net(w, r.w, p, multiset{}, multiset{r.value.node.base})
              && r.w.managers[p].numTransfer == w.managers[p].numTransfer
              && NumVar(r.w, p) == GrowTo(NumVar(w, p), idxs)
  {
    var r1 := VarNodes(o, w, p, idxs);
    if r1.Panic? then Panic(r1.fault)
    else
      var r := Wrap(r1.w, p, o.computeCube(p, r1.value));
      if r.Ok? then
        NetCompose(w, r1.w, r.w, p, multiset{}, multiset{}, multiset{}, multiset{r.value.node.base});
        r
      else r
  }
}
