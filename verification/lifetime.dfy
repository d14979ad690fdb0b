/** Lifetimes of the two user-visible values: `Cudd`, a shared holder of one
    engine, and `Bdd`, a handle that owns one external reference on a node and
    one `Cudd` holder of the node's manager. */
module Lifetime {
  import opened Engine

  /** A node handle: the manager it belongs to (by engine address) and its
      node. The node is never null: `Bdd::new` asserts that. */
  datatype Bdd = Bdd(cudd: Ptr, node: NodeRef)

  /** The regular nodes the handles `hs` refer to, with multiplicity. */
  function Nodes(hs: seq<Bdd>): (m: multiset<nat>)
    ensures |m| == |hs|
  {
    if |hs| == 0 then multiset{} else multiset{hs[0].node.base} + Nodes(hs[1..])
  }

  lemma {:induction false} NodesAppend(a: seq<Bdd>, b: seq<Bdd>)
    ensures Nodes(a + b) == Nodes(a) + Nodes(b)
  {
    if |a| == 0 {
      assert a + b == b;
    } else {
      assert (a + b)[1..] == a[1..] + b;
      NodesAppend(a[1..], b);
    }
  }

  /** Every handle in `hs` belongs to manager `p`. */
  ghost predicate AllIn(hs: seq<Bdd>, p: Ptr) {
    forall k :: 0 <= k < |hs| ==> hs[k].cudd == p
  }

  /** A handle whose manager is live and holds a reference on its node. */
  ghost predicate Live(w: World, h: Bdd) {
    h.cudd in w.managers && h.node.base in w.managers[h.cudd].refs
  }

  /** The handles `hs` of manager `p` can all be alive at once in `w`: the
      manager holds a reference and a holder for each of them. */
  ghost predicate Held(w: World, p: Ptr, hs: seq<Bdd>) {
    && p in w.managers
    && AllIn(hs, p)
    && Nodes(hs) <= w.managers[p].refs
    && |hs| <= w.managers[p].strong
  }

  /** From `w` to `w2` only manager `p` changed, and only in that handles on
      the nodes `gone` released their reference and holder while handles on
      the nodes `made` took one each. */
  ghost predicate Net(w: World, w2: World, p: Ptr, gone: multiset<nat>, made: multiset<nat>) {
    && p in w.managers
    && Frame(w, w2, p)
    && w2.managers[p].refs + gone == w.managers[p].refs + made
    && w2.managers[p].strong + |gone| == w.managers[p].strong + |made|
  }

  /** Manager `p`'s variable count and transfer counter did not move. */
  ghost predicate SameEngine(w: World, w2: World, p: Ptr)
    requires p in w.managers && p in w2.managers
  {
    w2.managers[p].size == w.managers[p].size && w2.managers[p].numTransfer == w.managers[p].numTransfer
  }

  lemma NetCompose(w: World, w1: World, w2: World, p: Ptr, g1: multiset<nat>, m1: multiset<nat>, g2: multiset<nat>, m2: multiset<nat>)
    requires Net(w, w1, p, g1, m1) && Net(w1, w2, p, g2, m2)
    ensures Net(w, w2, p, g1 + g2, m1 + m2)
  {
    var a, a1, a2 := w.managers[p].refs, w1.managers[p].refs, w2.managers[p].refs;
    calc {
      a2 + (g1 + g2);
      (a2 + g2) + g1;
      (a1 + m2) + g1;
      (a1 + g1) + m2;
      (a + m1) + m2;
    }
  }

  lemma NetCancel(w: World, w2: World, p: Ptr, g: multiset<nat>, m: multiset<nat>, x: multiset<nat>)
    requires Net(w, w2, p, g + x, m + x)
    ensures Net(w, w2, p, g, m)
  {
    var a, a2 := w.managers[p].refs, w2.managers[p].refs;
    assert a2 + (g + x) == a + (m + x);
    assert (a2 + g) + x == a2 + (g + x);
    assert (a + m) + x == a + (m + x);
    MultisetCancel(a2 + g, a + m, x);
  }

  /** A net change of nothing, with the variable count and transfer counter
      unmoved, is no change at all. */
  lemma NetNothing(w: World, w2: World, p: Ptr)
    requires Net(w, w2, p, multiset{}, multiset{}) && SameEngine(w, w2, p)
    ensures w2 == w
  {
    var s, s2 := w.managers[p], w2.managers[p];
    assert s2.refs == s2.refs + multiset{} == s.refs + multiset{} == s.refs;
    assert s2 == s;
    assert w2.managers == w.managers;
  }

  /** A live handle of a well-formed world can be held on its own. */
  lemma LiveHeld(w: World, h: Bdd)
    requires Wf(w) && Live(w, h)
    ensures Held(w, h.cudd, [h])
  {
    assert Nodes([h]) == multiset{h.node.base} + Nodes([]);
  }

  lemma AddNothing<T>(m: multiset<T>)
    ensures m + multiset{} == m && multiset{} + m == m
  {
  }

  lemma NodesPair(a: Bdd, b: Bdd)
    ensures Nodes([a]) == multiset{a.node.base}
    ensures Nodes([a, b]) == multiset{a.node.base} + multiset{b.node.base}
  {
    assert [a][1..] == [];
    assert [a, b][1..] == [b];
    assert [b][1..] == [];
  }

  lemma MultisetCancel<T>(a: multiset<T>, b: multiset<T>, c: multiset<T>)
    requires a + c == b + c
    ensures a == b
  {
    forall e ensures a[e] == b[e] {
      assert (a + c)[e] == (b + c)[e];
    }
  }

  /** `CuddInner::eq` and `Cudd::eq`: identity of the engine address. */
  predicate SameManager(a: Ptr, b: Ptr) {
    a == b
  }

  /** Two `Cudd` values are equal exactly when they share one engine: a
      holder added through `a` is seen through `b` iff `a == b`. */
  lemma SameManagerIsSharing(w: World, a: Ptr, b: Ptr)
    requires Wf(w) && a in w.managers && b in w.managers
    ensures SameManager(a, b) <==> CuddClone(w, a).managers[b] != w.managers[b]
    ensures SameManager(a, b) <==> SameManager(b, a)
  {
  }

  /** `Cudd::clone` (derived): both `Arc`s gain a holder. */
  function CuddClone(w: World, p: Ptr): (w2: World)
    requires p in w.managers
    ensures Frame(w, w2, p)
    ensures w2.managers[p] == w.managers[p].(strong := w.managers[p].strong + 1)
    ensures Wf(w) ==> Wf(w2)
  {
    Update(w, p, w.managers[p].(strong := w.managers[p].strong + 1))
  }

  /** Dropping a `Cudd`: the last holder's drop runs `CuddInner::drop`, which
      quits the engine; every other drop only loses a holder. */
  function CuddDrop(w: World, p: Ptr): (w2: World)
    requires Wf(w) && p in w.managers
    ensures Wf(w2) && w2.nextPtr == w.nextPtr
    ensures w.managers[p].strong == 1 ==>
              w2.managers == w.managers - {p} && w2.quitLog == w.quitLog + [p]
    ensures w.managers[p].strong > 1 ==>
              Frame(w, w2, p) && w2.managers[p] == w.managers[p].(strong := w.managers[p].strong - 1)
  {
    var s := w.managers[p];
    if s.strong == 1 then
      w.(managers := w.managers - {p}, quitLog := w.quitLog + [p])
    else
      Update(w, p, s.(strong := s.strong - 1))
  }

  /** A `Cudd` cloned and dropped again leaves the world as it was. */
  lemma CuddCloneThenDrop(w: World, p: Ptr)
    requires Wf(w) && p in w.managers
    ensures CuddDrop(CuddClone(w, p), p) == w
  {
  }

  /** `Bdd::new(cudd, node)`: the caller has already cloned `cudd` for the
      handle. A null node trips the assertion; any other node gains exactly one
      reference and nothing else changes. */
  function BddNew(w: World, p: Ptr, n: Node): (r: Outcome<Bdd>)
    requires p in w.managers
    ensures r.Panic? <==> n.Null?
    ensures r.Panic? ==> r.fault == NullNode
    ensures r.Ok? ==>
              && r.value == Bdd(p, n)
              && Frame(w, r.w, p)
              && r.w.managers[p] == w.managers[p].(refs := w.managers[p].refs + multiset{n.base})
  {
    if n.Null? then Panic(NullNode)
    else Ok(Update(w, p, w.managers[p].(refs := w.managers[p].refs + multiset{n.base})), Bdd(p, n))
  }

  /** The pattern `Bdd::new(self.cudd.clone(), node)` every operation ends
      with: a net gain of exactly one handle, the result. */
  function Wrap(w: World, p: Ptr, n: Node): (r: Outcome<Bdd>)
    requires Wf(w) && p in w.managers
    ensures r.Panic? <==> n.Null?
    ensures r.Panic? ==> r.fault == NullNode
    ensures r.Ok? ==>
              && r.value == Bdd(p, n)
              && Wf(r.w)
              && Net(w, r.w, p, multiset{}, multiset{n.base})
              && SameEngine(w, r.w, p)
              && Live(r.w, r.value)
  {
    BddNew(CuddClone(w, p), p, n)
  }

  /** `Bdd::clone`: the same node on an equal manager, one more reference and
      one more holder; it cannot fail. */
  function BddClone(w: World, h: Bdd): (r: Outcome<Bdd>)
    requires Wf(w) && Live(w, h)
    ensures r.Ok? && r.value == h && SameManager(r.value.cudd, h.cudd)
    ensures Wf(r.w) && Net(w, r.w, h.cudd, multiset{}, multiset{h.node.base}) && SameEngine(w, r.w, h.cudd)
  {
    var s := w.managers[h.cudd];
    Ok(Update(w, h.cudd, s.(refs := s.refs + multiset{h.node.base}, strong := s.strong + 1)), Bdd(h.cudd, h.node))
  }

  /** `Drop for Bdd`: one `Cudd_RecursiveDeref` on the handle's own manager,
      then the handle's `Cudd` holder goes, quitting the engine if it was the
      last one. */
  function BddDrop(w: World, h: Bdd): (w2: World)
    requires Wf(w) && Live(w, h)
    ensures Wf(w2) && w2.nextPtr == w.nextPtr
    ensures w.managers[h.cudd].strong == 1 ==>
              w2.managers == w.managers - {h.cudd} && w2.quitLog == w.quitLog + [h.cudd]
    ensures w.managers[h.cudd].strong > 1 ==>
              Net(w, w2, h.cudd, multiset{h.node.base}, multiset{}) && SameEngine(w, w2, h.cudd)
  {
    var s := w.managers[h.cudd];
    var w1 := Update(w, h.cudd, s.(refs := s.refs - multiset{h.node.base}));
    assert (s.refs - multiset{h.node.base}) + multiset{h.node.base} == s.refs;
    CuddDrop(w1, h.cudd)
  }

  /** Drops the handles `hs` in order (a `Vec` going out of scope, or several
      locals at the end of a function) while `keep`, of the same manager,
      stays alive. */
  function DropAll(w: World, hs: seq<Bdd>, keep: Bdd): (w2: World)
    requires Wf(w) && Held(w, keep.cudd, hs + [keep])
    ensures Wf(w2) && Net(w, w2, keep.cudd, Nodes(hs), multiset{}) && SameEngine(w, w2, keep.cudd)
    ensures Live(w2, keep)
    decreases |hs|
  {
    if |hs| == 0 then
      HeldLast(w, hs, keep);
      w
    else
      DropFirst(w, hs, keep);
      var w1 := BddDrop(w, hs[0]);
      var w2 := DropAll(w1, hs[1..], keep);
      NetCompose(w, w1, w2, keep.cudd, multiset{hs[0].node.base}, multiset{}, Nodes(hs[1..]), multiset{});
      w2
  }

  lemma HeldLast(w: World, hs: seq<Bdd>, keep: Bdd)
    requires Held(w, keep.cudd, hs + [keep]) && |hs| == 0
    ensures Live(w, keep)
  {
    assert hs + [keep] == [keep];
    assert Nodes([keep]) == multiset{keep.node.base} + Nodes([]);
  }

  lemma DropFirst(w: World, hs: seq<Bdd>, keep: Bdd)
    requires Wf(w) && Held(w, keep.cudd, hs + [keep]) && |hs| > 0
    ensures Live(w, hs[0]) && w.managers[hs[0].cudd].strong > 1
    ensures Held(BddDrop(w, hs[0]), keep.cudd, hs[1..] + [keep])
  {
    var p := keep.cudd;
    assert (hs + [keep])[0] == hs[0] && (hs + [keep])[1..] == hs[1..] + [keep];
    var rest := Nodes(hs[1..] + [keep]);
    assert Nodes(hs + [keep]) == multiset{hs[0].node.base} + rest;
    var w1 := BddDrop(w, hs[0]);
    var s, s1 := w.managers[p], w1.managers[p];
    assert s1.refs + multiset{hs[0].node.base} == s.refs;
    forall e ensures rest[e] <= s1.refs[e] {
      assert (multiset{hs[0].node.base} + rest)[e] <= s.refs[e];
      assert (s1.refs + multiset{hs[0].node.base})[e] == s.refs[e];
    }
    forall k | 0 <= k < |hs[1..] + [keep]| ensures (hs[1..] + [keep])[k].cudd == p {
      assert (hs[1..] + [keep])[k] == (hs + [keep])[k + 1];
    }
  }

  /** `PartialEq for Bdd`: asserts the managers are the same, then compares
      node pointers (complement bit included). */
  function BddEq(w: World, a: Bdd, b: Bdd): (r: Outcome<bool>)
    ensures r.Panic? <==> !SameManager(a.cudd, b.cudd)
    ensures r.Panic? ==> r.fault == ManagerMismatch
    ensures r.Ok? ==> r.w == w && (r.value <==> a == b)
  {
    if !SameManager(a.cudd, b.cudd) then Panic(ManagerMismatch)
    else Ok(w, a.node == b.node)
  }
}
