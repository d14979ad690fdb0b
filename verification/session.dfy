/** A client program of the handle layer: a fixed set of variable slots, each
    empty or holding one `Cudd` or one `Bdd` value, and a list of commands
    that call the layer and move values between slots the way Rust ownership
    does. The invariant proved here is the layer's central promise: at every
    point, each engine holds exactly one reference per live handle on a node
    and one holder per live `Cudd` or `Bdd` value, every live value's engine
    is running, and every engine ever created is quit exactly once, when its
    last holder goes. */
module Session {
  import opened Engine
  import opened Lifetime
  import Cudd
  import Operations

  /** A local variable of the client program. */
  datatype Slot = Vacant | HoldsCudd(p: Ptr) | HoldsBdd(h: Bdd)

  type Env = seq<Slot>

  /** The reference slot `s` holds on manager `p`'s nodes. */
  function SlotNodes(s: Slot, p: Ptr): (m: multiset<nat>)
    ensures |m| <= 1 && (|m| == 1 <==> s.HoldsBdd? && s.h.cudd == p)
    ensures s.HoldsBdd? && s.h.cudd == p ==> m == multiset{s.h.node.base}
  {
    if s.HoldsBdd? && s.h.cudd == p then multiset{s.h.node.base} else multiset{}
  }

  /** Whether slot `s` is one of the holders of manager `p`. */
  function SlotHolders(s: Slot, p: Ptr): (n: nat)
    ensures n <= 1 && (n == 1 <==> (s.HoldsCudd? && s.p == p) || (s.HoldsBdd? && s.h.cudd == p))
  {
    if (s.HoldsCudd? && s.p == p) || (s.HoldsBdd? && s.h.cudd == p) then 1 else 0
  }

  /** The references the handles in `env` hold on manager `p`'s nodes. */
  function NodesIn(env: Env, p: Ptr): (m: multiset<nat>)
    ensures |m| <= |env|
  {
    if |env| == 0 then multiset{} else SlotNodes(env[0], p) + NodesIn(env[1..], p)
  }

  /** How many values in `env` hold manager `p`. */
  function HoldersIn(env: Env, p: Ptr): (n: nat)
    ensures n <= |env|
  {
    if |env| == 0 then 0 else SlotHolders(env[0], p) + HoldersIn(env[1..], p)
  }

  /** The bookkeeping agrees with the program: every engine counts exactly
      the references and holders of the values that hold it, no value holds
      a stopped engine, and each engine ever created is either running or
      has been quit, never both and never twice. */
  ghost predicate Balanced(w: World, env: Env) {
    Wf(w) && QuitOnce(w) && forall q :: Agree(w, env, q)
  }

  /** No engine was quit twice, and each one created so far is either running
      or quit. */
  ghost predicate QuitOnce(w: World) {
    && (forall i, j :: 0 <= i < j < |w.quitLog| ==> w.quitLog[i] != w.quitLog[j])
    && (forall q :: 0 < q < w.nextPtr ==> (q in w.managers <==> q !in w.quitLog))
  }

  /** Manager `q` runs if any value holds it, and then its counts are those
      of the values in `env`. */
  ghost predicate Agree(w: World, env: Env, q: Ptr) {
    && (HoldersIn(env, q) > 0 ==> q in w.managers)
    && (q in w.managers ==>
          w.managers[q].refs == NodesIn(env, q) && w.managers[q].strong == HoldersIn(env, q))
  }

  /** Overwriting slot `i` with `s` trades the old slot's contribution for
      the new one's. */
  lemma {:induction false} Replace(env: Env, i: nat, s: Slot, p: Ptr)
    requires i < |env|
    ensures NodesIn(env[i := s], p) + SlotNodes(env[i], p) == NodesIn(env, p) + SlotNodes(s, p)
    ensures HoldersIn(env[i := s], p) + SlotHolders(env[i], p) == HoldersIn(env, p) + SlotHolders(s, p)
    decreases |env|
  {
    var env2 := env[i := s];
    if i == 0 {
      assert env2[1..] == env[1..];
    } else {
      assert env2[1..] == env[1..][i - 1 := s];
      Replace(env[1..], i - 1, s, p);
      var a, b := SlotNodes(env[0], p), NodesIn(env[1..][i - 1 := s], p);
      assert NodesIn(env2, p) == a + b;
      assert a + b + SlotNodes(env[i], p) == a + (b + SlotNodes(env[i], p));
      assert NodesIn(env, p) + SlotNodes(s, p) == a + (NodesIn(env[1..], p) + SlotNodes(s, p));
    }
  }

  /** Overwriting a slot with one that contributes the same to manager `q`
      leaves `q`'s counts alone. */
  lemma ReplaceAlike(env: Env, i: nat, s: Slot, q: Ptr)
    requires i < |env| && SlotNodes(env[i], q) == SlotNodes(s, q) && SlotHolders(env[i], q) == SlotHolders(s, q)
    ensures NodesIn(env[i := s], q) == NodesIn(env, q) && HoldersIn(env[i := s], q) == HoldersIn(env, q)
  {
    Replace(env, i, s, q);
    MultisetCancel(NodesIn(env[i := s], q), NodesIn(env, q), SlotNodes(s, q));
  }

  /** A value nobody holds has no references either. */
  lemma {:induction false} NoHoldersNoNodes(env: Env, p: Ptr)
    requires HoldersIn(env, p) == 0
    ensures NodesIn(env, p) == multiset{}
    decreases |env|
  {
    if |env| > 0 {
      NoHoldersNoNodes(env[1..], p);
    }
  }

  /** Slot `s` holds nothing of any manager other than `p`. */
  predicate Bound(s: Slot, p: Ptr) {
    s.Vacant? || (s.HoldsBdd? && s.h.cudd == p)
  }

  /** From `env` to `env2` only manager `p`'s handles changed: those on the
      nodes `gone` went away and those on the nodes `made` appeared. */
  ghost predicate EnvNet(env: Env, env2: Env, p: Ptr, gone: multiset<nat>, made: multiset<nat>) {
    && NodesIn(env2, p) + gone == NodesIn(env, p) + made
    && HoldersIn(env2, p) + |gone| == HoldersIn(env, p) + |made|
    && forall q :: q != p ==> NodesIn(env2, q) == NodesIn(env, q) && HoldersIn(env2, q) == HoldersIn(env, q)
  }

  lemma SwapSlot(env: Env, i: nat, s: Slot, p: Ptr)
    requires i < |env| && Bound(env[i], p) && Bound(s, p)
    ensures EnvNet(env, env[i := s], p, SlotNodes(env[i], p), SlotNodes(s, p))
  {
    Replace(env, i, s, p);
    BoundCounts(env[i], p);
    BoundCounts(s, p);
    SwapSlotElsewhere(env, i, s, p);
  }

  lemma SwapSlotElsewhere(env: Env, i: nat, s: Slot, p: Ptr)
    requires i < |env| && Bound(env[i], p) && Bound(s, p)
    ensures forall q :: q != p ==> NodesIn(env[i := s], q) == NodesIn(env, q) && HoldersIn(env[i := s], q) == HoldersIn(env, q)
  {
    forall q | q != p
      ensures NodesIn(env[i := s], q) == NodesIn(env, q) && HoldersIn(env[i := s], q) == HoldersIn(env, q)
    {
      BoundElsewhere(env[i], p, q);
      BoundElsewhere(s, p, q);
      ReplaceAlike(env, i, s, q);
    }
  }

  lemma BoundCounts(s: Slot, p: Ptr)
    requires Bound(s, p)
    ensures |SlotNodes(s, p)| == SlotHolders(s, p)
  {
  }

  lemma BoundElsewhere(s: Slot, p: Ptr, q: Ptr)
    requires Bound(s, p) && q != p
    ensures SlotNodes(s, q) == multiset{} && SlotHolders(s, q) == 0
  {
  }

  /** Moving the handle out of slot `i`. */
  lemma Take(env: Env, i: nat)
    requires i < |env| && env[i].HoldsBdd?
    ensures var p := env[i].h.cudd;
            && NodesIn(env[i := Vacant], p) + multiset{env[i].h.node.base} == NodesIn(env, p)
            && HoldersIn(env[i := Vacant], p) + 1 == HoldersIn(env, p)
            && EnvNet(env, env[i := Vacant], p, multiset{env[i].h.node.base}, multiset{})
  {
    var p := env[i].h.cudd;
    SwapSlot(env, i, Vacant, p);
    AddNothing(NodesIn(env, p));
  }

  /** Storing the new handle `v` in the empty slot `d`. */
  lemma Put(env: Env, d: nat, v: Bdd)
    requires d < |env| && env[d].Vacant?
    ensures EnvNet(env, env[d := HoldsBdd(v)], v.cudd, multiset{}, multiset{v.node.base})
  {
    SwapSlot(env, d, HoldsBdd(v), v.cudd);
  }

  /** Storing a new `Cudd` holder of `p` in the empty slot `d`. */
  lemma AddHolder(env: Env, d: nat, p: Ptr)
    requires d < |env| && env[d].Vacant?
    ensures forall q :: NodesIn(env[d := HoldsCudd(p)], q) == NodesIn(env, q)
    ensures HoldersIn(env[d := HoldsCudd(p)], p) == HoldersIn(env, p) + 1
    ensures forall q :: q != p ==> HoldersIn(env[d := HoldsCudd(p)], q) == HoldersIn(env, q)
  {
    forall q ensures NodesIn(env[d := HoldsCudd(p)], q) == NodesIn(env, q)
      && HoldersIn(env[d := HoldsCudd(p)], q) == HoldersIn(env, q) + (if q == p then 1 else 0)
    {
      Replace(env, d, HoldsCudd(p), q);
      AddNothing(NodesIn(env, q));
      AddNothing(NodesIn(env[d := HoldsCudd(p)], q));
    }
  }

  /** A `Cudd` holder of `p` leaves slot `i`. */
  lemma RemoveHolder(env: Env, i: nat)
    requires i < |env| && env[i].HoldsCudd?
    ensures var p := env[i].p;
            && (forall q :: NodesIn(env[i := Vacant], q) == NodesIn(env, q))
            && HoldersIn(env[i := Vacant], p) + 1 == HoldersIn(env, p)
            && (forall q :: q != p ==> HoldersIn(env[i := Vacant], q) == HoldersIn(env, q))
  {
    var p := env[i].p;
    forall q ensures NodesIn(env[i := Vacant], q) == NodesIn(env, q)
      && HoldersIn(env[i := Vacant], q) + (if q == p then 1 else 0) == HoldersIn(env, q)
    {
      Replace(env, i, Vacant, q);
      AddNothing(NodesIn(env, q));
      AddNothing(NodesIn(env[i := Vacant], q));
    }
  }

  lemma EnvNetCompose(env: Env, env1: Env, env2: Env, p: Ptr,
                      g1: multiset<nat>, m1: multiset<nat>, g2: multiset<nat>, m2: multiset<nat>)
    requires EnvNet(env, env1, p, g1, m1) && EnvNet(env1, env2, p, g2, m2)
    ensures EnvNet(env, env2, p, g1 + g2, m1 + m2)
  {
    var a, a1, a2 := NodesIn(env, p), NodesIn(env1, p), NodesIn(env2, p);
    calc {
      a2 + (g1 + g2);
      (a2 + g2) + g1;
      (a1 + m2) + g1;
      (a1 + g1) + m2;
      (a + m1) + m2;
    }
  }

  /** The program's changes to manager `p`'s handles match the engine's:
      balance is kept. */
  lemma Preserve(w: World, w2: World, env: Env, env2: Env, p: Ptr, g: multiset<nat>, m: multiset<nat>)
    requires Balanced(w, env) && Wf(w2)
    requires Net(w, w2, p, g, m) && EnvNet(env, env2, p, g, m)
    ensures Balanced(w2, env2)
  {
    var s, s2 := w.managers[p], w2.managers[p];
    assert Agree(w, env, p);
    assert s2.refs + g == NodesIn(env2, p) + g;
    MultisetCancel(s2.refs, NodesIn(env2, p), g);
    forall q ensures Agree(w2, env2, q) {
      assert Agree(w, env, q);
    }
  }

  /** The last holder of manager `p` went away and the engine was quit. */
  lemma QuitPreserve(w: World, w2: World, env: Env, env2: Env, p: Ptr)
    requires Balanced(w, env) && Wf(w2) && p in w.managers
    requires w2.managers == w.managers - {p} && w2.quitLog == w.quitLog + [p] && w2.nextPtr == w.nextPtr
    requires HoldersIn(env2, p) == 0
    requires forall q :: q != p ==> NodesIn(env2, q) == NodesIn(env, q) && HoldersIn(env2, q) == HoldersIn(env, q)
    ensures Balanced(w2, env2)
  {
    QuitOnceAfterQuit(w, w2, p);
    forall q ensures Agree(w2, env2, q) {
      assert Agree(w, env, q);
    }
  }

  lemma QuitOnceAfterQuit(w: World, w2: World, p: Ptr)
    requires Wf(w) && QuitOnce(w) && p in w.managers
    requires w2.managers == w.managers - {p} && w2.quitLog == w.quitLog + [p] && w2.nextPtr == w.nextPtr
    ensures QuitOnce(w2)
  {
    assert p !in w.quitLog;
    forall i, j | 0 <= i < j < |w2.quitLog| ensures w2.quitLog[i] != w2.quitLog[j] {
      if j == |w.quitLog| {
        assert w2.quitLog[i] == w.quitLog[i];
      }
    }
    forall q | 0 < q < w2.nextPtr ensures q in w2.managers <==> q !in w2.quitLog {
      assert q in w2.quitLog <==> q in w.quitLog || q == p;
    }
  }

  /** Manager `p` gained or lost a `Cudd` holder and nothing else changed. */
  lemma HolderPreserve(w: World, w2: World, env: Env, env2: Env, p: Ptr)
    requires Balanced(w, env) && p in w.managers && Frame(w, w2, p)
    requires w2.managers[p] == w.managers[p].(strong := HoldersIn(env2, p)) && HoldersIn(env2, p) >= 1
    requires forall q :: NodesIn(env2, q) == NodesIn(env, q)
    requires forall q :: q != p ==> HoldersIn(env2, q) == HoldersIn(env, q)
    ensures Balanced(w2, env2)
  {
    forall q ensures Agree(w2, env2, q) {
      assert Agree(w, env, q);
    }
  }

  /** A handle in the program is live: its engine runs and holds its
      reference. */
  lemma SlotLive(w: World, env: Env, i: nat)
    requires Balanced(w, env) && i < |env| && env[i].HoldsBdd?
    ensures Live(w, env[i].h)
  {
    Take(env, i);
    assert Agree(w, env, env[i].h.cudd);
  }

  /** A manager value in the program refers to a running engine. */
  lemma SlotManager(w: World, env: Env, i: nat)
    requires Balanced(w, env) && i < |env| && env[i].HoldsCudd?
    ensures env[i].p in w.managers
  {
    RemoveHolder(env, i);
    assert Agree(w, env, env[i].p);
  }

  /** Two different handle slots on one manager can be consumed together. */
  lemma TwoHeld(w: World, env: Env, i: nat, j: nat)
    requires Balanced(w, env) && i < |env| && j < |env| && i != j
    requires env[i].HoldsBdd? && env[j].HoldsBdd? && env[i].h.cudd == env[j].h.cudd
    ensures Held(w, env[i].h.cudd, [env[j].h, env[i].h])
    ensures Held(w, env[i].h.cudd, [env[i].h, env[j].h])
  {
    var p, a, b := env[i].h.cudd, env[i].h, env[j].h;
    TwoIn(env, i, j);
    NodesPair(a, b);
    NodesPair(b, a);
    assert multiset{b.node.base} + multiset{a.node.base} == multiset{a.node.base} + multiset{b.node.base};
    assert Agree(w, env, p);
  }

  lemma TwoIn(env: Env, i: nat, j: nat)
    requires i < |env| && j < |env| && i != j
    requires env[i].HoldsBdd? && env[j].HoldsBdd? && env[i].h.cudd == env[j].h.cudd
    ensures multiset{env[i].h.node.base} + multiset{env[j].h.node.base} <= NodesIn(env, env[i].h.cudd)
    ensures HoldersIn(env, env[i].h.cudd) >= 2
  {
    var env1 := env[i := Vacant];
    Take(env, i);
    assert env1[j] == env[j];
    Take(env1, j);
  }

  /** Moving a handle out of slot `i` (when it is passed by value). */
  function Consume(env: Env, i: nat, byValue: bool): (env2: Env)
    requires i < |env|
    ensures |env2| == |env| && env2[i] == (if byValue then Vacant else env[i])
    ensures forall k :: 0 <= k < |env| && k != i ==> env2[k] == env[k]
  {
    if byValue then env[i := Vacant] else env
  }

  lemma ConsumeNet(env: Env, i: nat, byValue: bool, p: Ptr)
    requires i < |env| && env[i].HoldsBdd? && env[i].h.cudd == p
    ensures EnvNet(env, Consume(env, i, byValue), p, Nodes(Operations.Owned(env[i].h, byValue)), multiset{})
  {
    var h := env[i].h;
    assert Nodes([h]) == multiset{h.node.base} + Nodes([]);
    if byValue {
      SwapSlot(env, i, Vacant, p);
    }
  }

  /** A call that returns a new handle on manager `p` into the empty slot
      `d`, having consumed the by-value operands in slots `a` and `b`. */
  function Deliver(w: World, env: Env, a: nat, ownA: bool, b: nat, ownB: bool, d: nat, r: Outcome<Bdd>)
    : (r2: Outcome<Env>)
    requires Balanced(w, env) && a < |env| && b < |env| && d < |env|
    requires env[a].HoldsBdd? && env[b].HoldsBdd? && env[d].Vacant?
    requires env[b].h.cudd == env[a].h.cudd && (ownB ==> a != b)
    requires r.Ok? ==>
               && Wf(r.w) && r.value.cudd == env[a].h.cudd
               && Net(w, r.w, env[a].h.cudd,
                      Nodes(Operations.Owned(env[b].h, ownB) + Operations.Owned(env[a].h, ownA)),
                      multiset{r.value.node.base})
    ensures r2.Panic? <==> r.Panic?
    ensures r2.Ok? ==>
              && r2.w == r.w
              && r2.value == Consume(Consume(env, a, ownA), b, ownB)[d := HoldsBdd(r.value)]
              && Balanced(r2.w, r2.value)
  {
    if r.Panic? then Panic(r.fault)
    else
      var env2 := Consume(Consume(env, a, ownA), b, ownB)[d := HoldsBdd(r.value)];
      DeliverFacts(w, r.w, env, a, ownA, b, ownB, d, r.value);
      Ok(r.w, env2)
  }

  lemma DeliverFacts(w: World, w2: World, env: Env, a: nat, ownA: bool, b: nat, ownB: bool, d: nat, v: Bdd)
    requires Balanced(w, env) && a < |env| && b < |env| && d < |env|
    requires env[a].HoldsBdd? && env[b].HoldsBdd? && env[d].Vacant?
    requires env[b].h.cudd == env[a].h.cudd && (ownB ==> a != b)
    requires Wf(w2) && v.cudd == env[a].h.cudd
    requires Net(w, w2, v.cudd, Nodes(Operations.Owned(env[b].h, ownB) + Operations.Owned(env[a].h, ownA)),
                 multiset{v.node.base})
    ensures Balanced(w2, Consume(Consume(env, a, ownA), b, ownB)[d := HoldsBdd(v)])
  {
    var env2 := Consume(Consume(env, a, ownA), b, ownB);
    var g := Nodes(Operations.Owned(env[b].h, ownB) + Operations.Owned(env[a].h, ownA));
    ConsumeBoth(env, a, ownA, b, ownB);
    Put(env2, d, v);
    ThenPut(env, env2, env2[d := HoldsBdd(v)], v.cudd, g, v.node.base);
    Preserve(w, w2, env, env2[d := HoldsBdd(v)], v.cudd, g, multiset{v.node.base});
  }

  /** Consuming the by-value operands of a binary operator. */
  lemma ConsumeBoth(env: Env, a: nat, ownA: bool, b: nat, ownB: bool)
    requires a < |env| && b < |env| && env[a].HoldsBdd? && env[b].HoldsBdd?
    requires env[b].h.cudd == env[a].h.cudd && (ownB ==> a != b)
    ensures EnvNet(env, Consume(Consume(env, a, ownA), b, ownB), env[a].h.cudd,
                   Nodes(Operations.Owned(env[b].h, ownB) + Operations.Owned(env[a].h, ownA)), multiset{})
  {
    var p := env[a].h.cudd;
    var env1 := Consume(env, a, ownA);
    var ga, gb := Nodes(Operations.Owned(env[a].h, ownA)), Nodes(Operations.Owned(env[b].h, ownB));
    ConsumeNet(env, a, ownA, p);
    if ownB {
      assert env1[b] == env[b];
      ConsumeNet(env1, b, ownB, p);
      EnvNetCompose(env, env1, Consume(env1, b, ownB), p, ga, multiset{}, gb, multiset{});
      NodesAppend(Operations.Owned(env[b].h, ownB), Operations.Owned(env[a].h, ownA));
      var none: multiset<nat> := multiset{};
      AddNothing(none);
      assert ga + gb == gb + ga;
    } else {
      assert Operations.Owned(env[b].h, ownB) + Operations.Owned(env[a].h, ownA) == Operations.Owned(env[a].h, ownA);
    }
  }

  lemma ThenPut(env: Env, env1: Env, env2: Env, p: Ptr, g: multiset<nat>, b: nat)
    requires EnvNet(env, env1, p, g, multiset{}) && EnvNet(env1, env2, p, multiset{}, multiset{b})
    ensures EnvNet(env, env2, p, g, multiset{b})
  {
    EnvNetCompose(env, env1, env2, p, g, multiset{}, multiset{}, multiset{b});
    AddNothing(g);
    AddNothing(multiset{b});
  }

  /** A call that returns a new handle on manager `p` into the empty slot `d`
      and consumes nothing. */
  function Mint(w: World, env: Env, p: Ptr, d: nat, r: Outcome<Bdd>): (r2: Outcome<Env>)
    requires Balanced(w, env) && d < |env| && env[d].Vacant?
    requires r.Ok? ==> Wf(r.w) && r.value.cudd == p && Net(w, r.w, p, multiset{}, multiset{r.value.node.base})
    ensures r2.Panic? <==> r.Panic?
    ensures r2.Ok? ==> r2.w == r.w && r2.value == env[d := HoldsBdd(r.value)] && Balanced(r2.w, r2.value)
  {
    if r.Panic? then Panic(r.fault)
    else
      SwapSlot(env, d, HoldsBdd(r.value), p);
      assert multiset{} + multiset{r.value.node.base} == multiset{r.value.node.base};
      Preserve(w, r.w, env, env[d := HoldsBdd(r.value)], p, multiset{}, multiset{r.value.node.base});
      Ok(r.w, env[d := HoldsBdd(r.value)])
  }

  /** One statement of the client program. Slots are named by index; `dst`
      must be an empty slot. */
  datatype Command =
    | MakeManager(dst: nat)
    | CloneManager(src: nat, dst: nat)
    | DropSlot(src: nat)
    | NewVar(mgr: nat, dst: nat)
    | IthVar(mgr: nat, index: nat, dst: nat)
    | Constant(mgr: nat, value: bool, dst: nat)
    | Cube(mgr: nat, indices: seq<nat>, dst: nat)
    | Translocate(mgr: nat, src: nat, dst: nat)
    | CloneHandle(src: nat, dst: nat)
    | Binary(op: Operations.BinOp, a: nat, ownA: bool, b: nat, ownB: bool, dst: nat)
    | Assign(op: Operations.BinOp, a: nat, b: nat, ownB: bool)
    | Not(src: nat, byValue: bool, dst: nat)
    | Equal(a: nat, b: nat)
    | IsConstant(src: nat, value: bool)
    | Support(src: nat, dst: nat)
    | ExistAbstract(src: nat, vars: seq<nat>, dst: nat)
    | AndAbstract(src: nat, f: nat, vars: seq<nat>, dst: nat)
    | SwapVars(src: nat, from: seq<nat>, to: seq<nat>, dst: nat)
    | IfThenElse(src: nat, t: nat, e: nat, dst: nat)
    | NextState(src: nat, dst: nat)

  predicate IsManager(env: Env, i: nat) {
    i < |env| && env[i].HoldsCudd?
  }

  predicate IsHandle(env: Env, i: nat) {
    i < |env| && env[i].HoldsBdd?
  }

  predicate IsFree(env: Env, i: nat) {
    i < |env| && env[i].Vacant?
  }

  /** Whether Rust's type and borrow checker would accept the command in a
      program whose variables are `env`: the slots hold the right kinds of
      value, the destination is a fresh variable, and no value is used after
      it was moved or moved while it is borrowed. */
  predicate Compiles(env: Env, c: Command) {
    match c
    case MakeManager(dst) => IsFree(env, dst)
    case CloneManager(src, dst) => IsManager(env, src) && IsFree(env, dst)
    case DropSlot(src) => src < |env| && !env[src].Vacant?
    case NewVar(mgr, dst) => IsManager(env, mgr) && IsFree(env, dst)
    case IthVar(mgr, _, dst) => IsManager(env, mgr) && IsFree(env, dst)
    case Constant(mgr, _, dst) => IsManager(env, mgr) && IsFree(env, dst)
    case Cube(mgr, _, dst) => IsManager(env, mgr) && IsFree(env, dst)
    case Translocate(mgr, src, dst) => IsManager(env, mgr) && IsHandle(env, src) && IsFree(env, dst)
    case CloneHandle(src, dst) => IsHandle(env, src) && IsFree(env, dst)
    case Binary(_, a, ownA, b, ownB, dst) =>
      IsHandle(env, a) && IsHandle(env, b) && IsFree(env, dst) && (ownA || ownB ==> a != b)
    case Assign(_, a, b, _) => IsHandle(env, a) && IsHandle(env, b) && a != b
    case Not(src, _, dst) => IsHandle(env, src) && IsFree(env, dst)
    case Equal(a, b) => IsHandle(env, a) && IsHandle(env, b)
    case IsConstant(src, _) => IsHandle(env, src)
    case Support(src, dst) => IsHandle(env, src) && IsFree(env, dst)
    case ExistAbstract(src, _, dst) => IsHandle(env, src) && IsFree(env, dst)
    case AndAbstract(src, f, _, dst) => IsHandle(env, src) && IsHandle(env, f) && IsFree(env, dst)
    case SwapVars(src, _, _, dst) => IsHandle(env, src) && IsFree(env, dst)
    case IfThenElse(src, t, e, dst) => IsHandle(env, src) && IsHandle(env, t) && IsHandle(env, e) && IsFree(env, dst)
    case NextState(src, dst) => IsHandle(env, src) && IsFree(env, dst)
  }

  /** Runs one command. A command the compiler would reject changes nothing
      (such a program never runs); a panic ends the program. Balance is kept
      by every command that completes. */
  function Step(o: Oracle, w: World, env: Env, c: Command): (r: Outcome<Env>)
    requires Balanced(w, env)
    ensures !Compiles(env, c) ==> r == Ok(w, env)
    ensures r.Ok? ==> Balanced(r.w, r.value) && |r.value| == |env|
  {
    if !Compiles(env, c) then Ok(w, env)
    else if c.MakeManager? || c.CloneManager? || c.DropSlot? then ManagerStep(o, w, env, c)
    else if c.NewVar? || c.IthVar? || c.Constant? || c.Cube? || c.Translocate? then CreateStep(o, w, env, c)
    else if c.Binary? || c.Assign? || c.Not? || c.CloneHandle? then ConnectiveStep(o, w, env, c)
    else if c.Equal? || c.IsConstant? then QueryStep(o, w, env, c)
    else HandleStep(o, w, env, c)
  }

  /** `Cudd::new()`, `cudd.clone()` and the end of a variable's scope. */
  function ManagerStep(o: Oracle, w: World, env: Env, c: Command): (r: Outcome<Env>)
    requires Balanced(w, env) && Compiles(env, c) && (c.MakeManager? || c.CloneManager? || c.DropSlot?)
    ensures r.Ok? ==> Balanced(r.w, r.value) && |r.value| == |env|
  {
    match c
    case MakeManager(dst) =>
      var m := Cudd.New(o, w);
      if m.Panic? then Panic(m.fault)
      else
        NewPreserve(w, m.w, env, dst, m.value);
        Ok(m.w, env[dst := HoldsCudd(m.value)])
    case CloneManager(src, dst) =>
      var p := env[src].p;
      SlotManager(w, env, src);
      ClonePreserve(w, env, src, dst);
      Ok(CuddClone(w, p), env[dst := HoldsCudd(p)])
    case DropSlot(src) =>
      if env[src].HoldsCudd? then DropManager(w, env, src) else DropHandle(w, env, src)
  }

  lemma NewPreserve(w: World, w2: World, env: Env, dst: nat, p: Ptr)
    requires Balanced(w, env) && IsFree(env, dst) && Wf(w2)
    requires p == w.nextPtr && w2.nextPtr == w.nextPtr + 1 && w2.quitLog == w.quitLog
    requires w2.managers.Keys == w.managers.Keys + {p} && w2.managers[p] == Shared(multiset{}, 0, 0, 1)
    requires forall q :: q in w.managers ==> w2.managers[q] == w.managers[q]
    ensures Balanced(w2, env[dst := HoldsCudd(p)])
  {
    var env2 := env[dst := HoldsCudd(p)];
    assert p !in w.managers;
    assert Agree(w, env, p);
    NoHoldersNoNodes(env, p);
    AddHolder(env, dst, p);
    forall q ensures Agree(w2, env2, q) {
      assert Agree(w, env, q);
    }
    QuitOnceAfterNew(w, w2, p);
  }

  lemma QuitOnceAfterNew(w: World, w2: World, p: Ptr)
    requires Wf(w) && QuitOnce(w)
    requires p == w.nextPtr && w2.nextPtr == w.nextPtr + 1 && w2.quitLog == w.quitLog
    requires w2.managers.Keys == w.managers.Keys + {p}
    ensures QuitOnce(w2)
  {
    assert p !in w.quitLog;
  }

  lemma ClonePreserve(w: World, env: Env, src: nat, dst: nat)
    requires Balanced(w, env) && IsManager(env, src) && IsFree(env, dst)
    requires env[src].p in w.managers
    ensures Balanced(CuddClone(w, env[src].p), env[dst := HoldsCudd(env[src].p)])
  {
    var p := env[src].p;
    AddHolder(env, dst, p);
    assert Agree(w, env, p);
    HolderPreserve(w, CuddClone(w, p), env, env[dst := HoldsCudd(p)], p);
  }

  /** A `Cudd` value goes out of scope. */
  function DropManager(w: World, env: Env, src: nat): (r: Outcome<Env>)
    requires Balanced(w, env) && IsManager(env, src)
    ensures r.Ok? && r.value == env[src := Vacant] && Balanced(r.w, r.value)
  {
    SlotManager(w, env, src);
    DropManagerFacts(w, env, src);
    Ok(CuddDrop(w, env[src].p), env[src := Vacant])
  }

  lemma DropManagerFacts(w: World, env: Env, src: nat)
    requires Balanced(w, env) && IsManager(env, src) && env[src].p in w.managers
    ensures Balanced(CuddDrop(w, env[src].p), env[src := Vacant])
  {
    var p := env[src].p;
    RemoveHolder(env, src);
    assert Agree(w, env, p);
    if w.managers[p].strong == 1 {
      QuitPreserve(w, CuddDrop(w, p), env, env[src := Vacant], p);
    } else {
      HolderPreserve(w, CuddDrop(w, p), env, env[src := Vacant], p);
    }
  }

  /** A `Bdd` value goes out of scope. */
  function DropHandle(w: World, env: Env, src: nat): (r: Outcome<Env>)
    requires Balanced(w, env) && IsHandle(env, src)
    ensures r.Ok? && r.value == env[src := Vacant] && Balanced(r.w, r.value)
  {
    var h := env[src].h;
    SlotLive(w, env, src);
    var env2 := env[src := Vacant];
    SwapSlot(env, src, Vacant, h.cudd);
    assert Agree(w, env, h.cudd);
    var w2 := BddDrop(w, h);
    if w.managers[h.cudd].strong == 1 then
      QuitPreserve(w, w2, env, env2, h.cudd);
      Ok(w2, env2)
    else
      Preserve(w, w2, env, env2, h.cudd, multiset{h.node.base}, multiset{});
      Ok(w2, env2)
  }

  /** The `Cudd` methods that return a new handle. */
  function CreateStep(o: Oracle, w: World, env: Env, c: Command): (r: Outcome<Env>)
    requires Balanced(w, env) && Compiles(env, c)
    requires c.NewVar? || c.IthVar? || c.Constant? || c.Cube? || c.Translocate?
    ensures r.Ok? ==> Balanced(r.w, r.value) && |r.value| == |env|
  {
    var p := env[c.mgr].p;
    SlotManager(w, env, c.mgr);
    match c
    case NewVar(_, dst) => Mint(w, env, p, dst, Cudd.NewVar(o, w, p))
    case IthVar(_, i, dst) => Mint(w, env, p, dst, Cudd.IthVar(o, w, p, i))
    case Constant(_, v, dst) => Mint(w, env, p, dst, Cudd.Constant(o, w, p, v))
    case Cube(_, idxs, dst) => Mint(w, env, p, dst, Cudd.Cube(o, w, p, idxs))
    case Translocate(_, src, dst) =>
      SlotLive(w, env, src);
      Mint(w, env, p, dst, Cudd.Translocate(o, w, p, env[src].h))
  }

  /** The connectives, `!` and `Bdd::clone`. */
  function ConnectiveStep(o: Oracle, w: World, env: Env, c: Command): (r: Outcome<Env>)
    requires Balanced(w, env) && Compiles(env, c) && (c.Binary? || c.Assign? || c.Not? || c.CloneHandle?)
    ensures r.Ok? ==> Balanced(r.w, r.value) && |r.value| == |env|
  {
    match c
    case Binary(op, a, ownA, b, ownB, dst) => BinaryStep(o, w, env, op, a, ownA, b, ownB, dst)
    case Assign(op, a, b, ownB) => AssignStep(o, w, env, op, a, b, ownB)
    case Not(_, _, _) => UnaryStep(o, w, env, c)
    case CloneHandle(_, _) => UnaryStep(o, w, env, c)
  }

  function UnaryStep(o: Oracle, w: World, env: Env, c: Command): (r: Outcome<Env>)
    requires Balanced(w, env) && Compiles(env, c) && (c.Not? || c.CloneHandle?)
    ensures r.Ok? ==> Balanced(r.w, r.value) && |r.value| == |env|
  {
    match c
    case Not(src, byValue, dst) =>
      var h := env[src].h;
      SlotLive(w, env, src);
      var r := Operations.Not(w, h, byValue);
      assert Operations.Owned(h, false) + Operations.Owned(h, byValue) == Operations.Owned(h, byValue);
      Deliver(w, env, src, byValue, src, false, dst, r)
    case CloneHandle(src, dst) =>
      SlotLive(w, env, src);
      Mint(w, env, env[src].h.cudd, dst, BddClone(w, env[src].h))
  }

  function BinaryStep(o: Oracle, w: World, env: Env, op: Operations.BinOp, a: nat, ownA: bool, b: nat, ownB: bool, dst: nat)
    : (r: Outcome<Env>)
    requires Balanced(w, env) && Compiles(env, Binary(op, a, ownA, b, ownB, dst))
    ensures r.Ok? ==> Balanced(r.w, r.value) && |r.value| == |env|
  {
    var ha, hb := env[a].h, env[b].h;
    SlotLive(w, env, a);
    SlotLive(w, env, b);
    if ownA && ownB && SameManager(ha.cudd, hb.cudd) then
      TwoHeld(w, env, a, b);
      Deliver(w, env, a, ownA, b, ownB, dst, Operations.Binary(o, w, op, ha, ownA, hb, ownB))
    else
      var r := Operations.Binary(o, w, op, ha, ownA, hb, ownB);
      if r.Panic? then Panic(r.fault)
      else Deliver(w, env, a, ownA, b, ownB, dst, r)
  }

  /** `a op= b`: the result replaces the receiver in its own slot. */
  function AssignStep(o: Oracle, w: World, env: Env, op: Operations.BinOp, a: nat, b: nat, ownB: bool)
    : (r: Outcome<Env>)
    requires Balanced(w, env) && Compiles(env, Assign(op, a, b, ownB))
    ensures r.Ok? ==> Balanced(r.w, r.value) && |r.value| == |env|
  {
    var ha, hb := env[a].h, env[b].h;
    SlotLive(w, env, a);
    SlotLive(w, env, b);
    if ownB && SameManager(ha.cudd, hb.cudd) then
      TwoHeld(w, env, a, b);
      Reassign(w, env, a, b, ownB, Operations.BinaryAssign(o, w, op, ha, hb, ownB))
    else
      var r := Operations.BinaryAssign(o, w, op, ha, hb, ownB);
      if r.Panic? then Panic(r.fault)
      else Reassign(w, env, a, b, ownB, r)
  }

  function Reassign(w: World, env: Env, a: nat, b: nat, ownB: bool, r: Outcome<Bdd>): (r2: Outcome<Env>)
    requires Balanced(w, env) && IsHandle(env, a) && IsHandle(env, b) && a != b
    requires r.Ok? ==>
               && env[b].h.cudd == env[a].h.cudd
               && Wf(r.w) && r.value.cudd == env[a].h.cudd
               && Net(w, r.w, env[a].h.cudd, Nodes([env[a].h] + Operations.Owned(env[b].h, ownB)),
                      multiset{r.value.node.base})
    ensures r2.Panic? <==> r.Panic?
    ensures r2.Ok? ==>
              && r2.w == r.w
              && r2.value == Consume(env, b, ownB)[a := HoldsBdd(r.value)]
              && Balanced(r2.w, r2.value)
  {
    if r.Panic? then Panic(r.fault)
    else
      ReassignFacts(w, r.w, env, a, b, ownB, r.value);
      Ok(r.w, Consume(env, b, ownB)[a := HoldsBdd(r.value)])
  }

  lemma ReassignFacts(w: World, w2: World, env: Env, a: nat, b: nat, ownB: bool, v: Bdd)
    requires Balanced(w, env) && IsHandle(env, a) && IsHandle(env, b) && a != b
    requires env[b].h.cudd == env[a].h.cudd && Wf(w2) && v.cudd == env[a].h.cudd
    requires Net(w, w2, v.cudd, Nodes([env[a].h] + Operations.Owned(env[b].h, ownB)), multiset{v.node.base})
    ensures Balanced(w2, Consume(env, b, ownB)[a := HoldsBdd(v)])
  {
    var p, ha, hb := v.cudd, env[a].h, env[b].h;
    var env1 := Consume(env, b, ownB);
    var gb := Nodes(Operations.Owned(hb, ownB));
    ConsumeNet(env, b, ownB, p);
    SwapSlot(env1, a, HoldsBdd(v), p);
    EnvNetCompose(env, env1, env1[a := HoldsBdd(v)], p, gb, multiset{}, multiset{ha.node.base}, multiset{v.node.base});
    NodesAppend([ha], Operations.Owned(hb, ownB));
    assert Nodes([ha]) == multiset{ha.node.base} + Nodes([]);
    assert gb + multiset{ha.node.base} == Nodes([ha]) + gb;
    assert multiset{} + multiset{v.node.base} == multiset{v.node.base};
    Preserve(w, w2, env, env1[a := HoldsBdd(v)], p, Nodes([ha] + Operations.Owned(hb, ownB)), multiset{v.node.base});
  }

  /** `==` and `is_constant`: answers only; the program's values stay. */
  function QueryStep(o: Oracle, w: World, env: Env, c: Command): (r: Outcome<Env>)
    requires Balanced(w, env) && Compiles(env, c) && (c.Equal? || c.IsConstant?)
    ensures r.Ok? ==> r.w == w && r.value == env
  {
    match c
    case Equal(a, b) =>
      var r := BddEq(w, env[a].h, env[b].h);
      if r.Panic? then Panic(r.fault) else Ok(w, env)
    case IsConstant(src, v) =>
      SlotLive(w, env, src);
      var r := Operations.IsConstant(o, w, env[src].h, v);
      if r.Panic? then Panic(r.fault) else Ok(r.w, env)
  }

  /** The remaining `Bdd` methods, each returning a new handle on the
      receiver's manager. */
  function HandleStep(o: Oracle, w: World, env: Env, c: Command): (r: Outcome<Env>)
    requires Balanced(w, env) && Compiles(env, c)
    requires c.Support? || c.ExistAbstract? || c.AndAbstract? || c.SwapVars? || c.IfThenElse? || c.NextState?
    ensures r.Ok? ==> Balanced(r.w, r.value) && |r.value| == |env|
  {
    match c
    case Support(_, _) => AbstractStep(o, w, env, c)
    case ExistAbstract(_, _, _) => AbstractStep(o, w, env, c)
    case SwapVars(_, _, _, _) => RenameStep(o, w, env, c)
    case NextState(_, _) => RenameStep(o, w, env, c)
    case AndAbstract(_, _, _, _) => BorrowStep(o, w, env, c)
    case IfThenElse(_, _, _, _) => BorrowStep(o, w, env, c)
  }

  /** `support` and `exist_abstract`: one handle in, one new handle out. */
  function AbstractStep(o: Oracle, w: World, env: Env, c: Command): (r: Outcome<Env>)
    requires Balanced(w, env) && Compiles(env, c) && (c.Support? || c.ExistAbstract?)
    ensures r.Ok? ==> Balanced(r.w, r.value) && |r.value| == |env|
  {
    var h := env[c.src].h;
    SlotLive(w, env, c.src);
    match c
    case Support(_, dst) => Mint(w, env, h.cudd, dst, Operations.Support(o, w, h))
    case ExistAbstract(_, vars, dst) => Mint(w, env, h.cudd, dst, Operations.ExistAbstract(o, w, h, vars))
  }

  /** `swap_vars` and `next_state`: variable renamings of one handle. */
  function RenameStep(o: Oracle, w: World, env: Env, c: Command): (r: Outcome<Env>)
    requires Balanced(w, env) && Compiles(env, c) && (c.SwapVars? || c.NextState?)
    ensures r.Ok? ==> Balanced(r.w, r.value) && |r.value| == |env|
  {
    var h := env[c.src].h;
    SlotLive(w, env, c.src);
    match c
    case SwapVars(_, from, to, dst) => Mint(w, env, h.cudd, dst, Operations.SwapVars(o, w, h, from, to))
    case NextState(_, dst) => Mint(w, env, h.cudd, dst, Operations.NextState(o, w, h))
  }

  /** The two methods that take further handles by reference without
      checking their manager. */
  function BorrowStep(o: Oracle, w: World, env: Env, c: Command): (r: Outcome<Env>)
    requires Balanced(w, env) && Compiles(env, c) && (c.AndAbstract? || c.IfThenElse?)
    ensures r.Ok? ==> Balanced(r.w, r.value) && |r.value| == |env|
  {
    var h := env[c.src].h;
    SlotLive(w, env, c.src);
    match c
    case AndAbstract(_, f, vars, dst) =>
      SlotLive(w, env, f);
      Mint(w, env, h.cudd, dst, Operations.AndAbstract(o, w, h, env[f].h, vars))
    case IfThenElse(_, t, e, dst) =>
      SlotLive(w, env, t);
      SlotLive(w, env, e);
      Mint(w, env, h.cudd, dst, Operations.IfThenElse(o, w, h, env[t].h, env[e].h))
  }

  /** Runs a whole program; it stops at the first panic. */
  function Run(o: Oracle, w: World, env: Env, cs: seq<Command>): (r: Outcome<Env>)
    requires Balanced(w, env)
    ensures r.Ok? ==> Balanced(r.w, r.value) && |r.value| == |env|
    decreases |cs|
  {
    if |cs| == 0 then Ok(w, env)
    else
      var r1 := Step(o, w, env, cs[0]);
      if r1.Panic? then r1 else Run(o, r1.w, r1.value, cs[1..])
  }

  /** A program starts with no engine and `n` empty variables. */
  function Start(n: nat): (env: Env)
    ensures |env| == n && forall i :: 0 <= i < n ==> env[i].Vacant?
    ensures Balanced(Empty(), env)
  {
    var env := seq(n, _ => Vacant);
    NobodyHolds(env);
    env
  }

  lemma {:induction false} NoHolders(env: Env, p: Ptr)
    requires forall i :: 0 <= i < |env| ==> env[i].Vacant?
    ensures HoldersIn(env, p) == 0
    decreases |env|
  {
    if |env| > 0 {
      NoHolders(env[1..], p);
    }
  }

  lemma NobodyHolds(env: Env)
    requires forall i :: 0 <= i < |env| ==> env[i].Vacant?
    ensures forall q :: HoldersIn(env, q) == 0
  {
    forall q ensures HoldersIn(env, q) == 0 {
      NoHolders(env, q);
    }
  }

  /** No handle outlives its engine: every handle in a balanced program is
      on a running engine that holds its reference, and that engine has not
      been quit. */
  lemma NoHandleOutlivesEngine(w: World, env: Env, i: nat)
    requires Balanced(w, env) && IsHandle(env, i)
    ensures Live(w, env[i].h) && env[i].h.cudd !in w.quitLog
  {
    SlotLive(w, env, i);
  }

  /** Once every variable has gone out of scope, no engine runs, and each
      engine ever created has been quit, exactly once. */
  lemma QuitExactlyOnce(w: World, env: Env)
    requires Balanced(w, env) && forall i :: 0 <= i < |env| ==> env[i].Vacant?
    ensures w.managers == map[]
    ensures forall q :: 0 < q < w.nextPtr ==> q in w.quitLog
    ensures forall i, j :: 0 <= i < j < |w.quitLog| ==> w.quitLog[i] != w.quitLog[j]
  {
    NobodyHolds(env);
    forall q ensures q !in w.managers {
      assert Agree(w, env, q);
    }
    assert w.managers.Keys == {};
  }
}
