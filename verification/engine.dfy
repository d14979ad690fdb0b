/** The external decision-diagram engine as seen from the handle layer.

    The engine's Boolean algorithms are not modelled: every engine call that
    produces a node is a field of an `Oracle`, an arbitrary total function that
    may even return the null pointer. What IS modelled is the state the handle
    layer itself changes: the external reference counts this layer takes on
    nodes, the number of variables, the transfer counter and the number of
    shared holders of each manager.
 */
module Engine {

  /** Address of a `DdManager`; the engine never hands out 0 for a live one. */
  type Ptr = nat

  /** A `DdNode` pointer: null, or the address of a regular node together with
      the complement bit CUDD stores in the pointer's lowest bit. */
  datatype Node = Null | Node(base: nat, complemented: bool)

  /** The non-null node pointers: the only ones a handle can hold. */
  type NodeRef = n: Node | n.Node? witness Node(0, false)

  /** `Cudd_Not`: flips the complement bit, so the result shares the regular
      node (and therefore its reference count) with the argument. */
  function Complement(n: NodeRef): (r: NodeRef)
    ensures r.base == n.base && r != n
  {
    n.(complemented := !n.complemented)
  }

  /** The engine's answers, one uninterpreted function per engine entry point.
      `initFails(k)` says whether the k-th `Cudd_Init` returns null.
      `levels(q, n)` is how many variables the diagram of node `n` of manager
      `q` reaches (one past its largest variable index): an engine handed
      that node builds over those indices and creates the variables it lacks. */
  datatype Oracle = Oracle(
    initFails: nat -> bool,
    newVar: (Ptr, nat) -> Node,
    ithVar: (Ptr, int) -> Node,
    readOne: Ptr -> Node,
    readLogicZero: Ptr -> Node,
    bddAnd: (Ptr, Node, Node) -> Node,
    bddOr: (Ptr, Node, Node) -> Node,
    bddXor: (Ptr, Node, Node) -> Node,
    bddIte: (Ptr, Node, Node, Node) -> Node,
    support: (Ptr, Node) -> Node,
    supportIndex: (Ptr, Node, nat) -> int,
    existAbstract: (Ptr, Node, Node) -> Node,
    andAbstract: (Ptr, Node, Node, Node) -> Node,
    swapVariables: (Ptr, Node, seq<Node>, seq<Node>) -> Node,
    computeCube: (Ptr, seq<Node>) -> Node,
    transfer: (Ptr, Ptr, Node) -> Node,
    levels: (Ptr, Node) -> nat)

  /** What one manager shares among its holders:
      - `refs`: the regular nodes this layer has called `Cudd_Ref` on, with
        multiplicity (each `Cudd_RecursiveDeref` removes one);
      - `size`: the engine's variable count (`Cudd_ReadSize`);
      - `numTransfer`: the counter behind `Cudd::num_transfer`;
      - `strong`: how many `Cudd` values share the `Arc<CuddInner>`. */
  datatype Shared = Shared(refs: multiset<nat>, size: nat, numTransfer: nat, strong: nat)

  /** All live managers by engine address; `nextPtr` is the address the next
      successful `Cudd_Init` returns; `quitLog` lists every `Cudd_Quit` call. */
  datatype World = World(managers: map<Ptr, Shared>, nextPtr: Ptr, quitLog: seq<Ptr>)

  /** A call either returns a new world and a value, or panics (terminally). */
  datatype Fault = NullNode | NullManager | ManagerMismatch | LengthMismatch | IndexOverflow

  datatype Outcome<T> = Ok(w: World, value: T) | Panic(fault: Fault)

  /** Managers live at non-null addresses below `nextPtr`, each with at least
      one holder; an address that was quit is no longer live. */
  ghost predicate Wf(w: World) {
    && 0 < w.nextPtr
    && (forall p :: p in w.managers ==> 0 < p < w.nextPtr && w.managers[p].strong >= 1)
    && (forall i :: 0 <= i < |w.quitLog| ==> 0 < w.quitLog[i] < w.nextPtr && w.quitLog[i] !in w.managers)
  }

  /** The world before any manager exists. */
  function Empty(): (w: World)
    ensures Wf(w) && w.managers == map[]
  {
    World(map[], 1, [])
  }

  /** Only manager `p` may differ between `w` and `w2`: the same managers
      are live, no manager was created or quit, every other one is as it was. */
  ghost predicate Frame(w: World, w2: World, p: Ptr) {
    && w2.managers.Keys == w.managers.Keys
    && w2.nextPtr == w.nextPtr
    && w2.quitLog == w.quitLog
    && forall q :: q in w.managers && q != p ==> w2.managers[q] == w.managers[q]
  }

  /** `w` with manager `p`'s shared state replaced by `s`. */
  function Update(w: World, p: Ptr, s: Shared): (w2: World)
    requires p in w.managers
    ensures Frame(w, w2, p) && w2.managers[p] == s
    ensures Wf(w) && s.strong >= 1 ==> Wf(w2)
  {
    w.(managers := w.managers[p := s])
  }
}
