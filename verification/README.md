# cudd-rs handle bookkeeping in Dafny

cudd-rs wraps the CUDD decision-diagram engine in two Rust values:
- `Cudd` is a shared holder of one engine. It is an `Arc` around the engine pointer, plus a transfer counter.
- `Bdd` is a handle. It owns one external reference (`Cudd_Ref`) on a diagram node and one `Cudd` holder of that node's manager.

This project models the bookkeeping that this layer does itself. It does not model the Boolean algorithms of the engine.

**The engine.** The engine is an `Oracle`: a record of arbitrary total functions, one per engine entry point. Any of them may return the null node. One more function, `levels`, gives how many variables a diagram reaches. An engine handed a node of another manager creates those variables, so a transfer may grow the target's `num_var`.

**The state.** The state is a `World`. For every running manager it holds:
- the multiset of regular nodes the layer holds references on;
- the variable count (`num_var`);
- the transfer counter;
- the number of `Cudd` holders sharing the `Arc`.

It also holds the address the next `Cudd_Init` returns, and a log of every `Cudd_Quit`.

**Operations.** Every operation is a pure function from a world to an `Outcome`. An outcome is either a new world with a value, or a panic that names the failed assertion.

**Modules.** Each module sits in the file of the same name in lower case.
- `Engine`: nodes, oracle, world, well-formedness, and `Frame` (only one manager changes).
- `Lifetime`: the `Bdd` handle and its construction, clone, drop and equality. Also `Cudd` clone and drop (quitting the engine with the last holder). Also the `Net` accounting: a change to one manager is exactly "these handles went, these were made".
- `Cudd`: `Cudd::new`, `new_var`, `ith_var`, `num_var`, `constant`, `translocate` and `cube`.
- `Indices`: the pure index logic of `support_index` and `next_state`.
- `Operations`: every `Bdd` method and operator.
  - Each one that returns a `Bdd` is proved to make a net change of exactly one new reference (on the result), minus the operands it consumes.
  - `==`, `is_constant` and `support_index` return no handle. They leave the references exactly as they found them.
  - Every operation releases its temporary handles.
- `Session`: a client program with variable slots and commands that move values the way Rust ownership does.
  - The main theorem: every command keeps the engines balanced. Each engine holds exactly one reference per live handle on a node and one holder per live `Cudd` or `Bdd` value.
  - Consequences: no handle outlives its engine, and once every value is gone each engine has been quit exactly once.

**Notes on the code:**
- Unlike `&`, `|`, `^` and `==`, `and_abstract` (src/ddnode.rs:223-229) and `if_then_else` (src/ddnode.rs:256-260) do not check that the handles share a manager. `Operations.AffinityGap` states the difference.
- `Cudd::cube_bdd` is called by `exist_abstract` and `and_abstract` but is not defined in src/lib.rs, so it is not part of this model's sources. It is modelled as `Cudd_bddComputeCube` over the nodes of the variable handles, wrapped in `Bdd::new`: the same shape as `Cudd::cube`.

## Model

| member | source | states |
|---|---|---|
| `Lifetime.BddNew` | src/ddnode.rs:18-22 | a null node panics; any other node gains exactly one reference on its own manager and nothing else in the world changes |
| `Lifetime.Wrap` | src/ddnode.rs:18-22 | `Bdd::new(self.cudd.clone(), n)`: null panics; otherwise the net change is one new handle (one reference and one holder) on `n`, and the result is live |
| `Lifetime.BddClone` | src/ddnode.rs:55-63 | a clone never fails, has the same node and an equal manager, and adds one reference and one holder |
| `Lifetime.BddDrop` | src/ddnode.rs:25-29 | dropping releases exactly the handle's own reference on its own manager. If it was the last holder, that engine is quit and removed; otherwise only that handle's reference and holder go |
| `Lifetime.SameManagerIsSharing` | src/lib.rs:22-26 | `Cudd` and `CuddInner` equality is identity of the engine address: two values are equal iff a holder added through one is seen through the other, and the relation is symmetric |
| `Lifetime.CuddClone` | src/lib.rs:34-38 | the derived `Clone` adds exactly one holder to the same engine; nothing else in the world changes, and well-formedness is kept |
| `Lifetime.CuddCloneThenDrop` | src/lib.rs:28-38 | a `Cudd` cloned and dropped again leaves the world exactly as it was |
| `Lifetime.CuddDrop` | src/lib.rs:28-32 | the last holder's drop quits the engine once and logs it; any other drop removes one holder and leaves the engine running |
| `Lifetime.DropAll` | src/ddnode.rs:215-221 | dropping a list of handles (the `Vec` of variables, the cube) releases exactly their references, and the kept result stays live |
| `Lifetime.BddEq` | src/ddnode.rs:65-70 | `==` panics exactly when the managers differ; otherwise it leaves the world unchanged and is true iff the handles are identical |
| `Cudd.New` | src/lib.rs:47-54 | a null `Cudd_Init` panics; otherwise the new manager has no references, no variables, a zero transfer counter and one holder. It differs from every running and every quit manager, and the others are untouched |
| `Cudd.SeparateManagersDiffer` | src/lib.rs:40-44 | a manager equals itself (its clones), and two managers created one after the other are unequal |
| `Cudd.NumVarCountsVariables` | src/lib.rs:56-68 | `num_var` (`Cudd_ReadSize`) counts the existing variables: `new_var` makes variable `num_var` and adds one, and `ith_var(i)` leaves the count unchanged iff `i` is already below it |
| `Cudd.NewVar` | src/lib.rs:56-58 | the new variable's handle gives a net gain of one reference; `num_var` grows by exactly one |
| `Cudd.CInt` | src/lib.rs:62 | the `as c_int` cast keeps `i` modulo 2^32 in the signed 32-bit range and is the identity below 2^31 |
| `Cudd.IthVarAsWritten` | src/lib.rs:60-64 | `ith_var` as written: the engine sees the truncated index; a non-negative truncated index grows `num_var` to cover it |
| `Cudd.IthVarAliases` | src/lib.rs:60-64 | as written, index 2^32+3 returns exactly what index 3 returns, leaving `num_var` below 2^32+4 |
| `Cudd.IthVar` | src/lib.rs:60-64 | corrected `ith_var`: an index at or above 2^31 panics. Otherwise it returns the engine's variable `i` with one new reference, and `num_var` becomes `max(num_var, i + 1)` |
| `Cudd.IthVarRejectsWideIndex` | src/lib.rs:60-64 | the corrected `ith_var` refuses index 2^32+3 instead of aliasing it |
| `Cudd.NumVarAfterIthVars` | src/lib.rs:135-141 | on a new manager, `ith_var(0)`, `ith_var(1)`, `ith_var(3)` leave `num_var == 4` |
| `Cudd.Constant` | src/lib.rs:70-78 | `constant(v)` wraps the engine's one or logical zero. A null constant panics with the null-node fault; otherwise there is a net gain of one reference and no other change |
| `Cudd.CountTransfer` | src/lib.rs:81 | the transfer counter goes up by exactly one; references, holders and variables are untouched |
| `Cudd.Translocate` | src/lib.rs:80-88 | the target's counter always rises by one. A handle already on the target comes back as itself (a clone, no engine transfer, `num_var` unchanged). Any other handle is transferred and belongs to the target, and the target's `num_var` grows to cover the variables its diagram reaches. Either way there is one new reference on the result only |
| `Cudd.Import` | src/lib.rs:85-87 | `Bdd::new(self.clone(), Cudd_bddTransfer(..))`: panics iff the engine returns null. Otherwise the result is the transferred node on the target, with one new reference, and `num_var` becomes the larger of the old count and the diagram's reach |
| `Cudd.Adopt` | src/lib.rs:85-87 | handing the engine a node leaves references and holders alone. A node of another manager raises `num_var` to its reach, and a node of the same manager changes nothing |
| `Cudd.TranslocateIntoNew` | src/lib.rs:163-172 | a handle moved into a new manager belongs to it, and that manager now has exactly the variables the diagram reaches |
| `Cudd.GrowToCovers` | src/lib.rs:60-68 | after asking for variables `idxs`, `num_var` exceeds every index and is either the old count or one past some index |
| `Cudd.GrowToWithin` | src/lib.rs:60-64 | asking only for existing variables leaves `num_var` unchanged |
| `Cudd.VarNode` | src/lib.rs:93 | `self.ith_var(var).node` leaves no reference behind, only the grown variable count |
| `Cudd.VarNodes` | src/lib.rs:93 | collecting variable nodes fails iff some index fails; otherwise it yields the engine's variable nodes in order, with no net reference |
| `Cudd.Cube` | src/lib.rs:92-102 | `cube(idxs)` has a net gain of one reference on the cube only (the temporary variable handles are released), and grows `num_var` to cover the indices |
| `Operations.Binary` | src/ddnode.rs:92-172 | `BitAnd`, `BitOr`, `BitXor` in all four ownership forms. Different managers panic with the mismatch. The result is the engine's node on the left operand's manager. The net change is the result minus the by-value operands |
| `Operations.BinaryAssign` | src/ddnode.rs:114-120 | `BitAndAssign` (and likewise `BitOrAssign`, `BitXorAssign`): the same manager check. The result replaces the receiver, whose reference is released, and a by-value right side is released too |
| `Operations.AssignIsBinary` | src/ddnode.rs:114-120 | the assign form yields the same node as the borrowed operator, and additionally releases the old receiver |
| `Operations.Not` | src/ddnode.rs:76-90 | `!` never fails and returns the complemented node on the same manager, with one new reference minus the consumed operand |
| `Operations.NotByValueInPlace` | src/ddnode.rs:79-81 | negating a consumed handle leaves the world exactly as it was |
| `Operations.DoubleNegation` | src/ddnode.rs:84-90 | negating twice gives back the original handle |
| `Operations.IsConstant` | src/ddnode.rs:183-185 | `is_constant(v)` leaves the world exactly as found (the temporary constant is released). It panics iff the constant is null, with the null-node fault, and is true iff the node is the manager's constant node |
| `Operations.MintThenDrop` | src/ddnode.rs:183-185 | creating a handle and dropping it again restores the world |
| `Operations.Support` | src/ddnode.rs:192-196 | `support` wraps `Cudd_Support` with a net gain of one reference |
| `Operations.SupportIndex` | src/ddnode.rs:198-213 | `support_index` is strictly ascending, and each index is below `num_var` with a positive indicator entry |
| `Operations.SupportIndexComplete` | src/ddnode.rs:207-211 | every variable below `num_var` with a positive entry is reported |
| `Operations.SupportIndexOfVarTwo` | src/lib.rs:181-186 | with three variables and only variable 2 marked, `support_index` is `[2]` |
| `Operations.VarHandles` | src/ddnode.rs:216 | the `Vec` of `ith_var` handles fails iff some index fails; otherwise it holds the variables in order, with one reference each |
| `Operations.Abstract` | src/ddnode.rs:215-229 | the shared body of the two quantifications: one new reference on the result. The cube and every variable handle are released. `num_var` grows to cover the variables, and also the reach of a conjunct from another manager |
| `Operations.ExistAbstract` | src/ddnode.rs:215-221 | `exist_abstract(vars)` panics iff a variable, the cube or the engine result is null; otherwise it has a net gain of one reference on the result only |
| `Operations.AndAbstract` | src/ddnode.rs:223-229 | `and_abstract(f, vars)` is the same, with `f`'s node passed to the receiver's engine and no manager check. When `f` is on the same manager, `num_var` only grows to cover the variables; otherwise it also covers `f`'s reach |
| `Operations.IfThenElse` | src/ddnode.rs:256-260 | `if_then_else` panics iff the engine returns null. It has no manager check and makes one new reference on the receiver's manager. `num_var` covers the reach of any branch from another manager, and is unchanged when both branches share the receiver's manager |
| `Operations.AffinityGap` | src/ddnode.rs:223-260 | for handles of two different managers, `&` and `==` always panic, while `if_then_else` and `and_abstract` succeed whenever the engine answers |
| `Operations.SwapVars` | src/ddnode.rs:231-254 | `swap_vars` panics on a failed variable or unequal lengths (the length assertion when all variables exist) or a null result. Otherwise the temporary variable handles leave no trace and the net gain is one reference on the result |
| `Operations.NextState` | src/ddnode.rs:264-268 | `next_state` swaps the even variables below `num_var` with the odd ones. It panics iff a variable fails, the lists differ in length, or the engine returns null. Otherwise the result is the engine's swapped node on the receiver's manager, with one new reference only. `num_var` and the transfer counter are unchanged, since every index asked for is below `num_var` |
| `Operations.NextStateOddPanics` | src/ddnode.rs:264-268 | an odd `num_var` always panics, on the length assertion when every variable exists |
| `Operations.NextStateEven` | src/ddnode.rs:264-268 | with an even `num_var`, `next_state` fails only when the engine does, and it never changes `num_var` |
| `Indices.Positions` | src/ddnode.rs:207-211 | the reported positions are strictly ascending and each has a positive entry |
| `Indices.CollectPositions` | src/ddnode.rs:198-213 | the push loop of `support_index` computes exactly the positions |
| `Indices.PositionsComplete` | src/ddnode.rs:207-211 | every position with a positive entry is reported |
| `Indices.PositionsDistinct` | src/ddnode.rs:207-211 | no position is reported twice |
| `Indices.WithParity` | src/ddnode.rs:265-266 | the `k`-th element of `(0..n).filter(x % 2 == parity)` is `2k + parity` and below `n`, and the list has the right length |
| `Indices.WithParityMembers` | src/ddnode.rs:265-266 | `x` is in the filtered list iff `x < n` and `x` has that parity |
| `Indices.NextStatePairs` | src/ddnode.rs:264-268 | `to[k] == from[k] + 1`, and the lists have equal length iff `num_var` is even |
| `Session.DropHandle` | src/ddnode.rs:25-29 | a handle going out of scope keeps every engine balanced |
| `Session.DropManager` | src/lib.rs:34-38 | a `Cudd` going out of scope keeps every engine balanced, quitting it when it was the last holder |
| `Session.Step` | src/ddnode.rs:12-29 | every command of the layer keeps each engine's references equal to the live handles' nodes, and its holders equal to the live values holding it |
| `Session.Run` | src/ddnode.rs:12-29 | a whole program keeps that balance at every point |
| `Session.Start` | src/lib.rs:34-38 | a program with no values is balanced |
| `Session.NoHandleOutlivesEngine` | src/ddnode.rs:13 | every handle of a balanced program is on a running, never-quit engine that holds its reference |
| `Session.QuitExactlyOnce` | src/lib.rs:28-32 | once no value remains, no engine runs, and every engine ever created was quit exactly once |

## Left out

- Boolean semantics of the engine. This covers the results of `Cudd_bddAnd`/`Or`/`Xor`/`Ite`, `ExistAbstract`, `AndAbstract`, `SwapVariables`, `Support`, `SupportIndex`, `Transfer`, `ComputeCube` and `ReadOne`/`ReadLogicZero`, plus canonicity, hash-consing and garbage collection. All of these are uninterpreted oracle functions. For the same reason, the semantic equalities in the tests (src/lib.rs:124-179) are not stated.
- `Bdd::size` (`Cudd_DagSize`): a pure engine query with no bookkeeping.
- The `Debug` implementations: they only print.
- The `Send`/`Sync` markers and the `Mutex` around the transfer counter. The model is sequential, and the counter is a plain unbounded integer.
- Mutex poisoning, and `usize` overflow of the transfer counter.
- `Vec::from_raw_parts` ownership of the engine's array: only its contents are modelled.
- `AsRef`/`AsMut` boilerplate and `Default` (which is `Cudd::new`).
- Panics are terminal. Unwinding, which would run the destructors of the values still in scope, is not modelled.
- Manager addresses are never reused. A real allocator may hand out a quit manager's address again, but no live value holds a quit manager (`Session.NoHandleOutlivesEngine`), so equality among live values is unaffected.
- A command that Rust's type or borrow checker would reject leaves the program unchanged, since such a program never runs.
- How many variables a diagram reaches (`levels`) is an uninterpreted engine answer. CUDD leaves it undefined what happens when a node of another manager reaches `Cudd_bddIte` or `Cudd_bddAndAbstract`. The model treats it like a transfer: the receiver's engine creates the variables the node reaches.
- Cudd.VarNode: it uses the corrected `Cudd.IthVar`, so an index of 2^31 or more panics where the code truncates it (see Findings).
- Cudd.VarNodes: it uses the corrected `Cudd.IthVar`, so an index of 2^31 or more panics where the code truncates it.
- Cudd.Cube: it uses the corrected `Cudd.IthVar`, so an index of 2^31 or more panics where the code truncates it.
- Operations.VarHandles: it uses the corrected `Cudd.IthVar`, so an index of 2^31 or more panics where the code truncates it.
- Operations.Abstract: it uses the corrected `Cudd.IthVar`, so an index of 2^31 or more panics where the code truncates it.
- Operations.ExistAbstract: it uses the corrected `Cudd.IthVar`, so an index of 2^31 or more panics where the code truncates it.
- Operations.AndAbstract: it uses the corrected `Cudd.IthVar`, so an index of 2^31 or more panics where the code truncates it.
- Operations.SwapVars: it uses the corrected `Cudd.IthVar`, so an index of 2^31 or more panics where the code truncates it.
- Operations.NextState: it uses the corrected `Cudd.IthVar`, so an index of 2^31 or more panics where the code truncates it. This needs `num_var` above 2^31.
- Session.Step: its `ith_var` command uses the corrected `Cudd.IthVar`, so an index of 2^31 or more panics where the code truncates it.

## Findings

| source | as written | input that shows it | evidently intended | confidence | as-written member | corrected member |
|---|---|---|---|---|---|---|
| src/lib.rs:60-64 | `ith_var(i)` passes `i as _` (a C `int`) to `Cudd_bddIthVar`, silently truncating a `usize` index to its low 32 bits | `i = 2^32 + 3` returns variable 3, and `num_var` stays at most 4 instead of exceeding `i` | an index a C `int` cannot hold is rejected (panics) rather than naming another variable | medium, not executed | `Cudd.IthVarAsWritten` (counterexample `Cudd.IthVarAliases`) | `Cudd.IthVar` (proved in `Cudd.IthVarRejectsWideIndex`; used by the rest of the model) |
