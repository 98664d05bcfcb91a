# DFA node model

A Dafny model of the automaton node of the random diagnosable-DFA generator,
`DFANode`. A node has an integer state and a map from symbols to destination
states. `addTransition` inserts or overwrites the destination of a symbol.
`navigate` follows a symbol: it fails with `SymbolNotFound` when the symbol has
no transition. Otherwise it returns the node that the global state registry
holds for the destination.

Modelling choices:

- A node is an immutable value (`DfaNode.Node`). `AddTransition` returns the updated node.
- The global registry `Config.statesMap` is an explicit `Registry = map<Int32, Node>`
  parameter of `Navigate`. `Config` is not part of this model.
- A registry miss is modelled as an `Option` result, not as a precondition.
  Java's `Map.get` returns `null` for a missing key, and `navigate` passes that
  `null` on without throwing. So `Navigate` returns `Ok(None)` in that case.
  The Javadoc of `navigate` promises a node and names `SymbolNotFound` as its only failure, but for
  an unregistered destination the code returns `null` instead. The model follows the code.
  `NodeProperties.NavigateGivesNextState` states the Javadoc's promise under the conditions where it holds.
- `Navigate` is a pure function, so it changes neither the node nor the registry.
- The thrown `SymbolNotFound` exception is the error value `Err(SymbolNotFound(c))`.
- Java `char` is `Char16` (0 to 0xFFFF, a UTF-16 code unit, surrogate halves included).
  Java `int` is `Int32`. The node does no arithmetic, so there is no overflow to model.
- `TransitionBatch` models a caller that makes a sequence of `addTransition` calls on one node.
  It proves that each symbol ends with the destination of its last mention.

Files: `wrappers.dfy` (Option, Result), `dfa_node.dfy` (the node),
`node_properties.dfy` (lemmas about single operations), `transition_batch.dfy`
(sequences of insertions).

## Model

| member | source | states |
|---|---|---|
| DfaNode.NewNode | src/main/java/com/rovo98/DFANode.java:24-27 | the constructed node carries the given state and has no transitions (its edge relation is empty) |
| DfaNode.AddTransition | src/main/java/com/rovo98/DFANode.java:35-38 | afterwards the symbol leads to the given state; every other symbol's destination and the node's state are unchanged; the edge relation is the old one with the symbol's old edge replaced by the new edge (determinism itself comes from the map type, which allows one value per key) |
| DfaNode.Navigate | src/main/java/com/rovo98/DFANode.java:47-50 | fails with SymbolNotFound carrying the symbol exactly when the symbol has no edge; when the symbol has an edge to d, the result is the registry's entry for d, or null (None) when the registry has no entry |
| DfaNode.Lookup | src/main/java/com/rovo98/DFANode.java:50 | the registry lookup gives null (None) exactly when the state is not a key, and otherwise the registered node |
| DfaNode.Edges | src/main/java/com/rovo98/DFANode.java:20-21 | the transition map read as a relation of (symbol, destination) pairs: a pair is in it exactly when the map sends the symbol to that destination |
| DfaNode.FromEdges | src/main/java/com/rovo98/DFANode.java:20-21 | a relation with at most one destination per symbol determines a transition map holding exactly its pairs |
| DfaNode.Dest | src/main/java/com/rovo98/DFANode.java:48-50 | a symbol has a destination exactly when the edge relation has a pair for it, and that destination is the pair's |
| NodeProperties.NewNodeNavigateFails | src/main/java/com/rovo98/DFANode.java:24-27 | navigating a freshly constructed node fails with SymbolNotFound on every symbol, whatever the registry holds |
| NodeProperties.PutThenNavigate | src/main/java/com/rovo98/DFANode.java:35-50 | after adding c to d, navigating on c gives the registry's entry for d (null when d is not registered), regardless of any earlier transition on c |
| NodeProperties.AddTransitionNavigateFrame | src/main/java/com/rovo98/DFANode.java:35-38 | adding a transition on one symbol does not change the outcome of navigating on any other symbol |
| NodeProperties.AddTransitionOverwrites | src/main/java/com/rovo98/DFANode.java:35-38 | a second insertion on the same symbol replaces the first completely, so one symbol never has two destinations |
| NodeProperties.AddTransitionIdempotent | src/main/java/com/rovo98/DFANode.java:35-38 | repeating the same insertion gives the node that one insertion gave |
| NodeProperties.AddTransitionCommutes | src/main/java/com/rovo98/DFANode.java:35-38 | insertions on two different symbols give the same node in either order |
| NodeProperties.NavigateGivesNextState | src/main/java/com/rovo98/DFANode.java:40-50 | when the registry files every node under its own state and holds the destination, navigating on a symbol with a transition succeeds and gives a node whose state is that destination, as the Javadoc promises |
| NodeProperties.MapToEdgesToMap | src/main/java/com/rovo98/DFANode.java:20-21 | reading a node's map as a (symbol, destination) relation and back gives the map again; the relation has at most one destination per symbol because a map holds one value per key |
| NodeProperties.EdgesToMapToEdges | src/main/java/com/rovo98/DFANode.java:20-21 | a relation with at most one destination per symbol, turned into a node's map and read back, is the relation again |
| TransitionBatch.AddTransitions | src/main/java/com/rovo98/DFANode.java:35-38 | a sequence of insertions never changes the node's state |
| TransitionBatch.AddTransitionsUntouched | src/main/java/com/rovo98/DFANode.java:35-38 | a symbol that no insertion of the sequence mentions keeps its earlier destination (or its absence) |
| TransitionBatch.AddTransitionsLastWins | src/main/java/com/rovo98/DFANode.java:35-38 | a symbol that the sequence mentions ends with the destination of its last mention |
| TransitionBatch.LastWritesSpec | src/main/java/com/rovo98/DFANode.java:35-38 | the last-write map built from the end of a sequence holds exactly the symbols the sequence mentions, each with the destination of its last mention |
| TransitionBatch.AddTransitionsIsLastWrites | src/main/java/com/rovo98/DFANode.java:35-38 | a sequence of insertions gives the node with the same state whose map is the old map overridden by the last-write map of the sequence |

## Left out

- `DFAConstructor.java` as a whole. It is an interface of abstract signatures without bodies. Random generation, the extra normal component, diagnosability construction, configuration saving and `getDFAConfig` have no code to model.
- Twin-plant construction, indeterminate-cycle search and fault injection. None of them is implemented in the modelled source.
- The `Config` class and its process-wide `statesMap`. The registry is passed explicitly instead.
- Object aliasing. In Java the registry holds references, so a node changed by `addTransition` is seen changed through the registry. Here the registry holds values, and a caller that updates a registered node must store the new value back.
- The exception message text `"symbol of specified transition not found: " + symbol`. Only the symbol is kept in the error value.
- Null values in the registry. `Config.statesMap` is not part of this model, so its Map class is unknown, and `Map.get` also returns `null` for a key stored with a `null` value. The registry is assumed to hold no `null` values, which `map<Int32, Node>` cannot represent.
- `HashMap` hashing and internals. The transition map is a mathematical `map`.
- The TODO in `addTransition` about validating the symbol and the state. The source performs no checks, and neither does the model.
