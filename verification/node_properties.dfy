/** Properties relating the constructor, `AddTransition` and `Navigate` of a node. */
module NodeProperties {
  import opened Wrappers
  import opened DfaNode

  /** A fresh node fails to navigate on every symbol, whatever the registry holds. */
  lemma NewNodeNavigateFails(s: Int32, reg: Registry, c: Char16)
    ensures NewNode(s).state == s
    ensures Navigate(NewNode(s), reg, c) == Err(SymbolNotFound(c))
  {
  }

  /** Put-then-navigate: after adding `c -> d`, navigating on `c` yields the registry's entry for `d`. */
  lemma PutThenNavigate(n: Node, reg: Registry, c: Char16, d: Int32)
    ensures Navigate(AddTransition(n, c, d), reg, c) == Ok(Lookup(reg, d))
    ensures d in reg ==> Navigate(AddTransition(n, c, d), reg, c) == Ok(Some(reg[d]))
    ensures d !in reg ==> Navigate(AddTransition(n, c, d), reg, c) == Ok(None)
  {
  }

  /** Adding a transition does not change the outcome of navigating on any other symbol. */
  lemma AddTransitionNavigateFrame(n: Node, reg: Registry, c: Char16, d: Int32, c': Char16)
    requires c' != c
    ensures Navigate(AddTransition(n, c, d), reg, c') == Navigate(n, reg, c')
  {
  }

  /** A second `AddTransition` on the same symbol overwrites the first. */
  lemma AddTransitionOverwrites(n: Node, c: Char16, d1: Int32, d2: Int32)
    ensures AddTransition(AddTransition(n, c, d1), c, d2) == AddTransition(n, c, d2)
  {
  }

  /** Repeating the same `AddTransition` leaves the node as one call left it. */
  lemma AddTransitionIdempotent(n: Node, c: Char16, d: Int32)
    ensures AddTransition(AddTransition(n, c, d), c, d) == AddTransition(n, c, d)
  {
  }

  /** Transitions on two different symbols can be added in either order. */
  lemma AddTransitionCommutes(n: Node, c1: Char16, d1: Int32, c2: Char16, d2: Int32)
    requires c1 != c2
    ensures AddTransition(AddTransition(n, c1, d1), c2, d2) == AddTransition(AddTransition(n, c2, d2), c1, d1)
  {
  }

  /**
   With a consistent registry that holds the destination, navigation gives a
   node whose state is the destination of the symbol.
   */
  lemma NavigateGivesNextState(n: Node, reg: Registry, c: Char16)
    requires Consistent(reg)
    requires c in n.transitions && n.transitions[c] in reg
    ensures Navigate(n, reg, c).Ok?
    ensures Navigate(n, reg, c).value.Some?
    ensures Navigate(n, reg, c).value.value.state == n.transitions[c]
  {
  }

  /** Reading a node's map as a relation and back gives the map again; the relation is deterministic. */
  lemma MapToEdgesToMap(n: Node)
    ensures Deterministic(Edges(n))
    ensures FromEdges(Edges(n)) == n.transitions
  {
  }

  /** Turning a deterministic relation into a map and reading it back gives the relation again. */
  lemma EdgesToMapToEdges(s: Int32, e: set<Edge>)
    requires Deterministic(e)
    ensures Edges(Node(s, FromEdges(e))) == e
  {
  }
}
