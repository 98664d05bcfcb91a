/**
 A node of a deterministic finite automaton: an integer state and a map from
 symbols to the states they lead to. A node is an immutable value here;
 adding a transition returns the updated node, and navigation looks the
 destination state up in a registry that the caller passes explicitly.
 */
module DfaNode {
  import opened Wrappers

  /** Java `char`: one UTF-16 code unit (surrogate halves included). */
  newtype Char16 = x: int | 0 <= x < 0x1_0000

  /** Java `int`: a 32-bit two's-complement integer. */
  newtype Int32 = x: int | -0x8000_0000 <= x < 0x8000_0000

  /** A node: its own state and at most one destination state per symbol. */
  datatype Node = Node(state: Int32, transitions: map<Char16, Int32>)

  /** The lookup table from state numbers to their nodes. */
  type Registry = map<Int32, Node>

  /** The error raised when navigating on a symbol that has no transition. */
  datatype NavError = SymbolNotFound(symbol: Char16)

  /** One transition leaving a node: the symbol and the destination state. */
  type Edge = (Char16, Int32)

  /** The transitions of a node as a relation of (symbol, destination) pairs. */
  function Edges(n: Node): (e: set<Edge>)
    ensures forall c, d :: (c, d) in e <==> c in n.transitions && n.transitions[c] == d
  {
    set c | c in n.transitions :: (c, n.transitions[c])
  }

  /** A relation on edges is deterministic when no symbol has two destinations. */
  predicate Deterministic(e: set<Edge>)
  {
    forall e1, e2 :: e1 in e && e2 in e && e1.0 == e2.0 ==> e1.1 == e2.1
  }

  /** Rebuilds a transition map from a deterministic edge relation. */
  function FromEdges(e: set<Edge>): (m: map<Char16, Int32>)
    requires Deterministic(e)
    ensures forall c, d :: (c, d) in e <==> c in m && m[c] == d
  {
    map p | p in e :: p.0 := p.1
  }

  /** The destination of symbol `c` from `n`, if it has one. */
  function Dest(n: Node, c: Char16): (r: Option<Int32>)
    ensures r.Some? <==> exists d :: (c, d) in Edges(n)
    ensures forall d :: (c, d) in Edges(n) ==> r == Some(d)
  {
    if c in n.transitions then
      assert (c, n.transitions[c]) in Edges(n);
      Some(n.transitions[c])
    else None
  }

  /** A registry lookup: Java's `Map.get`, giving `None` (null) for a missing key. */
  function Lookup(reg: Registry, id: Int32): (r: Option<Node>)
    ensures r.None? <==> id !in reg
    ensures r.Some? ==> reg[id] == r.value
  {
    if id in reg then Some(reg[id]) else None
  }

  /** A registry is consistent when every entry is the node of the state it is filed under. */
  predicate Consistent(reg: Registry)
  {
    forall id :: id in reg ==> reg[id].state == id
  }

  /** The constructor: a node for `state` with no transitions. */
  function NewNode(state: Int32): (n: Node)
    ensures n.state == state
    ensures Edges(n) == {}
  {
    Node(state, map[])
  }

  /**
   Adds the transition `c -> d`, overwriting any earlier destination of `c`.
   The node's state and every other symbol's transition are unchanged.
   */
  function AddTransition(n: Node, c: Char16, d: Int32): (r: Node)
    ensures r.state == n.state
    ensures Dest(r, c) == Some(d)
    ensures forall c' :: c' != c ==> Dest(r, c') == Dest(n, c')
    ensures Edges(r) == (set e | e in Edges(n) && e.0 != c) + {(c, d)}
    ensures Deterministic(Edges(r))
  {
    n.(transitions := n.transitions[c := d])
  }

  /**
   Follows the transition on `c`: fails with `SymbolNotFound(c)` when `c` has
   no transition, and otherwise gives the registry's entry for the
   destination (`None` when the registry has no such entry).
   */
  function Navigate(n: Node, reg: Registry, c: Char16): (r: Result<Option<Node>, NavError>)
    ensures r.Err? <==> (forall d :: (c, d) !in Edges(n))
    ensures r.Err? ==> r.error == SymbolNotFound(c)
    ensures forall d :: (c, d) in Edges(n) ==> r == Ok(Lookup(reg, d))
  {
    if c !in n.transitions then Err(SymbolNotFound(c))
    else
      assert (c, n.transitions[c]) in Edges(n);
      Ok(Lookup(reg, n.transitions[c]))
  }
}
