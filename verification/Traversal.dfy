/** The explicit-stack search for the first node that matches a name and a role. */
module Traversal {
  import opened Wrappers
  import opened Texts

  /** A node of a UI tree; `role` is the role, or the control type where there is none. */
  datatype UiNode = UiNode(name: string, role: string, children: seq<UiNode>)

  datatype Query = Query(name: Option<string>, role: Option<string>, exact: bool)

  predicate NameMatches(q: Query, n: UiNode) {
    q.name.None? || (if q.exact then n.name == q.name.value else Contains(Lower(n.name), Lower(q.name.value)))
  }

  predicate RoleMatches(q: Query, n: UiNode) {
    q.role.None? || Contains(Lower(n.role), Lower(q.role.value))
  }

  /** The Linux test accepts a query that asks for nothing. */
  predicate MatchesLinux(q: Query, n: UiNode) { NameMatches(q, n) && RoleMatches(q, n) }

  /** The Windows test does not. */
  predicate MatchesWindows(q: Query, n: UiNode) {
    NameMatches(q, n) && RoleMatches(q, n) && (q.name.Some? || q.role.Some?)
  }

  /** Recursive pre-order search: the reference. */
  function Search(n: UiNode, p: UiNode -> bool): Option<UiNode>
    decreases n
  {
    if p(n) then Some(n) else SearchAll(n.children, p)
  }

  function SearchAll(ns: seq<UiNode>, p: UiNode -> bool): Option<UiNode>
    decreases ns
  {
    if ns == [] then None
    else
      var found := Search(ns[0], p);
      if found.Some? then found else SearchAll(ns[1..], p)
  }

  /** Nodes of a forest, the measure of the loop. */
  function Size(ns: seq<UiNode>): nat
    decreases ns
  {
    if ns == [] then 0 else 1 + Size(ns[0].children) + Size(ns[1..])
  }

  lemma {:induction false} SizeConcat(a: seq<UiNode>, b: seq<UiNode>)
    ensures Size(a + b) == Size(a) + Size(b)
  {
    if a == [] {
      assert a + b == b;
    } else {
      assert (a + b)[1..] == a[1..] + b;
      SizeConcat(a[1..], b);
    }
  }

  lemma {:induction false} SearchConcat(a: seq<UiNode>, b: seq<UiNode>, p: UiNode -> bool)
    ensures SearchAll(a + b, p) == if SearchAll(a, p).Some? then SearchAll(a, p) else SearchAll(b, p)
  {
    if a == [] {
      assert a + b == b;
    } else {
      assert (a + b)[1..] == a[1..] + b;
      SearchConcat(a[1..], b, p);
    }
  }

  /** Pop the front of the stack; splice the children of a node that fails in its place. */
  method FindOnStack(start: seq<UiNode>, p: UiNode -> bool) returns (r: Option<UiNode>)
    ensures r == SearchAll(start, p)
  {
    var stack := start;
    while stack != []
      invariant SearchAll(stack, p) == SearchAll(start, p)
      decreases Size(stack)
    {
      var node := stack[0];
      stack := stack[1..];
      if p(node) { return Some(node); }
      SizeConcat(node.children, stack);
      SearchConcat(node.children, stack, p);
      stack := node.children + stack;
    }
    r := None;
  }

  /** The Linux search starts below the desktop node; a tree that is unsupported has no match. */
  method FindAccessibleLinux(children: seq<UiNode>, failed: bool, q: Query) returns (r: Option<UiNode>)
    ensures r == if failed then None else SearchAll(children, n => MatchesLinux(q, n))
  {
    if failed { return None; }
    r := FindOnStack(children, n => MatchesLinux(q, n));
  }

  method FindAccessibleWindows(tree: UiNode, q: Query) returns (r: Option<UiNode>)
    ensures r == Search(tree, n => MatchesWindows(q, n))
  {
    r := FindOnStack([tree], n => MatchesWindows(q, n));
    assert [tree][1..] == [];
  }

  // ---- What first means ------------------------------------------------------------------

  /** All nodes in document order. */
  function Preorder(ns: seq<UiNode>): seq<UiNode>
    decreases ns
  {
    if ns == [] then [] else [ns[0]] + Preorder(ns[0].children) + Preorder(ns[1..])
  }

  function FirstOf(ns: seq<UiNode>, p: UiNode -> bool): Option<UiNode> {
    if ns == [] then None else if p(ns[0]) then Some(ns[0]) else FirstOf(ns[1..], p)
  }

  lemma {:induction false} FirstOfConcat(a: seq<UiNode>, b: seq<UiNode>, p: UiNode -> bool)
    ensures FirstOf(a + b, p) == if FirstOf(a, p).Some? then FirstOf(a, p) else FirstOf(b, p)
  {
    if a == [] {
      assert a + b == b;
    } else {
      assert (a + b)[1..] == a[1..] + b;
      FirstOfConcat(a[1..], b, p);
    }
  }

  /** The search returns the first node in document order that satisfies the predicate. */
  lemma {:induction false} SearchIsFirst(ns: seq<UiNode>, p: UiNode -> bool)
    ensures SearchAll(ns, p) == FirstOf(Preorder(ns), p)
    decreases ns
  {
    if ns == [] {
    } else {
      SearchIsFirst(ns[0].children, p);
      SearchIsFirst(ns[1..], p);
      FirstOfConcat([ns[0]] + Preorder(ns[0].children), Preorder(ns[1..]), p);
      FirstOfConcat([ns[0]], Preorder(ns[0].children), p);
      assert [ns[0]][1..] == [];
    }
  }
}
