/**
 AT-SPI selectors: the identifiers a UI tree gives its nodes, and the walk that finds the
 accessible object an identifier names.

 Accessible objects are values of a stable forest. A child that raises when it is fetched is
 None; one that is fetched as a null object is NULL. A node is located by the child indices
 that lead to it, the application first.
 */
module Accessibles {
  import opened Wrappers

  datatype Acc = Acc(isNull: bool, name: string, role: string, applicationId: Option<int>, children: seq<Option<Acc>>)

  /** What reading a null object gives: each of its properties raises and is taken as empty. */
  const NULL := Acc(true, "", "", None, [])

  type Position = seq<nat>

  const MAX_APPLICATIONS := 40
  const MAX_TREE_CHILDREN := 60
  const MAX_WALK_CHILDREN := 80
  const MAX_DEPTH := 6

  function Min(a: nat, b: nat): nat { if a < b then a else b }

  /** The node `p` below `acc`, looking at no more than `limit` children of each node. */
  function Below(acc: Acc, p: Position, limit: nat): Option<Acc>
    decreases |p|
  {
    if p == [] then Some(acc)
    else if p[0] < Min(|acc.children|, limit) && acc.children[p[0]].Some? then
      Below(acc.children[p[0]].value, p[1..], limit)
    else None
  }

  /** The accessible at `p` in a forest of applications. */
  function At(apps: seq<Option<Acc>>, p: Position, limit: nat): Option<Acc> {
    if p == [] || p[0] >= Min(|apps|, MAX_APPLICATIONS) || apps[p[0]].None? then None
    else Below(apps[p[0]].value, p[1..], limit)
  }
}

module AtspiIdentity {
  import opened Wrappers
  import opened Accessibles
  import opened Texts

  function RoleOr(role: string): string { if role == "" then "node" else role }

  /** The path component of an application: role, name, and its id or position. */
  function RootPart(acc: Acc, index: nat): string {
    var rootName := Replaced(acc.name, '/', '_');
    var title := if rootName != "" then acc.role + ":" + rootName else RoleOr(acc.role);
    title + (match acc.applicationId case Some(id) => "#" + IntText(id) case None => "[" + NatText(index) + "]")
  }

  /** The path component of any other node: role and position, never its name. */
  function ChildPart(acc: Acc, index: nat): string { RoleOr(acc.role) + "[" + NatText(index) + "]" }

  function Part(acc: Acc, parts: seq<string>, index: nat): string {
    if parts == [] then RootPart(acc, index) else ChildPart(acc, index)
  }

  function PathText(parts: seq<string>): string { if parts == [] then "/" else "/" + Join(parts, '/') }

  predicate CleanRoles(acc: Acc) {
    '/' !in acc.role && forall c | c in acc.children && c.Some? :: CleanRoles(c.value)
  }

  predicate CleanForest(apps: seq<Option<Acc>>) {
    forall a | a in apps && a.Some? :: CleanRoles(a.value)
  }

  /** The parts along `p` below a node that is not an application. */
  function PartsBelow(acc: Acc, p: Position, limit: nat): seq<string>
    requires Below(acc, p, limit).Some?
    decreases |p|
  {
    if p == [] then []
    else
      var child := acc.children[p[0]].value;
      [ChildPart(child, p[0])] + PartsBelow(child, p[1..], limit)
  }

  function PartsAt(apps: seq<Option<Acc>>, p: Position, limit: nat): (parts: seq<string>)
    requires At(apps, p, limit).Some?
    ensures parts != []
  {
    var app := apps[p[0]].value;
    [RootPart(app, p[0])] + PartsBelow(app, p[1..], limit)
  }

  function IdAt(apps: seq<Option<Acc>>, p: Position, limit: nat): string
    requires At(apps, p, limit).Some?
  {
    PathText(PartsAt(apps, p, limit))
  }

  // ---- Parts determine positions ---------------------------------------------------------

  lemma CleanNumber(n: int)
    ensures '/' !in IntText(n) && '[' !in IntText(n) && (n >= 0 ==> '/' !in NatText(n) && '[' !in NatText(n))
  {
    var t := NatText(if n < 0 then -n else n);
    assert forall i | 0 <= i < |t| :: '0' <= t[i] <= '9';
  }

  lemma CleanParts(acc: Acc, index: nat)
    requires '/' !in acc.role
    ensures '/' !in RootPart(acc, index) && '/' !in ChildPart(acc, index)
  {
    CleanNumber(index);
    if acc.applicationId.Some? { CleanNumber(acc.applicationId.value); }
    assert '/' !in Replaced(acc.name, '/', '_');
  }

  /** The index in brackets can be read off a component, whatever the roles. */
  lemma BracketsDetermine(a: string, x: string, b: string, y: string)
    requires a + "[" + x + "]" == b + "[" + y + "]" && '[' !in x && '[' !in y
    ensures x == y
  {
    var s := a + "[" + x + "]";
    assert s == b + "[" + y + "]";
    assert s[|a|] == '[' && s[|b|] == '[';
    assert forall k | |a| < k < |a| + 1 + |x| :: s[k] == x[k - |a| - 1];
    assert forall k | |b| < k < |b| + 1 + |y| :: s[k] == y[k - |b| - 1];
    assert !(|a| < |b|);
    assert !(|b| < |a|);
    assert x == s[|a| + 1..|s| - 1] && y == s[|b| + 1..|s| - 1];
  }

  lemma ChildPartDetermines(c: Acc, i: nat, d: Acc, j: nat)
    requires ChildPart(c, i) == ChildPart(d, j)
    ensures i == j
  {
    CleanNumber(i);
    CleanNumber(j);
    BracketsDetermine(RoleOr(c.role), NatText(i), RoleOr(d.role), NatText(j));
    NatTextInjective(i, j);
  }

  lemma {:induction false} PartsBelowDetermine(acc: Acc, p: Position, q: Position, limit: nat)
    requires Below(acc, p, limit).Some? && Below(acc, q, limit).Some?
    requires PartsBelow(acc, p, limit) == PartsBelow(acc, q, limit)
    ensures p == q
    decreases |p|
  {
    var s, t := PartsBelow(acc, p, limit), PartsBelow(acc, q, limit);
    if p == [] || q == [] {
    } else {
      var c, d := acc.children[p[0]].value, acc.children[q[0]].value;
      assert s[0] == ChildPart(c, p[0]) && t[0] == ChildPart(d, q[0]);
      ChildPartDetermines(c, p[0], d, q[0]);
      assert s[1..] == PartsBelow(c, p[1..], limit) && t[1..] == PartsBelow(d, q[1..], limit);
      PartsBelowDetermine(c, p[1..], q[1..], limit);
      assert p == [p[0]] + p[1..] && q == [q[0]] + q[1..];
    }
  }

  lemma {:induction false} PartsBelowClean(acc: Acc, p: Position, limit: nat)
    requires CleanRoles(acc) && Below(acc, p, limit).Some?
    ensures forall s | s in PartsBelow(acc, p, limit) :: '/' !in s
    decreases |p|
  {
    if p == [] {
    } else {
      var c := acc.children[p[0]];
      assert c in acc.children;
      CleanParts(c.value, p[0]);
      PartsBelowClean(c.value, p[1..], limit);
    }
  }

  lemma PartsClean(apps: seq<Option<Acc>>, p: Position, limit: nat)
    requires CleanForest(apps) && At(apps, p, limit).Some?
    ensures forall s | s in PartsAt(apps, p, limit) :: '/' !in s
  {
    var app := apps[p[0]];
    assert app in apps;
    CleanParts(app.value, p[0]);
    PartsBelowClean(app.value, p[1..], limit);
  }

  /** Equal identifiers come from equal lists of parts. */
  lemma IdDeterminesParts(apps: seq<Option<Acc>>, p: Position, q: Position, limit: nat)
    requires CleanForest(apps) && At(apps, p, limit).Some? && At(apps, q, limit).Some?
    requires IdAt(apps, p, limit) == IdAt(apps, q, limit)
    ensures PartsAt(apps, p, limit) == PartsAt(apps, q, limit)
  {
    PartsClean(apps, p, limit);
    PartsClean(apps, q, limit);
    var s, t := PartsAt(apps, p, limit), PartsAt(apps, q, limit);
    SplitUndoesJoin(s, '/');
    SplitUndoesJoin(t, '/');
    assert IdAt(apps, p, limit)[1..] == Join(s, '/') && IdAt(apps, q, limit)[1..] == Join(t, '/');
  }

  /** Applications among those walked have distinct components. */
  predicate RootsDistinct(apps: seq<Option<Acc>>) {
    forall i: nat, j: nat | i < j < Min(|apps|, MAX_APPLICATIONS) && apps[i].Some? && apps[j].Some? ::
      RootPart(apps[i].value, i) != RootPart(apps[j].value, j)
  }

  lemma RootsDetermine(apps: seq<Option<Acc>>, i: nat, j: nat)
    requires RootsDistinct(apps) && i < Min(|apps|, MAX_APPLICATIONS) && j < Min(|apps|, MAX_APPLICATIONS)
    requires apps[i].Some? && apps[j].Some? && RootPart(apps[i].value, i) == RootPart(apps[j].value, j)
    ensures i == j
  {
  }

  lemma IdDetermines(apps: seq<Option<Acc>>, p: Position, q: Position, limit: nat)
    requires CleanForest(apps) && RootsDistinct(apps)
    requires At(apps, p, limit).Some? && At(apps, q, limit).Some? && IdAt(apps, p, limit) == IdAt(apps, q, limit)
    ensures p == q
  {
    IdDeterminesParts(apps, p, q, limit);
    PartsDetermine(apps[p[0]].value, apps[q[0]].value, p[0], q[0], p[1..], q[1..], limit);
    RootsDetermine(apps, p[0], q[0]);
    PartsBelowDetermine(apps[p[0]].value, p[1..], q[1..], limit);
    assert p == [p[0]] + p[1..] && q == [q[0]] + q[1..];
  }

  lemma PartsDetermine(a: Acc, b: Acc, i: nat, j: nat, p: Position, q: Position, limit: nat)
    requires Below(a, p, limit).Some? && Below(b, q, limit).Some?
    requires [RootPart(a, i)] + PartsBelow(a, p, limit) == [RootPart(b, j)] + PartsBelow(b, q, limit)
    ensures RootPart(a, i) == RootPart(b, j) && PartsBelow(a, p, limit) == PartsBelow(b, q, limit)
  {
    var s, t := PartsBelow(a, p, limit), PartsBelow(b, q, limit);
    assert ([RootPart(a, i)] + s)[0] == RootPart(a, i) && ([RootPart(b, j)] + t)[0] == RootPart(b, j);
    assert ([RootPart(a, i)] + s)[1..] == s && ([RootPart(b, j)] + t)[1..] == t;
  }

  /** A smaller limit on children changes neither the node at a position nor its identifier. */
  lemma {:induction false} BelowWidens(acc: Acc, p: Position, small: nat, large: nat)
    requires small <= large && Below(acc, p, small).Some?
    ensures Below(acc, p, large) == Below(acc, p, small)
    ensures PartsBelow(acc, p, large) == PartsBelow(acc, p, small)
    decreases |p|
  {
    if p == [] {
    } else {
      BelowWidens(acc.children[p[0]].value, p[1..], small, large);
    }
  }

  lemma AtWidens(apps: seq<Option<Acc>>, p: Position, small: nat, large: nat)
    requires small <= large && At(apps, p, small).Some?
    ensures At(apps, p, large) == At(apps, p, small) && IdAt(apps, p, large) == IdAt(apps, p, small)
  {
    BelowWidens(apps[p[0]].value, p[1..], small, large);
  }
}

/** The tree that is shown, and the walk that looks an identifier up. */
module AtspiTree {
  import opened Wrappers
  import opened Accessibles
  import opened AtspiIdentity

  /** A node of the published tree; `at` is the accessible object it was read from. */
  datatype Node = Node(name: string, role: string, id: string, at: Position, children: seq<Node>)

  function Shown(acc: Acc, at: Position, parts: seq<string>, index: nat, depth: nat): Node
    decreases acc, 1, 0
  {
    var part := Part(acc, parts, index);
    Node(acc.name, acc.role, PathText(parts + [part]), at,
         if depth < MAX_DEPTH then ShownChildren(acc, at, parts + [part], Min(|acc.children|, MAX_TREE_CHILDREN), depth)
         else [])
  }

  /** The first `n` children, without those that raise. */
  function ShownChildren(acc: Acc, at: Position, parts: seq<string>, n: nat, depth: nat): seq<Node>
    requires n <= |acc.children|
    decreases acc, 0, n
  {
    if n == 0 then []
    else
      ShownChildren(acc, at, parts, n - 1, depth) +
      (match acc.children[n - 1]
       case None => []
       case Some(child) => [Shown(child, at + [n - 1], parts, n - 1, depth + 1)])
  }

  /** Reading a node appends its children one by one. */
  method ReadNode(acc: Acc, at: Position, parts: seq<string>, index: nat, depth: nat) returns (node: Node)
    ensures node == Shown(acc, at, parts, index, depth)
    decreases acc
  {
    var part := Part(acc, parts, index);
    var kids: seq<Node> := [];
    if depth < MAX_DEPTH {
      for i := 0 to Min(|acc.children|, MAX_TREE_CHILDREN)
        invariant kids == ShownChildren(acc, at, parts + [part], i, depth)
      {
        if acc.children[i].Some? {
          var kid := ReadNode(acc.children[i].value, at + [i], parts + [part], i, depth + 1);
          kids := kids + [kid];
        }
      }
    }
    node := Node(acc.name, acc.role, PathText(parts + [part]), at, kids);
  }

  function ShownApps(apps: seq<Option<Acc>>, n: nat): seq<Node>
    requires n <= |apps|
  {
    if n == 0 then []
    else ShownApps(apps, n - 1) +
         (match apps[n - 1] case None => [] case Some(app) => [Shown(app, [n - 1], [], n - 1, 0)])
  }

  const DESKTOP_ID := "/desktop"

  /** The published tree: a desktop node, read from no application, over the applications. */
  function Desktop(apps: seq<Option<Acc>>): Node {
    Node("AT-SPI desktop", "desktop frame", DESKTOP_ID, [], ShownApps(apps, Min(|apps|, MAX_APPLICATIONS)))
  }

  method GetUiTree(apps: seq<Option<Acc>>) returns (desktop: Node)
    ensures desktop == Desktop(apps)
  {
    var children: seq<Node> := [];
    for i := 0 to Min(|apps|, MAX_APPLICATIONS)
      invariant children == ShownApps(apps, i)
    {
      if apps[i].Some? {
        var node := ReadNode(apps[i].value, [i], [], i, 0);
        children := children + [node];
      }
    }
    desktop := Node("AT-SPI desktop", "desktop frame", DESKTOP_ID, [], children);
  }

  /** The identifiers of all nodes of a tree that were read from the accessible at `q`. */
  function IdsAt(node: Node, q: Position): seq<string>
    decreases node
  {
    (if node.at == q then [node.id] else []) + IdsAmong(node.children, q)
  }

  function IdsAmong(nodes: seq<Node>, q: Position): seq<string>
    decreases nodes
  {
    if nodes == [] then [] else IdsAmong(nodes[..|nodes| - 1], q) + IdsAt(nodes[|nodes| - 1], q)
  }

  // ---- The lookup walk -------------------------------------------------------------------

  /** The first object of that identifier; a null object is as good as none. */
  function Walk(acc: Acc, at: Position, parts: seq<string>, index: nat, id: string): Option<Position>
    decreases acc, 1, 0
  {
    var part := Part(acc, parts, index);
    if PathText(parts + [part]) == id && !acc.isNull then Some(at)
    else WalkChildren(acc, at, parts + [part], 0, id)
  }

  function WalkChildren(acc: Acc, at: Position, parts: seq<string>, i: nat, id: string): Option<Position>
    decreases acc, 0, |acc.children| - i
  {
    if i >= Min(|acc.children|, MAX_WALK_CHILDREN) then None
    else
      var found := if acc.children[i].None? then None
                   else Walk(acc.children[i].value, at + [i], parts, i, id);
      if found.Some? then found else WalkChildren(acc, at, parts, i + 1, id)
  }

  /** An application that raises ends the whole lookup. */
  function FindByPath(apps: seq<Option<Acc>>, i: nat, id: string): Option<Position>
    decreases |apps| - i
  {
    if i >= Min(|apps|, MAX_APPLICATIONS) || apps[i].None? then None
    else
      var found := Walk(apps[i].value, [i], [], i, id);
      if found.Some? then found else FindByPath(apps, i + 1, id)
  }

  function Lookup(apps: seq<Option<Acc>>, id: string): Option<Position> { FindByPath(apps, 0, id) }
}

module SelectorRoundTrip {
  import opened Wrappers
  import opened Accessibles
  import opened AtspiIdentity
  import opened AtspiTree
  import opened Texts

  /** The identifier of the node `p` below a node whose own parts are `parts`. */
  function IdBelow(acc: Acc, parts: seq<string>, p: Position, limit: nat): string
    requires Below(acc, p, limit).Some?
  {
    PathText(parts + PartsBelow(acc, p, limit))
  }

  lemma IdBelowStep(acc: Acc, parts: seq<string>, p: Position, limit: nat)
    requires p != [] && Below(acc, p, limit).Some?
    ensures var child := acc.children[p[0]].value;
            IdBelow(acc, parts, p, limit) == IdBelow(child, parts + [ChildPart(child, p[0])], p[1..], limit)
  {
    var child := acc.children[p[0]].value;
    assert parts + PartsBelow(acc, p, limit) == parts + [ChildPart(child, p[0])] + PartsBelow(child, p[1..], limit);
  }

  // ---- What the walk finds ---------------------------------------------------------------

  /** A walk that ended at the node `p` below one whose parts are `own`, which has the wanted identifier. */
  ghost predicate Found(acc: Acc, at: Position, own: seq<string>, p: Position, r: Option<Position>, id: string) {
    && r == Some(at + p) && Below(acc, p, MAX_WALK_CHILDREN).Some? && !Below(acc, p, MAX_WALK_CHILDREN).value.isNull
    && IdBelow(acc, own, p, MAX_WALK_CHILDREN) == id
  }

  /** A walk that finds something finds a node with the wanted identifier. */
  lemma {:induction false} WalkSound(acc: Acc, at: Position, parts: seq<string>, index: nat, id: string)
    requires Walk(acc, at, parts, index, id).Some?
    ensures exists p :: Found(acc, at, parts + [Part(acc, parts, index)], p, Walk(acc, at, parts, index, id), id)
    decreases acc, 1, 0
  {
    var own := parts + [Part(acc, parts, index)];
    if PathText(own) == id && !acc.isNull {
      assert own + [] == own && at + [] == at;
      assert Found(acc, at, own, [], Some(at), id);
    } else {
      WalkChildrenSound(acc, at, own, 0, id);
    }
  }

  lemma {:induction false} WalkChildrenSound(acc: Acc, at: Position, own: seq<string>, i: nat, id: string)
    requires own != [] && WalkChildren(acc, at, own, i, id).Some?
    ensures exists p :: Found(acc, at, own, p, WalkChildren(acc, at, own, i, id), id)
    decreases acc, 0, |acc.children| - i
  {
    if acc.children[i].Some? && Walk(acc.children[i].value, at + [i], own, i, id).Some? {
      var child := acc.children[i].value;
      WalkSound(child, at + [i], own, i, id);
      var r := Walk(child, at + [i], own, i, id);
      var p :| Found(child, at + [i], own + [ChildPart(child, i)], p, r, id);
      FoundBelow(acc, at, own, i, p, r, id);
    } else {
      WalkChildrenSound(acc, at, own, i + 1, id);
    }
  }

  lemma FoundBelow(acc: Acc, at: Position, own: seq<string>, i: nat, p: Position, r: Option<Position>, id: string)
    requires own != [] && i < Min(|acc.children|, MAX_WALK_CHILDREN) && acc.children[i].Some?
    requires var child := acc.children[i].value; Found(child, at + [i], own + [ChildPart(child, i)], p, r, id)
    ensures Found(acc, at, own, [i] + p, r, id)
  {
    assert ([i] + p)[1..] == p && at + [i] + p == at + ([i] + p);
    IdBelowStep(acc, own, [i] + p, MAX_WALK_CHILDREN);
  }

  /** A walk misses no object with the wanted identifier. */
  lemma {:induction false} WalkComplete(acc: Acc, at: Position, parts: seq<string>, index: nat, p: Position)
    requires Below(acc, p, MAX_WALK_CHILDREN).Some? && !Below(acc, p, MAX_WALK_CHILDREN).value.isNull
    ensures Walk(acc, at, parts, index, IdBelow(acc, parts + [Part(acc, parts, index)], p, MAX_WALK_CHILDREN)).Some?
    decreases |p|, 0
  {
    var own := parts + [Part(acc, parts, index)];
    if p == [] {
      assert own + [] == own;
    } else {
      var id := IdBelow(acc, own, p, MAX_WALK_CHILDREN);
      var child := acc.children[p[0]].value;
      IdBelowStep(acc, own, p, MAX_WALK_CHILDREN);
      WalkComplete(child, at + [p[0]], own, p[0], p[1..]);
      ReachesChild(acc, at, own, 0, p[0], id);
    }
  }

  lemma {:induction false} ReachesChild(acc: Acc, at: Position, own: seq<string>, i: nat, k: nat, id: string)
    requires i <= k < Min(|acc.children|, MAX_WALK_CHILDREN) && acc.children[k].Some?
    requires Walk(acc.children[k].value, at + [k], own, k, id).Some?
    ensures WalkChildren(acc, at, own, i, id).Some?
    decreases k - i
  {
    if i == k {
    } else {
      ReachesChild(acc, at, own, i + 1, k, id);
    }
  }

  lemma {:induction false} FindSound(apps: seq<Option<Acc>>, i: nat, id: string)
    requires FindByPath(apps, i, id).Some?
    ensures var p := FindByPath(apps, i, id).value;
            && At(apps, p, MAX_WALK_CHILDREN).Some? && !At(apps, p, MAX_WALK_CHILDREN).value.isNull
            && IdAt(apps, p, MAX_WALK_CHILDREN) == id
    decreases |apps| - i
  {
    var app := apps[i].value;
    if Walk(app, [i], [], i, id).Some? {
      WalkSound(app, [i], [], i, id);
      var p :| Found(app, [i], [] + [RootPart(app, i)], p, Walk(app, [i], [], i, id), id);
      assert ([i] + p)[1..] == p;
      assert [] + [RootPart(app, i)] == [RootPart(app, i)];
    } else {
      FindSound(apps, i + 1, id);
    }
  }

  /** No application before `n` raises when it is fetched. */
  predicate Fetchable(apps: seq<Option<Acc>>, n: nat)
    requires n <= |apps|
  {
    forall k | 0 <= k < n :: apps[k].Some?
  }

  lemma {:induction false} FindComplete(apps: seq<Option<Acc>>, i: nat, p: Position)
    requires At(apps, p, MAX_WALK_CHILDREN).Some? && !At(apps, p, MAX_WALK_CHILDREN).value.isNull
    requires i <= p[0] && Fetchable(apps, p[0])
    ensures FindByPath(apps, i, IdAt(apps, p, MAX_WALK_CHILDREN)).Some?
    decreases p[0] - i
  {
    if i < p[0] {
      FindComplete(apps, i + 1, p);
    } else {
      WalkComplete(apps[i].value, [i], [], i, p[1..]);
      assert [] + [RootPart(apps[i].value, i)] == [RootPart(apps[i].value, i)];
    }
  }

  lemma {:induction false} FindStops(apps: seq<Option<Acc>>, i: nat, k: nat, id: string)
    requires i <= k < Min(|apps|, MAX_APPLICATIONS) && apps[k].None?
    ensures FindByPath(apps, i, id).Some? ==>
              FindByPath(apps, i, id).value != [] && FindByPath(apps, i, id).value[0] < k
    decreases k - i
  {
    if i < k && apps[i].Some? {
      if Walk(apps[i].value, [i], [], i, id).Some? {
        WalkSound(apps[i].value, [i], [], i, id);
      } else {
        FindStops(apps, i + 1, k, id);
      }
    }
  }

  // ---- What the tree shows ---------------------------------------------------------------

  lemma IdsAmongConcat(a: seq<Node>, node: Node, q: Position)
    ensures IdsAmong(a + [node], q) == IdsAmong(a, q) + IdsAt(node, q)
  {
    assert (a + [node])[..|a|] == a;
  }

  /** Whether a tree read at `at`, `depth` levels down, shows the accessible at `q`. */
  predicate ShowsBelow(acc: Acc, at: Position, depth: nat, q: Position) {
    at <= q && depth + |q| - |at| <= MAX_DEPTH && Below(acc, q[|at|..], MAX_TREE_CHILDREN).Some?
  }

  lemma {:induction false} ShownIds(acc: Acc, at: Position, parts: seq<string>, index: nat, depth: nat, q: Position)
    requires depth <= MAX_DEPTH
    ensures IdsAt(Shown(acc, at, parts, index, depth), q) ==
            if ShowsBelow(acc, at, depth, q)
            then [IdBelow(acc, parts + [Part(acc, parts, index)], q[|at|..], MAX_TREE_CHILDREN)] else []
    decreases acc, 1, 0
  {
    var own := parts + [Part(acc, parts, index)];
    var node := Shown(acc, at, parts, index, depth);
    if at == q {
      assert q[|at|..] == [] && own + [] == own;
    }
    if depth < MAX_DEPTH { ShownBelowIds(acc, at, own, depth, q); }
  }

  lemma {:induction false} ShownBelowIds(acc: Acc, at: Position, own: seq<string>, depth: nat, q: Position)
    requires depth < MAX_DEPTH && own != []
    ensures IdsAmong(ShownChildren(acc, at, own, Min(|acc.children|, MAX_TREE_CHILDREN), depth), q) ==
            if ShowsBelow(acc, at, depth, q) && |q| > |at|
            then [IdBelow(acc, own, q[|at|..], MAX_TREE_CHILDREN)] else []
    decreases acc, 0, |acc.children| + 3
  {
    var n := Min(|acc.children|, MAX_TREE_CHILDREN);
    var shows := ShowsBelow(acc, at, depth, q) && |q| > |at|;
    var next := if shows then q[|at|] else 0;
    var id := if shows then IdBelow(acc, own, q[|at|..], MAX_TREE_CHILDREN) else "";
    ShownChildrenIds(acc, at, own, n, depth, q, shows, next, id);
    ShowsChild(acc, at, depth, q);
  }

  /** Whether `q` is shown below a child, which child that is, and the identifier of `q`. */
  predicate Names(acc: Acc, at: Position, own: seq<string>, depth: nat, q: Position, shows: bool, next: nat, id: string)
    requires own != []
  {
    && (shows <==> ShowsBelow(acc, at, depth, q) && |q| > |at|)
    && (shows ==> next == q[|at|] && id == IdBelow(acc, own, q[|at|..], MAX_TREE_CHILDREN))
  }

  /** The identifiers that child `k` contributes. */
  function ChildIds(acc: Acc, at: Position, own: seq<string>, k: nat, depth: nat, q: Position): seq<string>
    requires k < |acc.children|
  {
    match acc.children[k]
    case None => []
    case Some(child) => IdsAt(Shown(child, at + [k], own, k, depth + 1), q)
  }

  function OneId(shows: bool, next: nat, k: nat, id: string): seq<string> {
    if shows && next == k then [id] else []
  }

  /** The identifiers of the children before `n`. */
  function IdsUpTo(shows: bool, next: nat, n: nat, id: string): seq<string> {
    if shows && next < n then [id] else []
  }

  lemma OneMore(shows: bool, next: nat, n: nat, id: string)
    requires n > 0
    ensures IdsUpTo(shows, next, n, id) == IdsUpTo(shows, next, n - 1, id) + OneId(shows, next, n - 1, id)
  {
  }

  lemma OneMoreChild(acc: Acc, at: Position, own: seq<string>, n: nat, depth: nat, q: Position)
    requires 0 < n <= |acc.children|
    ensures IdsAmong(ShownChildren(acc, at, own, n, depth), q) ==
            IdsAmong(ShownChildren(acc, at, own, n - 1, depth), q) + ChildIds(acc, at, own, n - 1, depth, q)
  {
    var before := ShownChildren(acc, at, own, n - 1, depth);
    match acc.children[n - 1]
    case Some(child) => IdsAmongConcat(before, Shown(child, at + [n - 1], own, n - 1, depth + 1), q);
    case None => assert before + [] == before;
  }

  /** The children that are shown hold the one identifier, if it is that of a child before `n`. */
  lemma {:induction false} ShownChildrenIds(acc: Acc, at: Position, own: seq<string>, n: nat, depth: nat, q: Position,
                                            shows: bool, next: nat, id: string)
    requires depth < MAX_DEPTH && own != [] && n <= Min(|acc.children|, MAX_TREE_CHILDREN)
    requires Names(acc, at, own, depth, q, shows, next, id)
    ensures IdsAmong(ShownChildren(acc, at, own, n, depth), q) == IdsUpTo(shows, next, n, id)
    decreases acc, 0, n + 2
  {
    if n == 0 {
    } else {
      ShownChildrenIds(acc, at, own, n - 1, depth, q, shows, next, id);
      ChildOne(acc, at, own, n - 1, depth, q, shows, next, id);
      OneMoreChild(acc, at, own, n, depth, q);
      OneMore(shows, next, n, id);
    }
  }

  lemma {:induction false} ChildOne(acc: Acc, at: Position, own: seq<string>, k: nat, depth: nat, q: Position,
                                    shows: bool, next: nat, id: string)
    requires depth < MAX_DEPTH && own != [] && k < Min(|acc.children|, MAX_TREE_CHILDREN)
    requires Names(acc, at, own, depth, q, shows, next, id)
    ensures ChildIds(acc, at, own, k, depth, q) == OneId(shows, next, k, id)
    decreases acc, 0, 1
  {
    if acc.children[k].Some? {
      ShownChildIds(acc, at, own, k, depth, q);
    } else {
      MissingChildHidesNothing(acc, at, k, depth, q);
    }
  }

  /** What is shown below the node itself is shown below one of its children. */
  lemma ShowsChild(acc: Acc, at: Position, depth: nat, q: Position)
    ensures ShowsBelow(acc, at, depth, q) && |q| > |at| ==> q[|at|] < Min(|acc.children|, MAX_TREE_CHILDREN)
  {
    if ShowsBelow(acc, at, depth, q) && |q| > |at| { assert q[|at|..][0] == q[|at|]; }
  }

  lemma {:induction false} ShownChildIds(acc: Acc, at: Position, own: seq<string>, k: nat, depth: nat, q: Position)
    requires depth < MAX_DEPTH && own != [] && k < Min(|acc.children|, MAX_TREE_CHILDREN) && acc.children[k].Some?
    ensures IdsAt(Shown(acc.children[k].value, at + [k], own, k, depth + 1), q) ==
            if ShowsBelow(acc, at, depth, q) && |q| > |at| && q[|at|] == k
            then [IdBelow(acc, own, q[|at|..], MAX_TREE_CHILDREN)] else []
    decreases acc, 0, 0
  {
    var child := acc.children[k].value;
    ShownIds(child, at + [k], own, k, depth + 1, q);
    ChildShows(acc, at, k, depth, q);
    if ShowsBelow(child, at + [k], depth + 1, q) {
      IdBelowStep(acc, own, q[|at|..], MAX_TREE_CHILDREN);
      assert q[|at|..][1..] == q[|at| + 1..];
    }
  }

  lemma MissingChildHidesNothing(acc: Acc, at: Position, k: nat, depth: nat, q: Position)
    requires k < |acc.children| && acc.children[k].None?
    ensures !(ShowsBelow(acc, at, depth, q) && |q| > |at| && q[|at|] == k)
  {
    if ShowsBelow(acc, at, depth, q) && |q| > |at| { assert q[|at|..][0] == q[|at|]; }
  }

  lemma ChildShows(acc: Acc, at: Position, k: nat, depth: nat, q: Position)
    requires k < Min(|acc.children|, MAX_TREE_CHILDREN) && acc.children[k].Some?
    ensures ShowsBelow(acc.children[k].value, at + [k], depth + 1, q) <==>
            ShowsBelow(acc, at, depth, q) && |q| > |at| && q[|at|] == k
  {
    if at <= q && |q| > |at| && q[|at|] == k {
      assert q[..|at| + 1] == at + [k];
      assert q[|at|..][0] == k && q[|at|..][1..] == q[|at| + 1..];
    }
  }

  function AppIds(apps: seq<Option<Acc>>, k: nat, q: Position): seq<string>
    requires k < |apps|
  {
    match apps[k]
    case None => []
    case Some(app) => IdsAt(Shown(app, [k], [], k, 0), q)
  }

  lemma OneMoreApp(apps: seq<Option<Acc>>, n: nat, q: Position)
    requires 0 < n <= |apps|
    ensures IdsAmong(ShownApps(apps, n), q) == IdsAmong(ShownApps(apps, n - 1), q) + AppIds(apps, n - 1, q)
  {
    var before := ShownApps(apps, n - 1);
    match apps[n - 1]
    case Some(app) => IdsAmongConcat(before, Shown(app, [n - 1], [], n - 1, 0), q);
    case None => assert before + [] == before;
  }

  lemma AppOne(apps: seq<Option<Acc>>, k: nat, q: Position, shows: bool, first: nat, id: string)
    requires k < Min(|apps|, MAX_APPLICATIONS) && (shows <==> Emitted(apps, q))
    requires shows ==> first == q[0] && id == IdAt(apps, q, MAX_TREE_CHILDREN)
    ensures AppIds(apps, k, q) == OneId(shows, first, k, id)
  {
    if apps[k].Some? { ShownAppIds(apps, k, q); }
  }

  /** The applications that are shown hold the one identifier, if it is that of one before `n`. */
  lemma {:induction false} ShownAppsIds(apps: seq<Option<Acc>>, n: nat, q: Position, shows: bool, first: nat,
                                        id: string)
    requires n <= |apps| && AppsShow(apps, n, q, shows, first, id)
    ensures IdsAmong(ShownApps(apps, n), q) == IdsUpTo(shows, first, n, id)
  {
    if n == 0 {
    } else {
      ShownAppsIds(apps, n - 1, q, shows, first, id);
      OneMoreApp(apps, n, q);
      OneMore(shows, first, n, id);
    }
  }

  predicate AppsShow(apps: seq<Option<Acc>>, n: nat, q: Position, shows: bool, first: nat, id: string)
    requires n <= |apps|
  {
    n == 0 || (AppsShow(apps, n - 1, q, shows, first, id) && AppIds(apps, n - 1, q) == OneId(shows, first, n - 1, id))
  }

  lemma {:induction false} AllAppsShow(apps: seq<Option<Acc>>, n: nat, q: Position, shows: bool, first: nat, id: string)
    requires n <= Min(|apps|, MAX_APPLICATIONS) && (shows <==> Emitted(apps, q))
    requires shows ==> first == q[0] && id == IdAt(apps, q, MAX_TREE_CHILDREN)
    ensures AppsShow(apps, n, q, shows, first, id)
  {
    if n == 0 {
    } else {
      AllAppsShow(apps, n - 1, q, shows, first, id);
      AppOne(apps, n - 1, q, shows, first, id);
    }
  }

  lemma ShownAppIds(apps: seq<Option<Acc>>, k: nat, q: Position)
    requires k < Min(|apps|, MAX_APPLICATIONS) && apps[k].Some?
    ensures IdsAt(Shown(apps[k].value, [k], [], k, 0), q) ==
            if Emitted(apps, q) && q[0] == k then [IdAt(apps, q, MAX_TREE_CHILDREN)] else []
  {
    var app := apps[k].value;
    ShownIds(app, [k], [], k, 0, q);
    assert [] + [RootPart(app, k)] == [RootPart(app, k)];
    assert ([k] <= q) == (q != [] && q[0] == k);
  }

  lemma ChildrenShowEmitted(apps: seq<Option<Acc>>, q: Position)
    ensures IdsAmong(ShownApps(apps, Min(|apps|, MAX_APPLICATIONS)), q) ==
            if Emitted(apps, q) then [IdAt(apps, q, MAX_TREE_CHILDREN)] else []
  {
    var n := Min(|apps|, MAX_APPLICATIONS);
    var shows := Emitted(apps, q);
    var first := if shows then q[0] else 0;
    var id := if shows then IdAt(apps, q, MAX_TREE_CHILDREN) else "";
    AllAppsShow(apps, n, q, shows, first, id);
    ShownAppsIds(apps, n, q, shows, first, id);
  }

  /** The published tree has one node for each published position, with its identifier. */
  lemma TreeShowsPublished(apps: seq<Option<Acc>>, q: Position)
    ensures IdsAt(Desktop(apps), q) == if Published(apps, q) then [IdOf(apps, q)] else []
  {
    ChildrenShowEmitted(apps, q);
  }

  // ---- The desktop is apart --------------------------------------------------------------

  /** The end of every component: a bracket or a digit. */
  predicate Closed(part: string) { part != "" && (part[|part| - 1] == ']' || '0' <= part[|part| - 1] <= '9') }

  lemma PartsClosed(acc: Acc, index: nat)
    ensures Closed(RootPart(acc, index)) && Closed(ChildPart(acc, index))
  {
    if acc.applicationId.Some? {
      var t := IntText(acc.applicationId.value);
      assert '0' <= t[|t| - 1] <= '9';
    }
  }

  lemma {:induction false} PartsBelowClosed(acc: Acc, p: Position, limit: nat)
    requires Below(acc, p, limit).Some?
    ensures forall i | 0 <= i < |PartsBelow(acc, p, limit)| :: Closed(PartsBelow(acc, p, limit)[i])
    decreases |p|
  {
    if p == [] {
    } else {
      var child := acc.children[p[0]].value;
      PartsClosed(child, p[0]);
      PartsBelowClosed(child, p[1..], limit);
    }
  }

  lemma {:induction false} JoinClosed(parts: seq<string>)
    requires parts != [] && forall i | 0 <= i < |parts| :: Closed(parts[i])
    ensures Closed(Join(parts, '/'))
  {
    if |parts| == 1 {
    } else {
      JoinClosed(parts[1..]);
      var s := Join(parts, '/');
      assert s == parts[0] + ['/'] + Join(parts[1..], '/');
    }
  }

  /** No node of an application has the identifier of the desktop. */
  lemma DesktopIsApart(apps: seq<Option<Acc>>, p: Position, limit: nat)
    requires At(apps, p, limit).Some?
    ensures IdAt(apps, p, limit) != DESKTOP_ID
  {
    PartsClosed(apps[p[0]].value, p[0]);
    PartsBelowClosed(apps[p[0]].value, p[1..], limit);
    var joined := Join(PartsAt(apps, p, limit), '/');
    JoinClosed(PartsAt(apps, p, limit));
    var id := IdAt(apps, p, limit);
    assert id == "/" + joined && id[|id| - 1] == joined[|joined| - 1];
    assert DESKTOP_ID[|DESKTOP_ID| - 1] == 'p';
  }

  // ---- Main results ----------------------------------------------------------------------

  /** Positions the published tree shows: at most 60 children of a node, six levels deep. */
  predicate Emitted(apps: seq<Option<Acc>>, p: Position) {
    At(apps, p, MAX_TREE_CHILDREN).Some? && |p| <= 1 + MAX_DEPTH
  }

  /** With the desktop itself, which is at the empty position. */
  predicate Published(apps: seq<Option<Acc>>, p: Position) { p == [] || Emitted(apps, p) }

  function IdOf(apps: seq<Option<Acc>>, p: Position): string
    requires Published(apps, p)
  {
    if p == [] then DESKTOP_ID else IdAt(apps, p, MAX_TREE_CHILDREN)
  }

  /** All identifiers of the tree are distinct exactly when the applications' components are. */
  lemma IdsDistinctIff(apps: seq<Option<Acc>>)
    requires CleanForest(apps)
    ensures RootsDistinct(apps) <==>
            forall p, q | Published(apps, p) && Published(apps, q) && p != q :: IdOf(apps, p) != IdOf(apps, q)
  {
    if RootsDistinct(apps) {
      forall p, q | Published(apps, p) && Published(apps, q) && p != q ensures IdOf(apps, p) != IdOf(apps, q) {
        TwoIdsDiffer(apps, p, q);
      }
    } else {
      var i: nat, j: nat :| i < j < Min(|apps|, MAX_APPLICATIONS) && apps[i].Some? && apps[j].Some? &&
                            RootPart(apps[i].value, i) == RootPart(apps[j].value, j);
      RootIds(apps, i);
      RootIds(apps, j);
      assert [i][0] != [j][0];
    }
  }

  lemma TwoIdsDiffer(apps: seq<Option<Acc>>, p: Position, q: Position)
    requires CleanForest(apps) && RootsDistinct(apps) && Published(apps, p) && Published(apps, q) && p != q
    ensures IdOf(apps, p) != IdOf(apps, q)
  {
    if p != [] { DesktopIsApart(apps, p, MAX_TREE_CHILDREN); }
    if q != [] { DesktopIsApart(apps, q, MAX_TREE_CHILDREN); }
    if p != [] && q != [] && IdOf(apps, p) == IdOf(apps, q) { IdDetermines(apps, p, q, MAX_TREE_CHILDREN); }
  }

  lemma RootIds(apps: seq<Option<Acc>>, i: nat)
    requires i < Min(|apps|, MAX_APPLICATIONS) && apps[i].Some?
    ensures Emitted(apps, [i]) && IdOf(apps, [i]) == PathText([RootPart(apps[i].value, i)])
  {
    assert [i][1..] == [];
    assert PartsAt(apps, [i], MAX_TREE_CHILDREN) == [RootPart(apps[i].value, i)];
  }

  /**
   Looking up a published identifier returns the very node it was published for, exactly when
   that is neither the desktop nor a null object and no application listed before it raises.
   */
  lemma SelectorRoundTripIff(apps: seq<Option<Acc>>, p: Position)
    requires CleanForest(apps) && RootsDistinct(apps) && Published(apps, p)
    ensures Lookup(apps, IdOf(apps, p)) == Some(p) <==>
            p != [] && Fetchable(apps, p[0]) && !At(apps, p, MAX_TREE_CHILDREN).value.isNull
    ensures p == [] || At(apps, p, MAX_TREE_CHILDREN).value.isNull ==> Lookup(apps, IdOf(apps, p)) == None
  {
    if p == [] {
      if Lookup(apps, DESKTOP_ID).Some? {
        FindSound(apps, 0, DESKTOP_ID);
        DesktopIsApart(apps, Lookup(apps, DESKTOP_ID).value, MAX_WALK_CHILDREN);
      }
    } else {
      EmittedRoundTripIff(apps, p);
    }
  }

  lemma EmittedRoundTripIff(apps: seq<Option<Acc>>, p: Position)
    requires CleanForest(apps) && RootsDistinct(apps) && Emitted(apps, p)
    ensures Lookup(apps, IdAt(apps, p, MAX_TREE_CHILDREN)) == Some(p) <==>
            Fetchable(apps, p[0]) && !At(apps, p, MAX_TREE_CHILDREN).value.isNull
    ensures At(apps, p, MAX_TREE_CHILDREN).value.isNull ==> Lookup(apps, IdAt(apps, p, MAX_TREE_CHILDREN)) == None
  {
    AtWidens(apps, p, MAX_TREE_CHILDREN, MAX_WALK_CHILDREN);
    var id := IdAt(apps, p, MAX_WALK_CHILDREN);
    if At(apps, p, MAX_TREE_CHILDREN).value.isNull {
      if Lookup(apps, id).Some? {
        FindSound(apps, 0, id);
        IdDetermines(apps, Lookup(apps, id).value, p, MAX_WALK_CHILDREN);
      }
    } else if Fetchable(apps, p[0]) {
      FindComplete(apps, 0, p);
      FindSound(apps, 0, id);
      IdDetermines(apps, Lookup(apps, id).value, p, MAX_WALK_CHILDREN);
    } else {
      var k :| 0 <= k < p[0] && apps[k].None?;
      FindStops(apps, 0, k, id);
    }
  }

  /** A selector that is published and not found, behind an application that raises. */
  lemma SelectorNotFound() returns (apps: seq<Option<Acc>>, p: Position)
    ensures CleanForest(apps) && RootsDistinct(apps) && Emitted(apps, p)
    ensures Lookup(apps, IdOf(apps, p)) != Some(p)
  {
    apps, p := [None, Some(Acc(false, "", "app", None, []))], [1];
    RootIds(apps, 1);
    assert apps[0].None?;
    SelectorRoundTripIff(apps, p);
  }

  /** Nor is a null object, which is published as a node without a role. */
  lemma NullNotFound() returns (apps: seq<Option<Acc>>, p: Position)
    ensures CleanForest(apps) && RootsDistinct(apps) && Emitted(apps, p) && Fetchable(apps, p[0])
    ensures Lookup(apps, IdOf(apps, p)) == None
  {
    apps, p := [Some(NULL)], [0];
    RootIds(apps, 0);
    assert p[1..] == [] && At(apps, p, MAX_TREE_CHILDREN) == Some(NULL);
    SelectorRoundTripIff(apps, p);
  }

  /** A role with a '/' can give two nodes one identifier. */
  lemma SlashInRoleCollides() returns (apps: seq<Option<Acc>>, p: Position, q: Position)
    ensures RootsDistinct(apps) && Emitted(apps, p) && Emitted(apps, q) && p != q
    ensures IdAt(apps, p, MAX_TREE_CHILDREN) == IdAt(apps, q, MAX_TREE_CHILDREN)
  {
    var leaf := Acc(false, "", "y", None, []);
    var inner := Acc(false, "", "x", None, [None, Some(leaf)]);
    var slashed := Acc(false, "", "x[0]/y", None, []);
    var app := Acc(false, "", "app", None, [Some(inner), Some(slashed)]);
    apps := [Some(app)];
    p, q := [0, 0, 1], [0, 1];
    assert p[1..] == [0, 1] && p[1..][1..] == [1] && p[1..][1..][1..] == [] && q[1..] == [1] && q[1..][1..] == [];
    var L := MAX_TREE_CHILDREN;
    assert Below(inner, [1], L) == Some(leaf);
    assert Below(app, [0, 1], L) == Some(leaf) && Below(app, [1], L) == Some(slashed);
    var root, zero, one := RootPart(app, 0), NatText(0), NatText(1);
    Digit(0);
    assert ChildPart(inner, 0) == "x[0]" && PartsBelow(inner, [1], L) == [ChildPart(leaf, 1)];
    assert PartsBelow(app, [0, 1], L) == [ChildPart(inner, 0), ChildPart(leaf, 1)];
    assert PartsBelow(app, [1], L) == [ChildPart(slashed, 1)];
    assert PartsAt(apps, p, L) == [root, "x[0]", ChildPart(leaf, 1)];
    assert PartsAt(apps, q, L) == [root, ChildPart(slashed, 1)];
    assert "x[0]" + "/" + ChildPart(leaf, 1) == ChildPart(slashed, 1);
    var s := [root, "x[0]", ChildPart(leaf, 1)];
    assert s[1..] == ["x[0]", ChildPart(leaf, 1)] && s[1..][1..] == [ChildPart(leaf, 1)];
    assert Join(s[1..], '/') == "x[0]" + ['/'] + ChildPart(leaf, 1);
    assert Join([root, ChildPart(slashed, 1)], '/') == root + ['/'] + Join([root, ChildPart(slashed, 1)][1..], '/');
  }

  lemma Digit(n: nat)
    requires n < 10
    ensures NatText(n) == [DigitChar(n)]
  {
  }
}
