/** The authorization tree as objects (xhttp/authz/authz.go): nodes with child maps, changed in
    place by the Allow calls, walked by isAllowed, copied node by node by Clone. */
module Authz {
  import opened AuthzRules

  class PathNode {
    var value: string
    var children: map<string, PathNode>
    var allowedRoles: set<string>
    var allow: set<AllowType>

    constructor (pathItem: string)
      ensures value == pathItem && children == map[] && allowedRoles == {} && allow == {}
    {
      value, children, allowedRoles, allow := pathItem, map[], {}, {};
    }

    ghost function Rule(): Rule
      reads this
    {
      AuthzRules.Rule(allow, allowedRoles)
    }
  }

  type Nodes = map<Path, PathNode>

  function Parent(q: Path): Path
    requires q != []
  {
    q[..|q| - 1]
  }

  function Last(q: Path): string
    requires q != []
  {
    q[|q| - 1]
  }

  lemma Snoc(p: Path, s: string)
    ensures Parent(p + [s]) == p && Last(p + [s]) == s
  {}

  /** The child maps of a set of nodes, by path. */
  type Kids = map<Path, map<string, PathNode>>

  ghost function KidsOf(nodes: Nodes): Kids
    reads nodes.Values
  {
    map p | p in nodes :: nodes[p].children
  }

  lemma KidsAre(nodes: Nodes, kids: Kids)
    requires nodes.Keys == kids.Keys && forall p | p in nodes :: nodes[p].children == kids[p]
    ensures KidsOf(nodes) == kids
  {}

  /** The node of a longer path is the child that its last segment names. */
  ghost predicate ChildOf(nodes: Nodes, kids: Kids, q: Path) {
    q != [] && q in nodes ==>
      && Parent(q) in kids
      && Last(q) in kids[Parent(q)]
      && kids[Parent(q)][Last(q)] == nodes[q]
  }

  /** Every child of the node of p is in nodes. */
  ghost predicate Closed(nodes: Nodes, kids: Kids, p: Path) {
    p in kids ==> forall s | s in kids[p] :: p + [s] in nodes
  }

  /** Child edges and paths agree, and two paths never share a node. */
  ghost predicate Links(nodes: Nodes, kids: Kids) {
    && nodes.Keys == kids.Keys
    && (forall p :: ChildOf(nodes, kids, p))
    && (forall p :: Closed(nodes, kids, p))
    && (forall p, q | p in nodes && q <= p :: q in nodes)
    && (forall p, q | p in nodes && q in nodes && nodes[p] == nodes[q] :: p == q)
  }

  /** Links after a node without children is inserted. */
  lemma LinksInsert(nodes: Nodes, kids: Kids, at: Path, s: string, child: PathNode)
    requires Links(nodes, kids) && at in nodes && s !in kids[at] && child !in nodes.Values
    ensures at + [s] !in nodes
    ensures Links(nodes[at + [s] := child], kids[at := kids[at][s := child]][at + [s] := map[]])
  {
    var q0 := at + [s];
    var nodes', kids' := nodes[q0 := child], kids[at := kids[at][s := child]][q0 := map[]];
    Snoc(at, s);
    assert ChildOf(nodes, kids, q0);
    forall p ensures ChildOf(nodes', kids', p) {
      assert ChildOf(nodes, kids, p);
      if p != [] && p in nodes && Parent(p) == at {
        assert p == at + [Last(p)];
      }
    }
    forall p ensures Closed(nodes', kids', p) {
      assert Closed(nodes, kids, p);
    }
    forall p, q | p in nodes' && q <= p ensures q in nodes' {
      if p == q0 && q != q0 { assert q <= at; }
    }
  }

  ghost function RulesOf(nodes: Nodes): Rules
    reads nodes.Values
  {
    map p | p in nodes :: nodes[p].Rule()
  }

  lemma SameKeys(nodes: Nodes, kids: Kids)
    requires Links(nodes, kids)
    ensures nodes.Keys == kids.Keys
  {}

  lemma SameRules(sub: Nodes, nodes: Nodes, rules: Rules)
    requires sub.Keys == rules.Keys && SameRule(sub, nodes)
    requires forall p | p in nodes && p in rules :: nodes[p].Rule() == rules[p]
    ensures RulesOf(sub) == rules
  {}

  // ----- Copies -----

  function Under(kids: Kids, at: Path): set<Path> {
    set p | p in kids && at <= p
  }

  /** at itself and the paths below it that start with a segment in done. */
  function Part(kids: Kids, at: Path, done: set<string>): set<Path> {
    set p | p in kids && at <= p && (p == at || p[|at|] in done)
  }

  /** sub copies the subtree at path at, as far as the children in done go. */
  ghost predicate CopyPart(kids: Kids, at: Path, done: set<string>, sub: Nodes, subKids: Kids) {
    && at in kids
    && sub.Keys == subKids.Keys == Part(kids, at, done)
    && subKids[at].Keys == done
    && (forall p | p in sub && p != at :: subKids[p].Keys == kids[p].Keys)
    && (forall p | p in sub :: ChildrenIn(sub, subKids, p))
    && (forall p, q | p in sub && q in sub && sub[p] == sub[q] :: p == q)
  }

  ghost predicate ChildrenIn(sub: Nodes, subKids: Kids, p: Path)
    requires p in subKids
  {
    forall s | s in subKids[p] :: p + [s] in sub && subKids[p][s] == sub[p + [s]]
  }

  ghost predicate Copy(kids: Kids, at: Path, sub: Nodes, subKids: Kids) {
    at in kids && CopyPart(kids, at, kids[at].Keys, sub, subKids)
  }

  lemma PartWhole(nodes: Nodes, kids: Kids, at: Path)
    requires Links(nodes, kids) && at in nodes
    ensures Part(kids, at, kids[at].Keys) == Under(kids, at)
  {
    forall p | p in Under(kids, at) && p != at ensures p[|at|] in kids[at].Keys {
      var q := p[..|at| + 1];
      assert q <= p && q in nodes;
      assert ChildOf(nodes, kids, q);
      assert Parent(q) == at;
    }
  }

  lemma PartStep(nodes: Nodes, kids: Kids, at: Path, done: set<string>, k: string)
    requires Links(nodes, kids) && at in nodes && k in kids[at]
    ensures at + [k] in nodes && kids[at][k] == nodes[at + [k]]
    ensures Part(kids, at, done + {k}) == Part(kids, at, done) + Under(kids, at + [k])
    ensures Under(kids, at + [k]) < Under(kids, at)
    ensures k !in done ==> Part(kids, at, done) !! Under(kids, at + [k])
  {
    Snoc(at, k);
    assert Closed(nodes, kids, at);
    assert ChildOf(nodes, kids, at + [k]);
    assert at in Under(kids, at) && at !in Under(kids, at + [k]);
    forall p ensures at + [k] <= p <==> at <= p && p != at && p[|at|] == k {
      if at <= p && p != at && p[|at|] == k {
        assert p[..|at| + 1] == at + [k];
      }
    }
  }

  lemma CopyStep(nodes: Nodes, kids: Kids, at: Path, done: set<string>, k: string,
                 sub: Nodes, subKids: Kids, more: Nodes, moreKids: Kids)
    requires Links(nodes, kids) && CopyPart(kids, at, done, sub, subKids)
    requires k in kids[at] && k !in done && Copy(kids, at + [k], more, moreKids)
    requires sub.Values !! more.Values
    ensures CopyPart(kids, at, done + {k}, sub + more,
                     (subKids + moreKids)[at := subKids[at][k := more[at + [k]]]])
  {
    hide Links, Under, Part, ChildrenIn;
    SameKeys(nodes, kids);
    CopyFacts(kids, at, done, sub, subKids);
    NotBelow(kids, at, k, more, moreKids);
    PartStep(nodes, kids, at, done, k);
    PartWhole(nodes, kids, at + [k]);
    JoinChildren(at, k, sub, subKids, more, moreKids);
    var all, allKids := sub + more, (subKids + moreKids)[at := subKids[at][k := more[at + [k]]]];
    JoinKeys(sub, more);
    JoinKeys(subKids, moreKids);
    AddKey(subKids + moreKids, at, allKids[at]);
    AddKey(subKids[at], k, more[at + [k]]);
    JoinDistinct(sub, more);
  }

  lemma JoinKeys<K, V>(a: map<K, V>, b: map<K, V>)
    ensures (a + b).Keys == a.Keys + b.Keys
  {}

  lemma AddKey<K, V>(m: map<K, V>, k: K, v: V)
    ensures m[k := v].Keys == m.Keys + {k}
    ensures k in m ==> m[k := v].Keys == m.Keys
  {}

  lemma JoinDistinct<K, V>(sub: map<K, V>, more: map<K, V>)
    requires sub.Keys !! more.Keys && sub.Values !! more.Values
    requires forall p, q | p in sub && q in sub && sub[p] == sub[q] :: p == q
    requires forall p, q | p in more && q in more && more[p] == more[q] :: p == q
    ensures var all := sub + more; forall p, q | p in all && q in all && all[p] == all[q] :: p == q
  {
    var all := sub + more;
    assert forall p | p in all :: if p in more then all[p] in more.Values else all[p] in sub.Values;
  }

  lemma JoinChildren(at: Path, k: string, sub: Nodes, subKids: Kids, more: Nodes, moreKids: Kids)
    requires at in sub && at + [k] in more
    requires sub.Keys == subKids.Keys && more.Keys == moreKids.Keys && sub.Keys !! more.Keys
    requires (forall p | p in sub :: ChildrenIn(sub, subKids, p))
    requires (forall p | p in more :: ChildrenIn(more, moreKids, p))
    ensures var all, allKids := sub + more, (subKids + moreKids)[at := subKids[at][k := more[at + [k]]]];
            forall p | p in all :: ChildrenIn(all, allKids, p)
  {}

  /** A copy of a whole tree is a tree with the same paths. */
  lemma CopyIsTree(nodes: Nodes, kids: Kids, sub: Nodes, subKids: Kids)
    requires Links(nodes, kids) && [] in nodes && Copy(kids, [], sub, subKids)
    ensures Links(sub, subKids) && sub.Keys == nodes.Keys
  {
    PartWhole(nodes, kids, []);
    assert Under(kids, []) == kids.Keys;
    CopyLinks(nodes, kids, sub, subKids);
  }

  lemma CopyLinks(nodes: Nodes, kids: Kids, sub: Nodes, subKids: Kids)
    requires nodes.Keys == kids.Keys == sub.Keys == subKids.Keys
    requires forall p :: ChildOf(nodes, kids, p)
    requires forall p | p in sub :: subKids[p].Keys == kids[p].Keys && ChildrenIn(sub, subKids, p)
    ensures (forall p :: ChildOf(sub, subKids, p)) && (forall p :: Closed(sub, subKids, p))
  {
    hide ChildOf, Closed, ChildrenIn;
    forall p ensures ChildOf(sub, subKids, p) {
      assert ChildOf(nodes, kids, p);
      CopyChild(nodes, kids, sub, subKids, p);
    }
    forall p ensures Closed(sub, subKids, p) {
      ClosedAt(sub, subKids, p);
    }
  }

  lemma CopyChild(nodes: Nodes, kids: Kids, sub: Nodes, subKids: Kids, p: Path)
    requires nodes.Keys == kids.Keys == sub.Keys == subKids.Keys && ChildOf(nodes, kids, p)
    requires forall q | q in sub :: subKids[q].Keys == kids[q].Keys && ChildrenIn(sub, subKids, q)
    ensures ChildOf(sub, subKids, p)
  {
    hide ChildrenIn, Parent, Last;
    if p != [] && p in sub {
      ParentLast(p);
      ChildIs(sub, subKids, Parent(p), Last(p));
    }
  }

  lemma ParentLast(p: Path)
    requires p != []
    ensures Parent(p) + [Last(p)] == p
  {}

  lemma ChildIs(sub: Nodes, subKids: Kids, q: Path, s: string)
    requires q in subKids && s in subKids[q] && ChildrenIn(sub, subKids, q)
    ensures q + [s] in sub && subKids[q][s] == sub[q + [s]]
  {}

  lemma ClosedAt(sub: Nodes, subKids: Kids, p: Path)
    requires p in subKids ==> ChildrenIn(sub, subKids, p)
    ensures Closed(sub, subKids, p)
  {}

  lemma CopyStart(kids: Kids, at: Path, c: PathNode)
    requires at in kids
    ensures CopyPart(kids, at, {}, map[at := c], map[at := map[]])
  {}

  /** A copy of the node of a path, without its children. */
  lemma Alone(nodes: Nodes, kids: Kids, at: Path, c: PathNode)
    requires at in kids && at in nodes && c.children == map[] && c.Rule() == nodes[at].Rule()
    ensures var sub := map[at := c]; CopyPart(kids, at, {}, sub, KidsOf(sub)) && SameRule(sub, nodes)
  {
    CopyStart(kids, at, c);
    KidsAre(map[at := c], map[at := map[]]);
  }

  lemma CopyFacts(kids: Kids, at: Path, done: set<string>, sub: Nodes, subKids: Kids)
    requires CopyPart(kids, at, done, sub, subKids)
    ensures at in sub && sub.Keys == subKids.Keys && sub.Keys <= kids.Keys
    ensures forall p | p in sub && p != at :: sub[p] != sub[at]
  {}

  lemma CopyKids(sub: Nodes, more: Nodes, at: Path, subKids: Kids, moreKids: Kids, k: string, v: PathNode)
    requires at in sub && at !in more && sub.Keys == subKids.Keys && more.Keys == moreKids.Keys
    requires forall p | p in sub && p != at :: sub[p].children == subKids[p]
    requires forall p | p in more :: more[p].children == moreKids[p]
    requires sub[at].children == subKids[at][k := v]
    ensures KidsOf(sub + more) == (subKids + moreKids)[at := subKids[at][k := v]]
  {}

  /** After the copy of one more child is attached. */
  lemma Attached(nodes: Nodes, kids: Kids, at: Path, done: set<string>, k: string,
                 sub: Nodes, subKids: Kids, more: Nodes, moreKids: Kids)
    requires Links(nodes, kids) && CopyPart(kids, at, done, sub, subKids)
    requires k in kids[at] && k !in done && Copy(kids, at + [k], more, moreKids)
    requires sub.Values !! more.Values
    requires forall p | p in sub && p != at :: sub[p].children == subKids[p]
    requires forall p | p in more :: more[p].children == moreKids[p]
    requires sub[at].children == subKids[at][k := more[at + [k]]]
    ensures CopyPart(kids, at, done + {k}, sub + more, KidsOf(sub + more))
    ensures sub.Keys !! more.Keys && (sub + more).Keys <= kids.Keys
  {
    hide Links, Part, Under;
    SameKeys(nodes, kids);
    CopyFacts(kids, at, done, sub, subKids);
    NotBelow(kids, at, k, more, moreKids);
    CopyStep(nodes, kids, at, done, k, sub, subKids, more, moreKids);
    CopyKids(sub, more, at, subKids, moreKids, k, more[at + [k]]);
    PartStep(nodes, kids, at, done, k);
    PartWhole(nodes, kids, at + [k]);
  }

  lemma NotBelow(kids: Kids, at: Path, k: string, more: Nodes, moreKids: Kids)
    requires Copy(kids, at + [k], more, moreKids)
    ensures at !in more && at + [k] in more && more.Keys == moreKids.Keys && more.Keys <= kids.Keys
  {}

  /** The nodes' child maps are the snapshot kids. */
  ghost predicate Snapshot(nodes: Nodes, kids: Kids)
    reads nodes.Values
  {
    nodes.Keys == kids.Keys && forall p | p in nodes :: nodes[p].children == kids[p]
  }

  method CloneAlone(n: PathNode) returns (c: PathNode)
    ensures fresh(c) && c.children == map[] && c.Rule() == n.Rule()
  {
    c := new PathNode(n.value);
    c.allow := n.allow;
    c.allowedRoles := n.allowedRoles;
  }

  /** A copy has the rules of the original. */
  ghost predicate SameRule(sub: Nodes, nodes: Nodes)
    reads sub.Values, nodes.Values
  {
    forall p | p in sub :: p in nodes && sub[p].Rule() == nodes[p].Rule()
  }

  /** The copy of the subtree at path at, node by node. */
  method CloneNode(n: PathNode, ghost nodes: Nodes, ghost kids: Kids, ghost at: Path)
    returns (c: PathNode, ghost sub: Nodes)
    requires Links(nodes, kids) && Snapshot(nodes, kids) && at in nodes && nodes[at] == n
    ensures Copy(kids, at, sub, KidsOf(sub)) && at in sub && sub[at] == c && sub.Keys <= nodes.Keys
    ensures (forall p | p in sub :: fresh(sub[p])) && SameRule(sub, nodes)
    decreases Under(kids, at), 1
  {
    hide Links, CopyPart, Part, Under, KidsOf, SameRule, PathNode.Rule;
    c := CloneAlone(n);
    sub := map[at := c];
    var keys := n.children.Keys;
    ghost var done: set<string> := {};
    Alone(nodes, kids, at, c);
    while keys != {}
      invariant keys <= kids[at].Keys && done == kids[at].Keys - keys
      invariant at in sub && sub[at] == c && sub.Keys <= nodes.Keys
      invariant CopyPart(kids, at, done, sub, KidsOf(sub))
      invariant (forall p | p in sub :: fresh(sub[p])) && SameRule(sub, nodes)
      invariant Snapshot(nodes, kids) && fresh(c)
      decreases keys
    {
      var k :| k in keys;
      sub := CloneChild(n, c, k, nodes, kids, at, done, sub);
      MoveOne(kids[at].Keys, keys, k);
      keys, done := keys - {k}, done + {k};
    }
    assert done == kids[at].Keys;
  }

  lemma MoveOne<T>(all: set<T>, keys: set<T>, k: T)
    requires k in keys && keys <= all
    ensures (all - keys) + {k} == all - (keys - {k})
  {}

  /** One turn of the loop of CloneNode: the child for segment k is copied and attached to c. */
  method CloneChild(n: PathNode, c: PathNode, k: string, ghost nodes: Nodes, ghost kids: Kids,
                    ghost at: Path, ghost done: set<string>, ghost sub: Nodes) returns (ghost all: Nodes)
    requires Links(nodes, kids) && Snapshot(nodes, kids) && at in nodes && nodes[at] == n
    requires k in n.children && k !in done && c !in nodes.Values
    requires at in sub && sub[at] == c && CopyPart(kids, at, done, sub, KidsOf(sub)) && SameRule(sub, nodes)
    modifies c
    ensures at in all && all[at] == c && all.Keys <= nodes.Keys && Snapshot(nodes, kids)
    ensures CopyPart(kids, at, done + {k}, all, KidsOf(all)) && SameRule(all, nodes)
    ensures forall p | p in all :: fresh(all[p]) || (p in sub && all[p] == sub[p])
    decreases Under(kids, at), 0
  {
    hide Links, CopyPart, Part, Under, KidsOf, PathNode.Rule;
    PartStep(nodes, kids, at, done, k);
    CopyFacts(kids, at, done, sub, KidsOf(sub));
    ghost var more;
    var v;
    v, more := CloneNode(n.children[k], nodes, kids, at + [k]);
    AttachCopy(c, k, v, nodes, kids, at, done, sub, more);
    all := sub + more;
  }

  /** The assignment to the child map of a copy. */
  method AttachCopy(c: PathNode, k: string, v: PathNode, ghost nodes: Nodes, ghost kids: Kids, ghost at: Path,
                    ghost done: set<string>, ghost sub: Nodes, ghost more: Nodes)
    requires Links(nodes, kids) && at in nodes && at in sub && sub[at] == c
    requires CopyPart(kids, at, done, sub, KidsOf(sub)) && sub.Values !! more.Values
    requires k in kids[at] && k !in done && Copy(kids, at + [k], more, KidsOf(more))
    requires at + [k] in more && more[at + [k]] == v
    modifies c
    ensures CopyPart(kids, at, done + {k}, sub + more, KidsOf(sub + more))
    ensures sub.Keys !! more.Keys && (sub + more).Keys <= kids.Keys && c.Rule() == old(c.Rule())
  {
    hide Links, CopyPart, Part, Under;
    ghost var subKids, moreKids := KidsOf(sub), KidsOf(more);
    CopyFacts(kids, at, done, sub, subKids);
    NotBelow(kids, at, k, more, moreKids);
    assert c in sub.Values;
    assert forall p | p in more :: more[p] in more.Values;
    c.children := c.children[k := v];
    Attached(nodes, kids, at, done, k, sub, subKids, more, moreKids);
  }

  class Provider {
    var pathRoot: PathNode?
    /** The reachable nodes by their paths. */
    ghost var nodes: Nodes
    ghost var repr: set<PathNode>

    ghost predicate Valid()
      reads this, repr
    {
      && nodes.Values <= repr
      && (if pathRoot == null then nodes == map[] else [] in nodes && nodes[[]] == pathRoot)
      && Links(nodes, KidsOf(nodes))
    }

    ghost function Rules(): Rules
      requires Valid()
      reads this, repr
    {
      RulesOf(nodes)
    }

    constructor ()
      ensures Valid() && fresh(repr) && Rules() == map[]
    {
      pathRoot, nodes, repr := null, map[], {};
    }

    /** Insert a node below node. */
    method AddChild(node: PathNode, ghost at: Path, segment: string)
      requires Valid() && at in nodes && nodes[at] == node && segment !in node.children
      modifies this, node
      ensures Valid() && fresh(repr - old(repr)) && pathRoot == old(pathRoot)
      ensures at + [segment] in nodes
      ensures nodes == old(nodes)[at + [segment] := nodes[at + [segment]]]
      ensures Rules() == old(Rules())[at + [segment] := NO_RULE]
    {
      hide Links, KidsOf, RulesOf;
      ghost var before, kids, rules := nodes, KidsOf(nodes), Rules();
      TakeSnapshot(kids, rules);
      Separate(at);
      ghost var child := Attach(node, at, segment);
      LinksInsert(before, kids, at, segment, child);
      AfterInsert(before, at, segment, child, kids, rules);
    }

    method Attach(node: PathNode, ghost at: Path, segment: string) returns (ghost child: PathNode)
      requires nodes.Values <= repr
      modifies this, node
      ensures fresh(child) && child.children == map[] && child.Rule() == NO_RULE
      ensures node.children == old(node.children)[segment := child] && node.Rule() == old(node.Rule())
      ensures nodes == old(nodes)[at + [segment] := child] && repr == old(repr) + {child}
      ensures pathRoot == old(pathRoot) && nodes.Values <= repr
    {
      var n := new PathNode(segment);
      node.children := node.children[segment := n];
      nodes, repr, child := nodes[at + [segment] := n], repr + {n}, n;
    }

    lemma TakeSnapshot(kids: Kids, rules: Rules)
      requires Valid() && kids == KidsOf(nodes) && rules == Rules()
      ensures kids.Keys == rules.Keys == nodes.Keys
      ensures forall p | p in nodes ::
        nodes[p] in repr && nodes[p].children == kids[p] && nodes[p].Rule() == rules[p]
    {}

    lemma AfterInsert(before: Nodes, at: Path, segment: string, child: PathNode, kids: Kids, rules: Rules)
      requires Links(before, kids) && before.Keys == rules.Keys
      requires at in before && segment !in kids[at] && child !in before.Values
      requires nodes == before[at + [segment] := child]
      requires child.children == map[] && child.Rule() == NO_RULE
      requires forall p | p in before :: nodes[p].Rule() == rules[p]
      requires forall p | p in before :: nodes[p].children == if p == at then kids[p][segment := child] else kids[p]
      ensures Links(nodes, KidsOf(nodes)) && at + [segment] !in before
      ensures RulesOf(nodes) == rules[at + [segment] := NO_RULE]
    {
      hide Links;
      LinksInsert(before, kids, at, segment, child);
      SameKeys(before, kids);
      KidsAre(nodes, kids[at := kids[at][segment := child]][at + [segment] := map[]]);
    }

    lemma Separate(at: Path)
      requires Valid() && at in nodes
      ensures forall p | p in nodes && p != at :: nodes[p] != nodes[at]
    {}

    /** The child of node for a segment, inserted if need be when create is set. */
    method Child(node: PathNode, ghost at: Path, segment: string, create: bool) returns (child: PathNode?)
      requires Valid() && at in nodes && nodes[at] == node
      modifies this, node
      ensures Valid() && fresh(repr - old(repr))
      ensures child == null <==> !create && at + [segment] !in old(nodes)
      ensures child == null ==> nodes == old(nodes) && repr == old(repr)
      ensures child != null ==> at + [segment] in nodes && nodes[at + [segment]] == child && child in repr
      ensures Rules() == if create && at + [segment] !in old(nodes)
                         then old(Rules())[at + [segment] := NO_RULE] else old(Rules())
    {
      hide RulesOf;
      Snoc(at, segment);
      assert ChildOf(nodes, KidsOf(nodes), at + [segment]) && Closed(nodes, KidsOf(nodes), at);
      if segment !in node.children {
        if !create {
          return null;
        }
        AddChild(node, at, segment);
        assert ChildOf(nodes, KidsOf(nodes), at + [segment]);
      }
      child := node.children[segment];
    }

    /** The root, made on the first call. */
    method Root() returns (root: PathNode)
      requires Valid()
      modifies this
      ensures Valid() && fresh(repr - old(repr))
      ensures [] in nodes && nodes[[]] == root && root in repr
      ensures Rules() == Grow(old(Rules()), [])
    {
      GrowRoot(Rules());
      if pathRoot == null {
        pathRoot := new PathNode("");
        nodes, repr := map[[] := pathRoot], repr + {pathRoot};
      }
      root := pathRoot;
    }

    /** One turn of the loop of WalkPath, for a tree that has grown from rules. */
    method Descend(node: PathNode, ghost at: Path, segment: string, create: bool, ghost rules: Rules)
      returns (child: PathNode?)
      requires Valid() && at in nodes && nodes[at] == node && node in repr
      requires Rules() == Grow(rules, if create then at else [])
      modifies this, node
      ensures Valid() && fresh(repr - old(repr))
      ensures child != null ==> at + [segment] in nodes && nodes[at + [segment]] == child && child in repr
      ensures child == null ==> !create && at in nodes && nodes[at] == node && node in repr
      ensures child == null ==> forall p | at + [segment] <= p :: Deepest(rules, p) == at
      ensures Rules() == Grow(rules, if create then at + [segment] else [])
    {
      hide Valid, Grow, RulesOf, Deepest;
      GrowChild(rules, at, segment, create);
      child := Child(node, at, segment, create);
      if child == null {
        forall p | at + [segment] <= p ensures Deepest(rules, p) == at {
          MissingChild(rules, at, segment, p);
        }
      }
    }

    /** The node for path, inserting what is missing, or the deepest node on the way to it. */
    method WalkPath(path: string, create: bool) returns (node: PathNode, ghost at: Path)
      requires Valid() && ValidPath(path)
      modifies this, repr
      ensures Valid() && fresh(repr - old(repr))
      ensures at in nodes && nodes[at] == node && node in repr
      ensures at == if create then Segments(path) else Deepest(old(Rules()), Segments(path))
      ensures Rules() == Grow(old(Rules()), if create then Segments(path) else [])
    {
      hide *;
      ghost var rules := Rules();
      PathStart(path);
      node := Root();
      at := [];
      var pathPos := 1;
      while pathPos < |path|
        invariant Valid() && fresh(repr - old(repr))
        invariant at in nodes && nodes[at] == node && node in repr
        invariant Segments(path) == at + SegmentsFrom(path, pathPos)
        invariant Rules() == Grow(rules, if create then at else [])
        decreases |path| - pathPos
      {
        var segEnd := FindSegmentEnd(path, pathPos);
        var segment := path[pathPos..segEnd];
        assert at + [segment] <= Segments(path);
        var child := Descend(node, at, segment, create, rules);
        if child == null {
          return;
        }
        node, at := child, at + [segment];
        pathPos := segEnd + 1;
      }
      PathEnd(path, pathPos);
      if !create {
        WholePath(rules, at);
      }
    }

    lemma PathStart(path: string)
      ensures Segments(path) == [] + SegmentsFrom(path, 1)
    {}

    lemma PathEnd(path: string, pos: nat)
      requires pos >= |path|
      ensures SegmentsFrom(path, pos) == []
    {}

    lemma GrowChild(rules: Rules, at: Path, segment: string, create: bool)
      requires Valid() && Rules() == Grow(rules, if create then at else [])
      ensures create ==>
        Grow(rules, at + [segment])
        == if at + [segment] in nodes then Rules() else Rules()[at + [segment] := NO_RULE]
    {
      GrowStep(rules, at, segment);
      assert nodes.Keys == Rules().Keys;
    }

    lemma WholePath(rules: Rules, p: Path)
      requires Valid() && Rules() == Grow(rules, []) && p in nodes
      ensures Deepest(rules, p) == p
    {}

    /** A missing child means that no longer path on the same way has a node. */
    lemma MissingChild(rules: Rules, at: Path, segment: string, p: Path)
      requires Valid() && at in nodes && at + [segment] !in nodes
      requires at + [segment] <= p && Rules() == Grow(rules, [])
      ensures Deepest(rules, p) == at
    {
      forall q | q <= p && q in nodes ensures |q| <= |at| {
        PrefixOfLonger(at + [segment], q, p);
      }
      GrowRoot(rules);
      assert nodes.Keys == Rules().Keys;
      DeepestIs(rules, p, at);
    }

    lemma PrefixOfLonger(d: Path, q: Path, p: Path)
      requires d <= p && q <= p
      ensures |d| <= |q| ==> d <= q
    {}

    // ----- The calls -----

    /** What a change of the rule of one node does to the tree. */
    lemma AfterAssign(at: Path, kids: Kids, rules: Rules, rule: AuthzRules.Rule)
      requires nodes.Keys == kids.Keys == rules.Keys && at in nodes && nodes[at].Rule() == rule
      requires forall p | p in nodes :: nodes[p].children == kids[p]
      requires forall p | p in nodes && p != at :: nodes[p].Rule() == rules[p]
      ensures KidsOf(nodes) == kids && RulesOf(nodes) == rules[at := rule]
    {}

    method AllowAny(path: string)
      requires Valid() && ValidPath(path)
      modifies this, repr
      ensures Valid() && fresh(repr - old(repr))
      ensures Rules() == Apply(old(Rules()), Op.AllowAny(path))
    {
      hide Links, Grow;
      var node, at := WalkPath(path, true);
      ghost var kids, rules := KidsOf(nodes), Rules();
      TakeSnapshot(kids, rules);
      Separate(at);
      node.allow := {Any};
      AfterAssign(at, kids, rules, rules[at].(allow := {Any}));
    }

    method AllowAnyRole(path: string)
      requires Valid() && ValidPath(path)
      modifies this, repr
      ensures Valid() && fresh(repr - old(repr))
      ensures Rules() == Apply(old(Rules()), Op.AllowAnyRole(path))
    {
      hide Links, Grow;
      var node, at := WalkPath(path, true);
      ghost var kids, rules := KidsOf(nodes), Rules();
      TakeSnapshot(kids, rules);
      Separate(at);
      node.allow := node.allow + {AnyRole};
      AfterAssign(at, kids, rules, rules[at].(allow := rules[at].allow + {AnyRole}));
    }

    method Allow(path: string, roles: seq<string>)
      requires Valid() && ValidPath(path)
      modifies this, repr
      ensures Valid() && fresh(repr - old(repr))
      ensures Rules() == Apply(old(Rules()), Op.Allow(path, roles))
    {
      hide Links, Grow;
      var node, at := WalkPath(path, true);
      ghost var kids, rules := KidsOf(nodes), Rules();
      TakeSnapshot(kids, rules);
      Separate(at);
      AddRoles(node, roles);
      AfterAssign(at, kids, rules, rules[at].(roles := rules[at].roles + NamedRoles(roles)));
    }

    /** The loop of Allow. */
    static method AddRoles(node: PathNode, roles: seq<string>)
      modifies node
      ensures node.children == old(node.children) && node.allow == old(node.allow)
      ensures node.allowedRoles == old(node.allowedRoles) + NamedRoles(roles)
    {
      for i := 0 to |roles|
        invariant node.children == old(node.children) && node.allow == old(node.allow)
        invariant node.allowedRoles == old(node.allowedRoles) + NamedRoles(roles[..i])
      {
        assert roles[..i + 1] == roles[..i] + [roles[i]];
        if roles[i] == "" {
          continue;
        }
        node.allowedRoles := node.allowedRoles + {roles[i]};
      }
      assert roles[..|roles|] == roles;
    }

    /** The decision for a request. A first request on an empty tree makes the root, nothing more. */
    method IsAllowed(path: string, role: string) returns (res: bool)
      requires Valid() && ValidPath(path)
      modifies this, repr
      ensures Valid() && fresh(repr - old(repr))
      ensures res == Allowed(old(Rules()), path, role)
      ensures Rules() == Grow(old(Rules()), [])
    {
      hide Links, Grow, Deepest;
      ghost var rules := Rules();
      var node, at := WalkPath(path, false);
      GrowKeeps(rules, [], at);
      assert RuleAt(Rules(), at) == node.Rule();
      var allowAny := Any in node.allow;
      var allowRole := false;
      if !allowAny {
        allowRole := if role == "" || role == GUEST then false
                     else AnyRole in node.allow || role in node.allowedRoles;
      }
      res := allowAny || allowRole;
    }

    method Call(op: Op)
      requires Valid() && ValidPath(op.path)
      modifies this, repr
      ensures Valid() && fresh(repr - old(repr))
      ensures Rules() == Apply(old(Rules()), op)
    {
      match op
      case Allow(path, roles) => Allow(path, roles);
      case AllowAny(path) => AllowAny(path);
      case AllowAnyRole(path) => AllowAnyRole(path);
    }

    method CallAll(ops: seq<Op>)
      requires Valid() && forall op | op in ops :: ValidPath(op.path)
      modifies this, repr
      ensures Valid() && fresh(repr - old(repr))
      ensures Rules() == ApplyAll(old(Rules()), ops)
    {
      hide Valid, Apply;
      for i := 0 to |ops|
        invariant Valid() && fresh(repr - old(repr))
        invariant Rules() == ApplyAll(old(Rules()), ops[..i])
      {
        assert ops[..i + 1][..i] == ops[..i];
        Call(ops[i]);
      }
      assert ops[..|ops|] == ops;
    }

    /** A provider for the tree of given nodes. */
    constructor Of(root: PathNode, ghost sub: Nodes)
      requires Links(sub, KidsOf(sub)) && [] in sub && sub[[]] == root
      ensures Valid() && Rules() == RulesOf(sub) && repr == sub.Values
    {
      hide Links, KidsOf, RulesOf;
      pathRoot, nodes, repr := root, sub, sub.Values;
    }

    lemma RootFacts()
      requires Valid()
      ensures pathRoot == null ==> nodes == map[] && Rules() == map[]
      ensures pathRoot != null ==> [] in nodes && nodes[[]] == pathRoot
      ensures Links(nodes, KidsOf(nodes)) && Snapshot(nodes, KidsOf(nodes))
    {}

    /** A deep copy: other nodes, the same rules. */
    method Clone() returns (p: Provider)
      requires Valid()
      ensures fresh(p) && fresh(p.repr) && p.Valid() && p.Rules() == Rules()
    {
      hide *;
      RootFacts();
      if pathRoot == null {
        p := new Provider();
      } else {
        ghost var kids, rules, sub := KidsOf(nodes), Rules(), map[];
        var root;
        TakeSnapshot(kids, rules);
        root, sub := CloneNode(pathRoot, nodes, kids, []);
        CopyIsTree(nodes, kids, sub, KidsOf(sub));
        SameRules(sub, nodes, rules);
        p := new Provider.Of(root, sub);
      }
    }
  }

  /** After any calls on a new provider it decides as the calls mean. */
  method Configure(ops: seq<Op>) returns (p: Provider)
    requires forall op | op in ops :: ValidPath(op.path)
    ensures fresh(p) && fresh(p.repr) && p.Valid()
    ensures forall path, role :: Allowed(p.Rules(), path, role) <==> Meaning(ops, path, role)
  {
    hide Allowed, Meaning, ApplyAll;
    p := new Provider();
    p.CallAll(ops);
    forall path, role ensures Allowed(p.Rules(), path, role) <==> Meaning(ops, path, role) {
      TreeAgrees(ops, path, role);
    }
  }

  /** Later calls on the original do not reach a clone, nor the other way round. */
  method CloneIsIndependent(c: Provider, ops: seq<Op>, cloneOps: seq<Op>) returns (p: Provider)
    requires c.Valid()
    requires forall op | op in ops + cloneOps :: ValidPath(op.path)
    modifies c, c.repr
    ensures c.Valid() && p.Valid() && fresh(p)
    ensures c.Rules() == ApplyAll(old(c.Rules()), ops)
    ensures p.Rules() == ApplyAll(old(c.Rules()), cloneOps)
  {
    hide *;
    p := c.Clone();
    c.CallAll(ops);
    p.CallAll(cloneOps);
  }

  /** The inner loop of walkPath. */
  method FindSegmentEnd(path: string, pos: nat) returns (segEnd: nat)
    requires pos < |path|
    ensures segEnd == SegmentEnd(path, pos)
    ensures SegmentsFrom(path, pos) == [path[pos..segEnd]] + SegmentsFrom(path, segEnd + 1)
  {
    segEnd := pos;
    while segEnd < |path| && path[segEnd] != '/'
      invariant pos <= segEnd <= |path|
      invariant SegmentEnd(path, pos) == SegmentEnd(path, segEnd)
    {
      segEnd := segEnd + 1;
    }
  }
}
