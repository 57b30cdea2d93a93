/**
 * The node and link arrays of `updateNetwork` (public/vizualization.js:29-69).
 *
 * `nodes` and `nodeIndexes` are page globals (lines 10-11) that every call extends: a user
 * or project name gets a node the first time it is seen, and `nodeIndexes` maps each name
 * to its node's position.  `links` is rebuilt on every call, one per `results.users` entry.
 * The graph data fetched from `/graph` is a parameter, `None` when the request failed.
 */
module Network {
  import opened Wrappers

  /** One entry of `results.users`: a user, their gravatar hash, and a project they committed to. */
  datatype Membership = Membership(user: string, gravatar: string, project: string)

  /** `{type: 'user', name, gravatar}` or `{type: 'project', name}` (lines 48-59). */
  datatype Node = UserNode(name: string, gravatar: string) | ProjectNode(name: string)

  /** `{source, target}`: positions in `nodes` (lines 65-68). */
  datatype Link = Link(source: nat, target: nat)

  /** The nodes' names, in order. */
  function NamesOf(nodes: seq<Node>): seq<string> {
    Mapped(nodes, (n: Node) => n.name)
  }

  /** `index` maps exactly the names of `nodes`, each to the position of its node. */
  predicate IndexedBy(nodes: seq<Node>, index: map<string, nat>) {
    && (forall n :: n in index ==> index[n] < |nodes| && nodes[index[n]].name == n)
    && (forall i :: 0 <= i < |nodes| ==> nodes[i].name in index && index[nodes[i].name] == i)
  }

  /** No two nodes share a name: users and projects share one namespace. */
  predicate DistinctNames(nodes: seq<Node>) {
    forall i, j :: 0 <= i < j < |nodes| ==> nodes[i].name != nodes[j].name
  }

  /** Lines 47-54: a user not seen before gets a user node. */
  function AddUser(nodes: seq<Node>, m: Membership): seq<Node> {
    if m.user in NamesOf(nodes) then nodes else nodes + [UserNode(m.user, m.gravatar)]
  }

  /** Lines 55-61: a project not seen before gets a project node. */
  function AddProject(nodes: seq<Node>, m: Membership): seq<Node> {
    if m.project in NamesOf(nodes) then nodes else nodes + [ProjectNode(m.project)]
  }

  /** One pass of the loop of lines 46-62. */
  function Step(nodes: seq<Node>, m: Membership): seq<Node> {
    AddProject(AddUser(nodes, m), m)
  }

  /** `nodes` after the loop of lines 46-62 over `ms`. */
  function Interned(nodes: seq<Node>, ms: seq<Membership>): seq<Node> {
    if ms == [] then nodes else Step(Interned(nodes, ms[..|ms| - 1]), ms[|ms| - 1])
  }

  /** `links` holds one link per membership, in order, from the user's node to the project's. */
  predicate LinksFor(nodes: seq<Node>, ms: seq<Membership>, links: seq<Link>) {
    && |links| == |ms|
    && forall k :: 0 <= k < |links| ==>
         && links[k].source < |nodes| && nodes[links[k].source].name == ms[k].user
         && links[k].target < |nodes| && nodes[links[k].target].name == ms[k].project
  }

  /** The page's graph state: `nodes` and `nodeIndexes`. */
  class Graph {
    var nodes: seq<Node>
    var nodeIndexes: map<string, nat>

    ghost predicate Valid()
      reads this
    {
      IndexedBy(nodes, nodeIndexes)
    }

    /** Lines 10-11. */
    constructor ()
      ensures Valid() && nodes == [] && nodeIndexes == map[]
    {
      nodes := [];
      nodeIndexes := map[];
    }

    /**
     * `updateNetwork`'s `d3.json` callback: on an error nothing changes and no links are
     * built; otherwise the unseen names get nodes and the links are rebuilt.
     */
    method UpdateNetwork(results: Option<seq<Membership>>) returns (links: Option<seq<Link>>)
      requires Valid()
      modifies this
      ensures Valid()
      ensures results.None? ==> nodes == old(nodes) && nodeIndexes == old(nodeIndexes) && links.None?
      ensures results.Some? ==> nodes == Interned(old(nodes), results.value)
      ensures results.Some? ==> links.Some? && LinksFor(nodes, results.value, links.value)
    {
      if results.None? {
        return None;
      }
      var users := results.value;
      InternedContains(nodes, users);
      nodes, nodeIndexes := BuildNodes(nodes, nodeIndexes, users);
      var built := BuildLinks(nodes, nodeIndexes, users);
      return Some(built);
    }
  }

  /** The loop of lines 46-62. */
  method BuildNodes(nodes0: seq<Node>, index0: map<string, nat>, users: seq<Membership>)
    returns (nodes: seq<Node>, nodeIndexes: map<string, nat>)
    requires IndexedBy(nodes0, index0)
    ensures IndexedBy(nodes, nodeIndexes) && nodes == Interned(nodes0, users)
  {
    nodes, nodeIndexes := nodes0, index0;
    for i := 0 to |users|
      invariant IndexedBy(nodes, nodeIndexes) && nodes == Interned(nodes0, users[..i])
    {
      InternedStep(nodes0, users, i);
      var m := users[i];
      ghost var before := nodes;
      IndexedNames(nodes, nodeIndexes, m.user);
      if m.user !in nodeIndexes {
        IndexedAppend(nodes, nodeIndexes, UserNode(m.user, m.gravatar));
        nodes := nodes + [UserNode(m.user, m.gravatar)];
        nodeIndexes := nodeIndexes[m.user := |nodes| - 1];
      }
      assert nodes == AddUser(before, m);
      ghost var middle := nodes;
      IndexedNames(nodes, nodeIndexes, m.project);
      if m.project !in nodeIndexes {
        IndexedAppend(nodes, nodeIndexes, ProjectNode(m.project));
        nodes := nodes + [ProjectNode(m.project)];
        nodeIndexes := nodeIndexes[m.project := |nodes| - 1];
      }
      assert nodes == AddProject(middle, m);
    }
    PrefixAll(users);
  }

  /** The loop of lines 64-69. */
  method BuildLinks(nodes: seq<Node>, nodeIndexes: map<string, nat>, users: seq<Membership>)
    returns (links: seq<Link>)
    requires IndexedBy(nodes, nodeIndexes)
    requires forall k :: 0 <= k < |users| ==> Knows(nodes, users[k])
    ensures LinksFor(nodes, users, links)
  {
    links := [];
    for i := 0 to |users|
      invariant LinksFor(nodes, users[..i], links)
    {
      IndexedNames(nodes, nodeIndexes, users[i].user);
      IndexedNames(nodes, nodeIndexes, users[i].project);
      links := links + [Link(nodeIndexes[users[i].user], nodeIndexes[users[i].project])];
    }
  }

  /** The names `index` maps are exactly the node names. */
  lemma IndexedNames(nodes: seq<Node>, index: map<string, nat>, n: string)
    requires IndexedBy(nodes, index)
    ensures n in index <==> n in NamesOf(nodes)
  {
    if n in NamesOf(nodes) {
      var i :| 0 <= i < |nodes| && NamesOf(nodes)[i] == n;
    }
    if n in index {
      assert NamesOf(nodes)[index[n]] == n;
    }
  }

  /** A node for a name not yet indexed goes at the end and into the index. */
  lemma IndexedAppend(nodes: seq<Node>, index: map<string, nat>, node: Node)
    requires IndexedBy(nodes, index) && node.name !in index
    ensures IndexedBy(nodes + [node], index[node.name := |nodes|])
  {
  }

  lemma InternedStep(nodes: seq<Node>, ms: seq<Membership>, i: nat)
    requires i < |ms|
    ensures Interned(nodes, ms[..i + 1]) == Step(Interned(nodes, ms[..i]), ms[i])
  {
    assert ms[..i + 1][..i] == ms[..i];
  }

  // ---------------------------------------------------------------------------
  // what the interning promises

  lemma NamesGrow(a: seq<Node>, b: seq<Node>)
    requires a <= b
    ensures forall n :: n in NamesOf(a) ==> n in NamesOf(b)
  {
    forall n | n in NamesOf(a) ensures n in NamesOf(b) {
      var i :| 0 <= i < |a| && NamesOf(a)[i] == n;
      assert NamesOf(b)[i] == n;
    }
  }

  /** `nodes` is only appended to: the nodes before a call stay, in place. */
  lemma {:induction false} InternedExtends(nodes: seq<Node>, ms: seq<Membership>)
    ensures nodes <= Interned(nodes, ms)
  {
    if ms != [] {
      InternedExtends(nodes, ms[..|ms| - 1]);
    }
  }

  /** `nodes` has a node for the membership's user and one for its project. */
  predicate Knows(nodes: seq<Node>, m: Membership) {
    m.user in NamesOf(nodes) && m.project in NamesOf(nodes)
  }

  /** One pass names the membership's user and project and forgets no name. */
  lemma StepFacts(nodes: seq<Node>, m: Membership)
    ensures Knows(Step(nodes, m), m)
    ensures forall m' :: Knows(nodes, m') ==> Knows(Step(nodes, m), m')
  {
    var mid := AddUser(nodes, m);
    var r := AddProject(mid, m);
    NamesGrow(nodes, mid);
    NamesGrow(mid, r);
    if m.user !in NamesOf(nodes) {
      assert NamesOf(mid)[|nodes|] == m.user;
    }
    if m.project !in NamesOf(mid) {
      assert NamesOf(r)[|mid|] == m.project;
    }
  }

  /** Lines 46-62 give every user and every project of the data a node. */
  lemma {:induction false} InternedContains(nodes: seq<Node>, ms: seq<Membership>)
    ensures forall k :: 0 <= k < |ms| ==> Knows(Interned(nodes, ms), ms[k])
  {
    if ms != [] {
      var init, m := ms[..|ms| - 1], ms[|ms| - 1];
      var prev := Interned(nodes, init);
      var r := Step(prev, m);
      assert Interned(nodes, ms) == r;
      InternedContains(nodes, init);
      StepFacts(prev, m);
      forall k | 0 <= k < |ms| ensures Knows(r, ms[k]) {
        if k < |init| {
          assert ms[k] == init[k];
          assert Knows(prev, init[k]);
        }
      }
    }
  }

  /** A name already in `nodes` gets no second node. */
  lemma AddNameDistinct(nodes: seq<Node>, node: Node)
    requires DistinctNames(nodes) && node.name !in NamesOf(nodes)
    ensures DistinctNames(nodes + [node])
  {
    forall i | 0 <= i < |nodes| ensures nodes[i].name != node.name {
      assert NamesOf(nodes)[i] == nodes[i].name;
    }
  }

  /** Every name appears at most once in `nodes`, however often and in whichever role it is seen. */
  lemma {:induction false} InternedDistinct(nodes: seq<Node>, ms: seq<Membership>)
    requires DistinctNames(nodes)
    ensures DistinctNames(Interned(nodes, ms))
  {
    if ms != [] {
      var init, m := ms[..|ms| - 1], ms[|ms| - 1];
      var prev := Interned(nodes, init);
      InternedDistinct(nodes, init);
      if m.user !in NamesOf(prev) {
        AddNameDistinct(prev, UserNode(m.user, m.gravatar));
      }
      var mid := AddUser(prev, m);
      if m.project !in NamesOf(mid) {
        AddNameDistinct(mid, ProjectNode(m.project));
      }
    }
  }

  /** Data whose names all have nodes adds none. */
  lemma {:induction false} InternedKnown(nodes: seq<Node>, ms: seq<Membership>)
    requires forall k :: 0 <= k < |ms| ==> Knows(nodes, ms[k])
    ensures Interned(nodes, ms) == nodes
  {
    if ms != [] {
      InternedKnown(nodes, ms[..|ms| - 1]);
    }
  }

  /** Fetching the same data again adds no node. */
  lemma InternedIdempotent(nodes: seq<Node>, ms: seq<Membership>)
    ensures Interned(Interned(nodes, ms), ms) == Interned(nodes, ms)
  {
    InternedContains(nodes, ms);
    InternedKnown(Interned(nodes, ms), ms);
  }

  /** The node of a user. */
  predicate UserOf(node: Node, m: Membership) {
    node.UserNode? && node.name == m.user && node.gravatar == m.gravatar
  }

  /** The node of a project. */
  predicate ProjectOf(node: Node, m: Membership) {
    node.ProjectNode? && node.name == m.project
  }

  /** The nodes one pass adds are the user's and the project's. */
  lemma StepAdds(nodes: seq<Node>, m: Membership)
    ensures var r := Step(nodes, m);
      nodes <= r && forall i :: |nodes| <= i < |r| ==> UserOf(r[i], m) || ProjectOf(r[i], m)
  {
  }

  /**
   * Every node added comes from the data: a user node from a membership of that user with
   * its gravatar, a project node from a membership of that project.
   */
  lemma {:induction false} InternedFromData(nodes: seq<Node>, ms: seq<Membership>)
    ensures var r := Interned(nodes, ms);
      forall i :: |nodes| <= i < |r| ==> exists k :: 0 <= k < |ms| && (UserOf(r[i], ms[k]) || ProjectOf(r[i], ms[k]))
  {
    if ms != [] {
      var init := ms[..|ms| - 1];
      var prev := Interned(nodes, init);
      var r := Interned(nodes, ms);
      InternedFromData(nodes, init);
      InternedExtends(nodes, init);
      StepAdds(prev, ms[|ms| - 1]);
      forall i | |nodes| <= i < |r| ensures exists k :: 0 <= k < |ms| && (UserOf(r[i], ms[k]) || ProjectOf(r[i], ms[k])) {
        if i < |prev| {
          assert r[i] == prev[i];
          var k :| 0 <= k < |init| && (UserOf(prev[i], init[k]) || ProjectOf(prev[i], init[k]));
          assert init[k] == ms[k];
        } else {
          assert UserOf(r[i], ms[|ms| - 1]) || ProjectOf(r[i], ms[|ms| - 1]);
        }
      }
    }
  }

  /** The index of a state is determined by its nodes. */
  lemma IndexUnique(nodes: seq<Node>, a: map<string, nat>, b: map<string, nat>)
    requires IndexedBy(nodes, a) && IndexedBy(nodes, b)
    ensures a == b
  {
    forall n | n in a ensures n in b && a[n] == b[n] {
      assert nodes[a[n]].name == n;
    }
    forall n | n in b ensures n in a {
      assert nodes[b[n]].name == n;
    }
  }

  /** An index exists only for nodes with distinct names. */
  lemma IndexedDistinct(nodes: seq<Node>, index: map<string, nat>)
    requires IndexedBy(nodes, index)
    ensures DistinctNames(nodes)
  {
  }
}
