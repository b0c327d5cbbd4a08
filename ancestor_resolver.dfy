/**
 * isNodeAncestor: does a chain of links lead from a node with a given ID to node `d`?
 * The search walks backwards from `d`'s input pins. Pins do not know their links, so
 * for each linked input it scans the whole link list for links ending there, and takes
 * the owner of each such link's start pin as an upstream candidate; then it recurses
 * on the candidates. There is no visited set: the search ends only because the graph
 * is acyclic, stated here as a ghost `rank` on nodes that every backward hop lowers.
 */
module AncestorResolver {
  import opened Types
  import opened GraphLookup

  /** The start pin of every link belongs to some node (FindPin never returns null for it). */
  predicate StartsResolve(nodes: seq<Node>, links: seq<Link>)
  {
    forall j :: 0 <= j < |links| ==> Owner(nodes, links[j].startPinId).Some?
  }

  /**
   * One backward hop of the search: a non-null input pin of node `d` is the end of a
   * link whose start pin is owned by node `s`.
   */
  ghost predicate Feeds(nodes: seq<Node>, links: seq<Link>, s: nat, d: nat)
  {
    d < |nodes|
    && exists k, j ::
         0 <= k < |nodes[d].inputs| && 0 <= j < |links|
         && nodes[d].inputs[k].id != 0
         && links[j].endPinId == nodes[d].inputs[k].id
         && Owner(nodes, links[j].startPinId) == Some(s)
  }

  /** The link graph is acyclic, witnessed by a rank that grows along every hop. */
  ghost predicate Ranked(nodes: seq<Node>, links: seq<Link>, rank: seq<nat>)
  {
    |rank| == |nodes|
    && forall s: nat, d: nat :: s < |nodes| && d < |nodes| && Feeds(nodes, links, s, d) ==> rank[s] < rank[d]
  }

  /**
   * The scan of the link list for pin `pinId`, from link `j` on: the owners of the start
   * pins of the links that end at `pinId`, in link order.
   */
  function Upstream(nodes: seq<Node>, links: seq<Link>, pinId: int, j: nat): (r: seq<nat>)
    requires StartsResolve(nodes, links)
    requires j <= |links|
    ensures forall m :: 0 <= m < |r| ==> r[m] < |nodes|
    ensures forall c :: c in r <==>
      exists i :: j <= i < |links| && links[i].endPinId == pinId && Owner(nodes, links[i].startPinId) == Some(c)
    decreases |links| - j
  {
    if j == |links| then []
    else
      var rest := Upstream(nodes, links, pinId, j + 1);
      if links[j].endPinId == pinId then [Owner(nodes, links[j].startPinId).value] + rest else rest
  }

  /** Every upstream candidate of a non-null input pin of `d` feeds `d`. */
  lemma UpstreamFeeds(nodes: seq<Node>, links: seq<Link>, d: nat, k: nat)
    requires StartsResolve(nodes, links)
    requires d < |nodes| && k < |nodes[d].inputs| && nodes[d].inputs[k].id != 0
    ensures forall c :: c in Upstream(nodes, links, nodes[d].inputs[k].id, 0) ==> Feeds(nodes, links, c, d)
  {
  }

  /**
   * isNodeAncestor(Ancestor, Decendent), with the ancestor given by its ID (the only
   * thing the search reads of it) and the descendant by its index in the node list.
   * A node without inputs has no ancestor.
   */
  function IsNodeAncestor(nodes: seq<Node>, links: seq<Link>, ancestorId: int, d: nat, ghost rank: seq<nat>): (r: bool)
    requires d < |nodes| && StartsResolve(nodes, links) && Ranked(nodes, links, rank)
    ensures |nodes[d].inputs| == 0 ==> !r
    decreases rank[d], 2, 0
  {
    if |nodes[d].inputs| == 0 then false
    else AncestorViaInputs(nodes, links, ancestorId, d, 0, rank)
  }

  /** The loop over `d`'s inputs from slot `i` on; an input that no link touches is skipped. */
  function AncestorViaInputs(nodes: seq<Node>, links: seq<Link>, ancestorId: int, d: nat, i: nat, ghost rank: seq<nat>): bool
    requires d < |nodes| && i <= |nodes[d].inputs| && StartsResolve(nodes, links) && Ranked(nodes, links, rank)
    decreases rank[d], 1, |nodes[d].inputs| - i
  {
    if i == |nodes[d].inputs| then false
    else
      var p := nodes[d].inputs[i];
      if !Linked(links, p.id) then AncestorViaInputs(nodes, links, ancestorId, d, i + 1, rank)
      else
        var candidates := Upstream(nodes, links, p.id, 0);
        UpstreamFeeds(nodes, links, d, i);
        (exists m :: 0 <= m < |candidates| && nodes[candidates[m]].id == ancestorId)
        || AncestorViaCandidates(nodes, links, ancestorId, d, candidates, 0, rank)
        || AncestorViaInputs(nodes, links, ancestorId, d, i + 1, rank)
  }

  /** The loop over the collected candidates from position `j` on. */
  function AncestorViaCandidates(
    nodes: seq<Node>, links: seq<Link>, ancestorId: int, d: nat, candidates: seq<nat>, j: nat, ghost rank: seq<nat>): bool
    requires d < |nodes| && j <= |candidates| && StartsResolve(nodes, links) && Ranked(nodes, links, rank)
    requires forall m :: 0 <= m < |candidates| ==> candidates[m] < |nodes| && Feeds(nodes, links, candidates[m], d)
    decreases rank[d], 0, |candidates| - j
  {
    if j == |candidates| then false
    else
      var c := candidates[j];
      nodes[c].id == ancestorId
      || IsNodeAncestor(nodes, links, ancestorId, c, rank)
      || AncestorViaCandidates(nodes, links, ancestorId, d, candidates, j + 1, rank)
  }

  /** Node `c` has the ancestor's ID or descends from it. */
  ghost predicate ReachedFrom(nodes: seq<Node>, links: seq<Link>, ancestorId: int, c: nat, rank: seq<nat>)
    requires c < |nodes| && StartsResolve(nodes, links) && Ranked(nodes, links, rank)
  {
    nodes[c].id == ancestorId || IsNodeAncestor(nodes, links, ancestorId, c, rank)
  }

  lemma {:induction false} ViaCandidatesIff(
    nodes: seq<Node>, links: seq<Link>, ancestorId: int, d: nat, candidates: seq<nat>, j: nat, rank: seq<nat>)
    requires d < |nodes| && j <= |candidates| && StartsResolve(nodes, links) && Ranked(nodes, links, rank)
    requires forall m :: 0 <= m < |candidates| ==> candidates[m] < |nodes| && Feeds(nodes, links, candidates[m], d)
    ensures AncestorViaCandidates(nodes, links, ancestorId, d, candidates, j, rank)
        <==> exists m :: j <= m < |candidates| && ReachedFrom(nodes, links, ancestorId, candidates[m], rank)
    decreases |candidates| - j
  {
    if j < |candidates| {
      ViaCandidatesIff(nodes, links, ancestorId, d, candidates, j + 1, rank);
    }
  }

  lemma {:induction false} ViaInputsIff(nodes: seq<Node>, links: seq<Link>, ancestorId: int, d: nat, i: nat, rank: seq<nat>)
    requires d < |nodes| && i <= |nodes[d].inputs| && StartsResolve(nodes, links) && Ranked(nodes, links, rank)
    ensures AncestorViaInputs(nodes, links, ancestorId, d, i, rank)
        <==> exists k, c :: i <= k < |nodes[d].inputs| && nodes[d].inputs[k].id != 0
               && c in Upstream(nodes, links, nodes[d].inputs[k].id, 0)
               && ReachedFrom(nodes, links, ancestorId, c, rank)
    decreases |nodes[d].inputs| - i
  {
    var ins := nodes[d].inputs;
    if i < |ins| {
      ViaInputsIff(nodes, links, ancestorId, d, i + 1, rank);
      var p := ins[i];
      var candidates := Upstream(nodes, links, p.id, 0);
      if Linked(links, p.id) {
        UpstreamFeeds(nodes, links, d, i);
        ViaCandidatesIff(nodes, links, ancestorId, d, candidates, 0, rank);
      }
    }
  }

  /**
   * One step of the search, unfolded: `d` descends from the ancestor iff some node that
   * feeds `d` has the ancestor's ID or itself descends from it.
   */
  lemma Unfold(nodes: seq<Node>, links: seq<Link>, ancestorId: int, d: nat, rank: seq<nat>)
    requires d < |nodes| && StartsResolve(nodes, links) && Ranked(nodes, links, rank)
    ensures IsNodeAncestor(nodes, links, ancestorId, d, rank)
        <==> exists s: nat :: s < |nodes| && Feeds(nodes, links, s, d) && ReachedFrom(nodes, links, ancestorId, s, rank)
  {
    ViaInputsIff(nodes, links, ancestorId, d, 0, rank);
    var ins := nodes[d].inputs;
    if IsNodeAncestor(nodes, links, ancestorId, d, rank) {
      var k, c :| 0 <= k < |ins| && ins[k].id != 0
        && c in Upstream(nodes, links, ins[k].id, 0) && ReachedFrom(nodes, links, ancestorId, c, rank);
      UpstreamFeeds(nodes, links, d, k);
    }
    if exists s: nat :: s < |nodes| && Feeds(nodes, links, s, d) && ReachedFrom(nodes, links, ancestorId, s, rank) {
      var s: nat :| s < |nodes| && Feeds(nodes, links, s, d) && ReachedFrom(nodes, links, ancestorId, s, rank);
      var k, j :| 0 <= k < |ins| && 0 <= j < |links| && ins[k].id != 0
        && links[j].endPinId == ins[k].id && Owner(nodes, links[j].startPinId) == Some(s);
      assert s in Upstream(nodes, links, ins[k].id, 0);
    }
  }

  /** `p` is a chain of one or more hops through existing nodes. */
  ghost predicate IsPath(nodes: seq<Node>, links: seq<Link>, p: seq<nat>)
  {
    |p| >= 2
    && (forall k :: 0 <= k < |p| ==> p[k] < |nodes|)
    && forall k :: 0 <= k < |p| - 1 ==> Feeds(nodes, links, p[k], p[k + 1])
  }

  /** The meaning of isNodeAncestor: a chain of links leads from a node with the ancestor's ID to `d`. */
  ghost predicate HasAncestor(nodes: seq<Node>, links: seq<Link>, ancestorId: int, d: nat)
  {
    exists p :: IsPath(nodes, links, p) && nodes[p[0]].id == ancestorId && p[|p| - 1] == d
  }

  lemma {:induction false} Sound(nodes: seq<Node>, links: seq<Link>, ancestorId: int, d: nat, rank: seq<nat>)
    requires d < |nodes| && StartsResolve(nodes, links) && Ranked(nodes, links, rank)
    requires IsNodeAncestor(nodes, links, ancestorId, d, rank)
    ensures HasAncestor(nodes, links, ancestorId, d)
    decreases rank[d]
  {
    Unfold(nodes, links, ancestorId, d, rank);
    var s: nat :| s < |nodes| && Feeds(nodes, links, s, d) && ReachedFrom(nodes, links, ancestorId, s, rank);
    if nodes[s].id == ancestorId {
      assert IsPath(nodes, links, [s, d]);
    } else {
      Sound(nodes, links, ancestorId, s, rank);
      var p :| IsPath(nodes, links, p) && nodes[p[0]].id == ancestorId && p[|p| - 1] == s;
      var q := p + [d];
      forall k | 0 <= k < |q| - 1 ensures Feeds(nodes, links, q[k], q[k + 1]) {
        if k < |p| - 1 {
          assert q[k] == p[k] && q[k + 1] == p[k + 1];
        }
      }
      assert IsPath(nodes, links, q) && q[0] == p[0] && q[|q| - 1] == d;
    }
  }

  lemma {:induction false} Complete(nodes: seq<Node>, links: seq<Link>, ancestorId: int, p: seq<nat>, rank: seq<nat>)
    requires StartsResolve(nodes, links) && Ranked(nodes, links, rank)
    requires IsPath(nodes, links, p) && nodes[p[0]].id == ancestorId
    ensures IsNodeAncestor(nodes, links, ancestorId, p[|p| - 1], rank)
    decreases |p|
  {
    var d, s := p[|p| - 1], p[|p| - 2];
    assert Feeds(nodes, links, s, d);
    if |p| > 2 {
      var q := p[..|p| - 1];
      assert IsPath(nodes, links, q) by {
        forall k | 0 <= k < |q| - 1 ensures Feeds(nodes, links, q[k], q[k + 1]) {
          assert q[k] == p[k] && q[k + 1] == p[k + 1];
        }
      }
      Complete(nodes, links, ancestorId, q, rank);
    }
    assert ReachedFrom(nodes, links, ancestorId, s, rank);
    Unfold(nodes, links, ancestorId, d, rank);
  }

  /**
   * On an acyclic graph whose links start at existing pins, isNodeAncestor(A, d) is true
   * exactly when a chain of one or more links leads from a node with A's ID to `d`.
   */
  lemma IsNodeAncestorIff(nodes: seq<Node>, links: seq<Link>, ancestorId: int, d: nat, rank: seq<nat>)
    requires d < |nodes| && StartsResolve(nodes, links) && Ranked(nodes, links, rank)
    ensures IsNodeAncestor(nodes, links, ancestorId, d, rank) <==> HasAncestor(nodes, links, ancestorId, d)
  {
    if IsNodeAncestor(nodes, links, ancestorId, d, rank) {
      Sound(nodes, links, ancestorId, d, rank);
    }
    if HasAncestor(nodes, links, ancestorId, d) {
      var p :| IsPath(nodes, links, p) && nodes[p[0]].id == ancestorId && p[|p| - 1] == d;
      Complete(nodes, links, ancestorId, p, rank);
    }
  }

  lemma {:induction false} PathRaisesRank(nodes: seq<Node>, links: seq<Link>, p: seq<nat>, rank: seq<nat>)
    requires IsPath(nodes, links, p) && Ranked(nodes, links, rank)
    ensures rank[p[0]] < rank[p[|p| - 1]]
    decreases |p|
  {
    assert Feeds(nodes, links, p[0], p[1]);
    if |p| > 2 {
      var q := p[1..];
      assert IsPath(nodes, links, q) by {
        forall k | 0 <= k < |q| - 1 ensures Feeds(nodes, links, q[k], q[k + 1]) {
          assert q[k] == p[k + 1] && q[k + 1] == p[k + 2];
        }
      }
      PathRaisesRank(nodes, links, q, rank);
    }
  }

  /** Node IDs are pairwise distinct. */
  ghost predicate UniqueNodeIds(nodes: seq<Node>)
  {
    forall i, j :: 0 <= i < j < |nodes| ==> nodes[i].id != nodes[j].id
  }

  /** On an acyclic graph with distinct node IDs, no node is its own ancestor. */
  lemma NotOwnAncestor(nodes: seq<Node>, links: seq<Link>, a: nat, rank: seq<nat>)
    requires a < |nodes| && StartsResolve(nodes, links) && Ranked(nodes, links, rank)
    requires UniqueNodeIds(nodes)
    ensures !IsNodeAncestor(nodes, links, nodes[a].id, a, rank)
  {
    if IsNodeAncestor(nodes, links, nodes[a].id, a, rank) {
      Sound(nodes, links, nodes[a].id, a, rank);
      var p :| IsPath(nodes, links, p) && nodes[p[0]].id == nodes[a].id && p[|p| - 1] == a;
      assert p[0] == a;
      PathRaisesRank(nodes, links, p, rank);
    }
  }

  /**
   * BuildNodes changes no node or pin ID, so the link graph is the same and this model's
   * search, which finds owners by ID and never reads a pin's stored back-reference, gives
   * the same answers on the rebuilt node list. This is a fact about the model: the code
   * reads the back-reference and depends on it being current.
   */
  lemma AncestryIgnoresRebuild(nodes: seq<Node>, links: seq<Link>, ancestorId: int, d: nat, rank: seq<nat>)
    requires d < |nodes| && StartsResolve(nodes, links) && Ranked(nodes, links, rank)
    ensures StartsResolve(BuiltAll(nodes), links) && Ranked(BuiltAll(nodes), links, rank)
    ensures IsNodeAncestor(BuiltAll(nodes), links, ancestorId, d, rank) == IsNodeAncestor(nodes, links, ancestorId, d, rank)
  {
    var built := BuiltAll(nodes);
    forall pinId | true ensures Owner(built, pinId) == Owner(nodes, pinId) {
      BuiltKeepsPins(nodes, pinId);
    }
    forall s: nat, t: nat ensures Feeds(built, links, s, t) == Feeds(nodes, links, s, t) {
      if t < |nodes| {
        BuiltNode(nodes[t], t);
      }
    }
    forall p ensures IsPath(built, links, p) == IsPath(nodes, links, p) {
    }
    assert forall i :: 0 <= i < |nodes| ==> built[i].id == nodes[i].id;
    IsNodeAncestorIff(nodes, links, ancestorId, d, rank);
    IsNodeAncestorIff(built, links, ancestorId, d, rank);
  }

  /**
   * Node A (ID 1, one output pin 2), node B (ID 3, one input pin 4), one link 5 from
   * pin 2 to pin 4: A is an ancestor of B and B is not an ancestor of A; pin 2 is
   * linked and pin 99 is not; node 3 is B and there is no node 42. The pins' back-references
   * are current: BuildNodes would leave the node list as it is.
   */
  lemma TwoNodeScenario()
    ensures var a := Node(1, Blueprint, "A", [], [Pin(2, "out", Flow, Output, Some(0))], []);
      var b := Node(3, Blueprint, "B", [Pin(4, "in", Flow, Input, Some(1))], [], []);
      var nodes := [a, b];
      var links := [Link(5, 2, 4)];
      BuiltAll(nodes) == nodes
      && StartsResolve(nodes, links) && Ranked(nodes, links, [0, 1])
      && IsNodeAncestor(nodes, links, 1, 1, [0, 1])
      && !IsNodeAncestor(nodes, links, 3, 0, [0, 1])
      && Linked(links, 2) && !Linked(links, 99)
      && NodeIndex(nodes, 3) == Some(1) && NodeIndex(nodes, 42) == None
  {
    var a := Node(1, Blueprint, "A", [], [Pin(2, "out", Flow, Output, Some(0))], []);
    var b := Node(3, Blueprint, "B", [Pin(4, "in", Flow, Input, Some(1))], [], []);
    var nodes := [a, b];
    var links := [Link(5, 2, 4)];
    assert Built(a, 0) == a by {
      assert Stamped(a.outputs, Output, 0) == a.outputs;
    }
    assert Built(b, 1) == b by {
      assert Stamped(b.inputs, Input, 1) == b.inputs;
    }
    assert BuiltAll(nodes) == nodes;
    assert HasPin(nodes[0], 2) by {
      assert nodes[0].outputs[0].id == 2;
    }
    assert Owner(nodes, 2) == Some(0);
    assert Ranked(nodes, links, [0, 1]);
    assert Linked(links, 4) by {
      assert links[0].endPinId == 4;
    }
    assert Upstream(nodes, links, 4, 0) == [0];
    assert Linked(links, 2) by {
      assert links[0].startPinId == 2;
    }
  }
}
