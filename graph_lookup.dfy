/**
 * Lookups over the session's node and link lists, as values. Each finds the FIRST
 * element whose ID matches, in list order, or None: a pointer into the list becomes
 * an index. Pin ID 0 is the null pin and is never found.
 */
module GraphLookup {
  import opened Types

  /**
   * The linear scan shared by the node, link and pin lookups: the first position of `s`
   * whose element has ID `id` (as `idOf` reads it), or None iff there is none.
   */
  function FirstIndex<T>(s: seq<T>, idOf: T -> int, id: int): (r: Option<nat>)
    ensures r.Some? ==> r.value < |s| && idOf(s[r.value]) == id
    ensures r.Some? ==> forall k :: 0 <= k < r.value ==> idOf(s[k]) != id
    ensures r.None? <==> forall k :: 0 <= k < |s| ==> idOf(s[k]) != id
    decreases |s|
  {
    if s == [] then None
    else if idOf(s[0]) == id then Some(0)
    else match FirstIndex(s[1..], idOf, id)
      case None => None
      case Some(k) => Some(k + 1)
  }

  /** The first node with ID `id`, or None iff there is none. */
  function NodeIndex(nodes: seq<Node>, id: int): (r: Option<nat>)
    ensures r.Some? ==> r.value < |nodes| && nodes[r.value].id == id
    ensures r.Some? ==> forall k :: 0 <= k < r.value ==> nodes[k].id != id
    ensures r.None? <==> forall k :: 0 <= k < |nodes| ==> nodes[k].id != id
  {
    FirstIndex(nodes, (n: Node) => n.id, id)
  }

  /** The first link with ID `id`, or None iff there is none. */
  function LinkIndex(links: seq<Link>, id: int): (r: Option<nat>)
    ensures r.Some? ==> r.value < |links| && links[r.value].id == id
    ensures r.Some? ==> forall k :: 0 <= k < r.value ==> links[k].id != id
    ensures r.None? <==> forall k :: 0 <= k < |links| ==> links[k].id != id
  {
    FirstIndex(links, (l: Link) => l.id, id)
  }

  /** The first slot of `pins` holding a pin with ID `id`, or None iff there is none. */
  function PinSlot(pins: seq<Pin>, id: int): (r: Option<nat>)
    ensures r.Some? ==> r.value < |pins| && pins[r.value].id == id
    ensures r.Some? ==> forall k :: 0 <= k < r.value ==> pins[k].id != id
    ensures r.None? <==> forall k :: 0 <= k < |pins| ==> pins[k].id != id
  {
    FirstIndex(pins, (p: Pin) => p.id, id)
  }

  /** Some input or output pin of `n` has ID `id`. */
  predicate HasPin(n: Node, id: int)
  {
    (exists k :: 0 <= k < |n.inputs| && n.inputs[k].id == id)
    || (exists k :: 0 <= k < |n.outputs| && n.outputs[k].id == id)
  }

  /** Where a pin sits: the node's index, which of its two pin lists, and the slot in it. */
  datatype PinLoc = PinLoc(node: nat, kind: PinKind, slot: nat)

  predicate ValidLoc(nodes: seq<Node>, loc: PinLoc)
  {
    loc.node < |nodes|
    && match loc.kind
       case Input => loc.slot < |nodes[loc.node].inputs|
       case Output => loc.slot < |nodes[loc.node].outputs|
  }

  function PinAt(nodes: seq<Node>, loc: PinLoc): Pin
    requires ValidLoc(nodes, loc)
  {
    match loc.kind
    case Input => nodes[loc.node].inputs[loc.slot]
    case Output => nodes[loc.node].outputs[loc.slot]
  }

  /**
   * The first pin with ID `id` in scan order: node by node, and in each node its inputs
   * before its outputs. None for the null ID 0, and None iff no pin has that ID.
   */
  function PinLocation(nodes: seq<Node>, id: int): (r: Option<PinLoc>)
    ensures id == 0 ==> r.None?
    ensures r.Some? ==> ValidLoc(nodes, r.value) && PinAt(nodes, r.value).id == id
    ensures r.Some? ==> FirstInScan(nodes, id, r.value)
    ensures r.None? <==> id == 0 || forall j :: 0 <= j < |nodes| ==> !HasPin(nodes[j], id)
  {
    if id == 0 then None else PinLocationFrom(nodes, id, 0)
  }

  /**
   * `loc` is the first place of pin `id` in scan order: no earlier node has the pin, and
   * within its node it is the first input with that ID, or, when no input has it, the
   * first output with that ID.
   */
  predicate FirstInScan(nodes: seq<Node>, id: int, loc: PinLoc)
  {
    loc.node < |nodes|
    && (forall j :: 0 <= j < loc.node ==> !HasPin(nodes[j], id))
    && match loc.kind
       case Input => PinSlot(nodes[loc.node].inputs, id) == Some(loc.slot)
       case Output =>
         PinSlot(nodes[loc.node].inputs, id).None? && PinSlot(nodes[loc.node].outputs, id) == Some(loc.slot)
  }

  function PinLocationFrom(nodes: seq<Node>, id: int, i: nat): (r: Option<PinLoc>)
    requires i <= |nodes|
    requires forall j :: 0 <= j < i ==> !HasPin(nodes[j], id)
    ensures r.Some? ==> ValidLoc(nodes, r.value) && PinAt(nodes, r.value).id == id
    ensures r.Some? ==> FirstInScan(nodes, id, r.value)
    ensures r.None? <==> forall j :: 0 <= j < |nodes| ==> !HasPin(nodes[j], id)
    decreases |nodes| - i
  {
    if i == |nodes| then None
    else match PinSlot(nodes[i].inputs, id)
      case Some(k) => Some(PinLoc(i, Input, k))
      case None =>
        match PinSlot(nodes[i].outputs, id)
        case Some(k) => Some(PinLoc(i, Output, k))
        case None => PinLocationFrom(nodes, id, i + 1)
  }

  /**
   * The node that owns pin `id`: the first node having a pin with that ID; None for
   * the null ID 0. After BuildNodes this is the back-reference of the pin FindPin returns.
   */
  function Owner(nodes: seq<Node>, id: int): (r: Option<nat>)
    ensures r.Some? ==> r.value < |nodes|
  {
    if id == 0 then None else OwnerFrom(nodes, id, 0)
  }

  function OwnerFrom(nodes: seq<Node>, id: int, i: nat): (r: Option<nat>)
    requires i <= |nodes|
    ensures r.Some? ==> i <= r.value < |nodes|
    decreases |nodes| - i
  {
    if i == |nodes| then None
    else if HasPin(nodes[i], id) then Some(i)
    else OwnerFrom(nodes, id, i + 1)
  }

  /**
   * The owner of a pin is the node where FindPin finds it, and the first node that has
   * the pin; a pin has no owner iff its ID is null or no node has it.
   */
  lemma OwnerIsFoundNode(nodes: seq<Node>, id: int)
    ensures Owner(nodes, id) == match PinLocation(nodes, id) case None => None case Some(loc) => Some(loc.node)
    ensures Owner(nodes, id).Some? ==> id != 0 && HasPin(nodes[Owner(nodes, id).value], id)
    ensures Owner(nodes, id).Some? ==> forall j :: 0 <= j < Owner(nodes, id).value ==> !HasPin(nodes[j], id)
    ensures Owner(nodes, id).None? <==> id == 0 || forall j :: 0 <= j < |nodes| ==> !HasPin(nodes[j], id)
  {
    if id != 0 {
      OwnerFromFirst(nodes, id, 0);
      var loc := PinLocation(nodes, id);
      if loc.Some? {
        var n := nodes[loc.value.node];
        match loc.value.kind
        case Input => assert n.inputs[loc.value.slot].id == id;
        case Output => assert n.outputs[loc.value.slot].id == id;
      }
    }
  }

  lemma {:induction false} OwnerFromFirst(nodes: seq<Node>, id: int, i: nat)
    requires i <= |nodes|
    requires forall j :: 0 <= j < i ==> !HasPin(nodes[j], id)
    ensures OwnerFrom(nodes, id, i).Some? ==>
      HasPin(nodes[OwnerFrom(nodes, id, i).value], id)
      && forall j :: 0 <= j < OwnerFrom(nodes, id, i).value ==> !HasPin(nodes[j], id)
    ensures OwnerFrom(nodes, id, i).None? <==> forall j :: 0 <= j < |nodes| ==> !HasPin(nodes[j], id)
    decreases |nodes| - i
  {
    if i < |nodes| && !HasPin(nodes[i], id) {
      OwnerFromFirst(nodes, id, i + 1);
    }
  }

  /** Pin `id` is the start or the end of some link; never for the null ID 0. */
  predicate Linked(links: seq<Link>, id: int)
  {
    id != 0 && exists k :: 0 <= k < |links| && (links[k].startPinId == id || links[k].endPinId == id)
  }

  /** The pins of one list after BuildNode: each stamped with the list's direction and its owner. */
  function Stamped(pins: seq<Pin>, kind: PinKind, owner: nat): seq<Pin>
  {
    seq(|pins|, k requires 0 <= k < |pins| => pins[k].(kind := kind, owner := Some(owner)))
  }

  /** Node `n`, at index `self` of the node list, after BuildNode. */
  function Built(n: Node, self: nat): Node
  {
    n.(inputs := Stamped(n.inputs, Input, self), outputs := Stamped(n.outputs, Output, self))
  }

  /** The node list after BuildNodes. */
  function BuiltAll(nodes: seq<Node>): seq<Node>
  {
    seq(|nodes|, i requires 0 <= i < |nodes| => Built(nodes[i], i))
  }

  /**
   * BuildNode changes only the direction and the owner of each pin: the node's other
   * fields, its pin lists' lengths and order, and each pin's ID, name and type stay.
   * Every input is an Input and every output an Output owned by `self`.
   */
  lemma BuiltNode(n: Node, self: nat)
    ensures Built(n, self).id == n.id && Built(n, self).nodeType == n.nodeType
    ensures Built(n, self).name == n.name && Built(n, self).state == n.state
    ensures |Built(n, self).inputs| == |n.inputs| && |Built(n, self).outputs| == |n.outputs|
    ensures forall k :: 0 <= k < |n.inputs| ==>
      var p := Built(n, self).inputs[k];
      p.id == n.inputs[k].id && p.name == n.inputs[k].name && p.pinType == n.inputs[k].pinType
      && p.kind == Input && p.owner == Some(self)
    ensures forall k :: 0 <= k < |n.outputs| ==>
      var p := Built(n, self).outputs[k];
      p.id == n.outputs[k].id && p.name == n.outputs[k].name && p.pinType == n.outputs[k].pinType
      && p.kind == Output && p.owner == Some(self)
  {
  }

  /** Building twice is building once. */
  lemma BuiltIdempotent(nodes: seq<Node>)
    ensures BuiltAll(BuiltAll(nodes)) == BuiltAll(nodes)
  {
    var once := BuiltAll(nodes);
    forall i | 0 <= i < |nodes| ensures Built(once[i], i) == once[i] {
      assert Stamped(once[i].inputs, Input, i) == once[i].inputs;
      assert Stamped(once[i].outputs, Output, i) == once[i].outputs;
    }
  }

  /** A pin's ID lookups cannot tell a node list from the same list rebuilt. */
  lemma BuiltKeepsPins(nodes: seq<Node>, id: int)
    ensures PinLocation(BuiltAll(nodes), id) == PinLocation(nodes, id)
    ensures Owner(BuiltAll(nodes), id) == Owner(nodes, id)
    ensures NodeIndex(BuiltAll(nodes), id) == NodeIndex(nodes, id)
  {
    var built := BuiltAll(nodes);
    forall i | 0 <= i < |nodes| ensures SameIds(built[i], nodes[i]) {
      BuiltNode(nodes[i], i);
    }
    SameIdsSameLookups(built, nodes, id);
  }

  /** After BuildNodes, the back-reference of the pin FindPin returns is the owner the scan finds. */
  lemma BuiltBackReference(nodes: seq<Node>, id: int)
    requires PinLocation(BuiltAll(nodes), id).Some?
    ensures var loc := PinLocation(BuiltAll(nodes), id).value;
      PinAt(BuiltAll(nodes), loc).owner == Owner(nodes, id)
      && PinAt(BuiltAll(nodes), loc).kind == loc.kind
  {
    BuiltKeepsPins(nodes, id);
    OwnerIsFoundNode(nodes, id);
    var loc := PinLocation(BuiltAll(nodes), id).value;
    BuiltNode(nodes[loc.node], loc.node);
  }

  /** Two nodes with the same node ID and the same pin IDs, slot by slot. */
  predicate SameIds(m: Node, n: Node)
  {
    m.id == n.id
    && |m.inputs| == |n.inputs| && (forall k :: 0 <= k < |m.inputs| ==> m.inputs[k].id == n.inputs[k].id)
    && |m.outputs| == |n.outputs| && (forall k :: 0 <= k < |m.outputs| ==> m.outputs[k].id == n.outputs[k].id)
  }

  /** The lookups read IDs only: node lists that agree on every ID agree on every lookup. */
  lemma SameIdsSameLookups(a: seq<Node>, b: seq<Node>, id: int)
    requires |a| == |b| && forall i :: 0 <= i < |a| ==> SameIds(a[i], b[i])
    ensures PinLocation(a, id) == PinLocation(b, id)
    ensures Owner(a, id) == Owner(b, id)
    ensures NodeIndex(a, id) == NodeIndex(b, id)
  {
    SameIdsSamePinLocation(a, b, id);
    OwnerIsFoundNode(a, id);
    OwnerIsFoundNode(b, id);
    var na, nb := NodeIndex(a, id), NodeIndex(b, id);
    if na.Some? && nb.Some? {
      assert !(na.value < nb.value) && !(nb.value < na.value);
    }
  }

  lemma SameIdsSamePinLocation(a: seq<Node>, b: seq<Node>, id: int)
    requires |a| == |b| && forall i :: 0 <= i < |a| ==> SameIds(a[i], b[i])
    ensures PinLocation(a, id) == PinLocation(b, id)
  {
    forall i | 0 <= i < |a|
      ensures PinSlot(a[i].inputs, id) == PinSlot(b[i].inputs, id)
      ensures PinSlot(a[i].outputs, id) == PinSlot(b[i].outputs, id)
      ensures HasPin(a[i], id) == HasPin(b[i], id)
    {
      SameIdsSameSlot(a[i].inputs, b[i].inputs, id);
      SameIdsSameSlot(a[i].outputs, b[i].outputs, id);
    }
    var ra, rb := PinLocation(a, id), PinLocation(b, id);
    if ra.Some? && rb.Some? {
      assert FirstInScan(a, id, rb.value);
      FirstInScanUnique(a, id, ra.value, rb.value);
    }
  }

  /** At most one place is first in scan order. */
  lemma FirstInScanUnique(nodes: seq<Node>, id: int, l1: PinLoc, l2: PinLoc)
    requires FirstInScan(nodes, id, l1) && FirstInScan(nodes, id, l2)
    ensures l1 == l2
  {
  }

  /** PinSlot reads only pin IDs. */
  lemma SameIdsSameSlot(a: seq<Pin>, b: seq<Pin>, id: int)
    requires |a| == |b| && forall k :: 0 <= k < |a| ==> a[k].id == b[k].id
    ensures PinSlot(a, id) == PinSlot(b, id)
  {
    var ra, rb := PinSlot(a, id), PinSlot(b, id);
    if ra.Some? && rb.Some? {
      assert !(ra.value < rb.value) && !(rb.value < ra.value);
    }
  }
}
