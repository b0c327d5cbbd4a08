/**
 * The session record of the node editor and the core functions that read or update it.
 * The process-wide session pointer becomes a `Session` object: every operation is a
 * method on it, so "the session was created" is simply having the object.
 */
module Internal {
  import opened Types
  import opened GraphLookup
  import opened PersistenceBridge
  import IdAllocator

  class Session {
    /** The shared ID counter for nodes, pins and links. */
    var nextId: int
    var nodes: seq<Node>
    var links: seq<Link>
    /** The graph-layout blob the editor widget saves and loads. */
    var blueprintData: seq<byte>
    /** Unsaved changes that affect positions. */
    var dirty: bool

    constructor (nodes: seq<Node>, links: seq<Link>, nextId: int)
      ensures this.nodes == nodes && this.links == links && this.nextId == nextId
      ensures blueprintData == [] && !dirty
    {
      this.nodes := nodes;
      this.links := links;
      this.nextId := nextId;
      blueprintData := [];
      dirty := false;
    }

    /** Returns the counter, then increments it. */
    method GetNextId() returns (id: int)
      modifies this`nextId
      ensures IdAllocator.Tally(nextId, [id]) == IdAllocator.Step(old(nextId), IdAllocator.Next)
    {
      id := nextId;
      nextId := nextId + 1;
    }

    method SetNextId(id: int)
      modifies this`nextId
      ensures nextId == id
    {
      nextId := id;
    }

    /** Makes sure an ID read back from saved data will not be issued again. */
    method LogRestoredId(id: int)
      modifies this`nextId
      ensures nextId == IdAllocator.Step(old(nextId), IdAllocator.Restored(id)).counter
    {
      nextId := if id + 1 > nextId then id + 1 else nextId;
    }

    /** A link ID, drawn from the same counter as node and pin IDs. */
    method GetNextLinkId() returns (id: int)
      modifies this`nextId
      ensures IdAllocator.Tally(nextId, [id]) == IdAllocator.Step(old(nextId), IdAllocator.Next)
    {
      id := GetNextId();
    }

    /** Stamps each pin of node `i` with its direction and with `i` as its owner. */
    method BuildNode(i: nat)
      requires i < |nodes|
      modifies this`nodes
      ensures nodes == old(nodes)[i := Built(old(nodes)[i], i)]
    {
      var node := nodes[i];
      var inputs := node.inputs;
      var k := 0;
      while k < |inputs|
        invariant 0 <= k <= |inputs| == |node.inputs|
        invariant forall m :: 0 <= m < k ==> inputs[m] == node.inputs[m].(kind := Input, owner := Some(i))
        invariant forall m :: k <= m < |inputs| ==> inputs[m] == node.inputs[m]
      {
        inputs := inputs[k := inputs[k].(owner := Some(i), kind := Input)];
        k := k + 1;
      }
      var outputs := node.outputs;
      k := 0;
      while k < |outputs|
        invariant 0 <= k <= |outputs| == |node.outputs|
        invariant forall m :: 0 <= m < k ==> outputs[m] == node.outputs[m].(kind := Output, owner := Some(i))
        invariant forall m :: k <= m < |outputs| ==> outputs[m] == node.outputs[m]
      {
        outputs := outputs[k := outputs[k].(owner := Some(i), kind := Output)];
        k := k + 1;
      }
      assert inputs == Stamped(node.inputs, Input, i);
      assert outputs == Stamped(node.outputs, Output, i);
      nodes := nodes[i := node.(inputs := inputs, outputs := outputs)];
    }

    /** Rebuilds the pin back-references of every node. */
    method BuildNodes()
      modifies this`nodes
      ensures nodes == BuiltAll(old(nodes))
    {
      var i := 0;
      while i < |nodes|
        invariant 0 <= i <= |nodes| == |old(nodes)|
        invariant forall j :: 0 <= j < i ==> nodes[j] == Built(old(nodes)[j], j)
        invariant forall j :: i <= j < |nodes| ==> nodes[j] == old(nodes)[j]
      {
        BuildNode(i);
        i := i + 1;
      }
    }

    /** The first node with ID `id`. */
    method FindNode(id: int) returns (r: Option<nat>)
      ensures r == NodeIndex(nodes, id)
    {
      var i := 0;
      while i < |nodes|
        invariant 0 <= i <= |nodes|
        invariant forall k :: 0 <= k < i ==> nodes[k].id != id
      {
        if nodes[i].id == id {
          return Some(i);
        }
        i := i + 1;
      }
      return None;
    }

    /** The first link with ID `id`. */
    method FindLink(id: int) returns (r: Option<nat>)
      ensures r == LinkIndex(links, id)
    {
      var i := 0;
      while i < |links|
        invariant 0 <= i <= |links|
        invariant forall k :: 0 <= k < i ==> links[k].id != id
      {
        if links[i].id == id {
          return Some(i);
        }
        i := i + 1;
      }
      return None;
    }

    /** The first pin with ID `id`, scanning each node's inputs before its outputs; never the null pin 0. */
    method FindPin(id: int) returns (r: Option<PinLoc>)
      ensures r == PinLocation(nodes, id)
    {
      if id == 0 {
        return None;
      }
      var i := 0;
      while i < |nodes|
        invariant 0 <= i <= |nodes|
        invariant forall j :: 0 <= j < i ==> !HasPin(nodes[j], id)
      {
        var node := nodes[i];
        var k := 0;
        while k < |node.inputs|
          invariant 0 <= k <= |node.inputs|
          invariant forall m :: 0 <= m < k ==> node.inputs[m].id != id
        {
          if node.inputs[k].id == id {
            r := Some(PinLoc(i, Input, k));
            FirstInScanUnique(nodes, id, r.value, PinLocation(nodes, id).value);
            return;
          }
          k := k + 1;
        }
        k := 0;
        while k < |node.outputs|
          invariant 0 <= k <= |node.outputs|
          invariant forall m :: 0 <= m < k ==> node.outputs[m].id != id
        {
          if node.outputs[k].id == id {
            r := Some(PinLoc(i, Output, k));
            FirstInScanUnique(nodes, id, r.value, PinLocation(nodes, id).value);
            return;
          }
          k := k + 1;
        }
        i := i + 1;
      }
      return None;
    }

    /** Whether some link starts or ends at pin `id`; never for the null pin 0. */
    method IsPinLinked(id: int) returns (r: bool)
      ensures r == Linked(links, id)
    {
      if id == 0 {
        return false;
      }
      var i := 0;
      while i < |links|
        invariant 0 <= i <= |links|
        invariant forall k :: 0 <= k < i ==> links[k].startPinId != id && links[k].endPinId != id
      {
        if links[i].startPinId == id || links[i].endPinId == id {
          return true;
        }
        i := i + 1;
      }
      return false;
    }

    /**
     * The editor widget saves the graph layout: the blob becomes the C string in `data`
     * (`size` is not read); a Position reason marks the session dirty.
     */
    method SaveSettings(data: seq<byte>, size: nat, reason: SaveReason) returns (ok: bool)
      modifies this`blueprintData, this`dirty
      ensures ok
      ensures blueprintData == CString(data)
      ensures dirty == (old(dirty) || IsPositionChange(reason))
    {
      blueprintData := CString(data);
      if IsPositionChange(reason) {
        dirty := true;
      }
      return true;
    }

    /** The editor widget loads the graph layout: the stored blob and its length. */
    method LoadSettings() returns (size: nat, data: seq<byte>)
      ensures data == blueprintData && size == |data|
    {
      size := |blueprintData|;
      data := blueprintData;
    }

    /**
     * The editor widget saves one node's state: the first `size` bytes of `data` become the
     * state of node `nodeId`, and a Position reason marks the session dirty. An unknown
     * node is refused and nothing changes.
     */
    method SaveNodeSettings(nodeId: int, data: seq<byte>, size: nat, reason: SaveReason) returns (ok: bool)
      requires size <= |data|
      modifies this`nodes, this`dirty
      ensures ok == StoreNodeBlob(old(nodes), nodeId, data[..size]).Some?
      ensures nodes == if ok then StoreNodeBlob(old(nodes), nodeId, data[..size]).value else old(nodes)
      ensures dirty == if ok then old(dirty) || IsPositionChange(reason) else old(dirty)
    {
      var found := FindNode(nodeId);
      if found.None? {
        return false;
      }
      var i := found.value;
      nodes := nodes[i := nodes[i].(state := data[..size])];
      if IsPositionChange(reason) {
        dirty := true;
      }
      return true;
    }

    /** The editor widget loads one node's state: its blob and length, or nothing for an unknown node. */
    method LoadNodeSettings(nodeId: int) returns (size: nat, data: seq<byte>)
      ensures data == NodeBlob(nodes, nodeId) && size == |data|
    {
      var found := FindNode(nodeId);
      if found.None? {
        return 0, [];
      }
      data := nodes[found.value].state;
      size := |data|;
    }
  }
}
