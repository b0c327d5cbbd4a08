/**
 * The editor widget's settings callbacks, as values: the graph-layout blob is stored
 * from a C string, and each node's opaque state blob is stored and read back through
 * a lookup by node ID.
 */
module PersistenceBridge {
  import opened Types
  import opened GraphLookup

  /**
   * What `std::string::assign(const char*)` keeps of a buffer: its bytes up to, and not
   * including, the first zero byte (all of it when it has none).
   */
  function CString(data: seq<byte>): (r: seq<byte>)
    ensures |r| <= |data| && r == data[..|r|]
    ensures forall k :: 0 <= k < |r| ==> r[k] != 0
    ensures |r| < |data| ==> data[|r|] == 0
  {
    if data == [] || data[0] == 0 then [] else [data[0]] + CString(data[1..])
  }

  /** The graph blob survives a save and a load unchanged exactly when it holds no zero byte. */
  lemma CStringRoundTrip(data: seq<byte>)
    ensures CString(data) == data <==> forall k :: 0 <= k < |data| ==> data[k] != 0
  {
  }

  /**
   * The node list after storing `blob` as the state of node `id`; None, with nothing
   * stored, when no node has that ID.
   */
  function StoreNodeBlob(nodes: seq<Node>, id: int, blob: seq<byte>): (r: Option<seq<Node>>)
  {
    match NodeIndex(nodes, id)
    case None => None
    case Some(i) => Some(nodes[i := nodes[i].(state := blob)])
  }

  /** The state blob of node `id`; empty when no node has that ID. */
  function NodeBlob(nodes: seq<Node>, id: int): seq<byte>
  {
    match NodeIndex(nodes, id)
    case None => []
    case Some(i) => nodes[i].state
  }

  /**
   * Storing succeeds iff the node exists, and then changes the state of the first node
   * with that ID and nothing else: the list keeps its length, every ID, and every lookup.
   */
  lemma StoreNodeBlobEffect(nodes: seq<Node>, id: int, blob: seq<byte>, pinId: int)
    ensures StoreNodeBlob(nodes, id, blob).Some? <==> exists k :: 0 <= k < |nodes| && nodes[k].id == id
    ensures StoreNodeBlob(nodes, id, blob).Some? ==>
      var after := StoreNodeBlob(nodes, id, blob).value;
      var i := NodeIndex(nodes, id).value;
      |after| == |nodes| && after[i].state == blob
      && after[i] == nodes[i].(state := blob)
      && (forall k :: 0 <= k < |nodes| && k != i ==> after[k] == nodes[k])
      && PinLocation(after, pinId) == PinLocation(nodes, pinId)
      && Owner(after, pinId) == Owner(nodes, pinId)
  {
    if StoreNodeBlob(nodes, id, blob).Some? {
      var after := StoreNodeBlob(nodes, id, blob).value;
      assert forall k :: 0 <= k < |nodes| ==> SameIds(after[k], nodes[k]);
      SameIdsSameLookups(after, nodes, pinId);
    }
  }

  /** save_node_settings then load_node_settings on the same node gives back exactly the bytes saved. */
  lemma NodeBlobRoundTrip(nodes: seq<Node>, id: int, blob: seq<byte>)
    requires StoreNodeBlob(nodes, id, blob).Some?
    ensures NodeBlob(StoreNodeBlob(nodes, id, blob).value, id) == blob
  {
    var after := StoreNodeBlob(nodes, id, blob).value;
    assert forall k :: 0 <= k < |nodes| ==> SameIds(after[k], nodes[k]);
    SameIdsSameLookups(after, nodes, id);
  }

  /** Saving one node's state leaves what every other node ID loads unchanged. */
  lemma NodeBlobOthersUnchanged(nodes: seq<Node>, id: int, other: int, blob: seq<byte>)
    requires StoreNodeBlob(nodes, id, blob).Some?
    requires other != id
    ensures NodeBlob(StoreNodeBlob(nodes, id, blob).value, other) == NodeBlob(nodes, other)
  {
    var after := StoreNodeBlob(nodes, id, blob).value;
    assert forall k :: 0 <= k < |nodes| ==> SameIds(after[k], nodes[k]);
    SameIdsSameLookups(after, nodes, other);
  }

  /** Loading the state of a node ID that no node has gives the empty blob. */
  lemma NodeBlobUnknown(nodes: seq<Node>, id: int)
    requires forall k :: 0 <= k < |nodes| ==> nodes[k].id != id
    ensures NodeBlob(nodes, id) == []
  {
  }
}
