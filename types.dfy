/** The records of the node editor's session: nodes, their pins, links and opaque byte blobs. */
module Types {

  datatype Option<+T> = None | Some(value: T)

  /** One byte of an opaque blob (a `char` of the C++ buffers). */
  newtype byte = x: int | 0 <= x < 256

  /** Direction of a pin; BuildNode derives it from the sequence the pin sits in. */
  datatype PinKind = Input | Output

  /** Semantic type of the value a pin carries. */
  datatype PinType = Flow | Bool | Int | Float | String | Object | Function | Delegate

  /** Rendering variant of a node. */
  datatype NodeType = Blueprint | Simple | Tree | Comment | Houdini

  /**
   * A pin. `owner` is the back-reference to the owning node, written by BuildNode:
   * the index of that node in the session's node list, or None while it is unset.
   */
  datatype Pin = Pin(id: int, name: string, pinType: PinType, kind: PinKind, owner: Option<nat>)

  /** A node with its ordered input and output pins and its opaque persisted state. */
  datatype Node = Node(
    id: int,
    nodeType: NodeType,
    name: string,
    inputs: seq<Pin>,
    outputs: seq<Pin>,
    state: seq<byte>)

  /** A directed edge from an output pin (start) to an input pin (end), both given by ID. */
  datatype Link = Link(id: int, startPinId: int, endPinId: int)

  /** The editor widget's SaveReasonFlags, a 32-bit mask. */
  type SaveReason = bv32

  /** The Position bit of SaveReasonFlags. */
  const Position: SaveReason := 0x0000_0002

  predicate IsPositionChange(reason: SaveReason)
  {
    reason & Position != 0
  }
}
