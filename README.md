# Graph-integrity core of a blueprint node editor, in Dafny

This project models the non-drawing core of a node-graph editor built on an
immediate-mode node-editor widget (`src/internal.cpp`). One session record holds
the node list, the link list, a shared ID counter, the widget's graph-layout blob
and a dirty flag. The core does four things with it:

- **ID allocation** (`IdAllocator`, `Internal.Session`): one post-incremented
  counter serves nodes, pins and links. An ID restored from saved data bumps the
  counter to `max(counter, id + 1)`.
- **Graph lookup** (`GraphLookup`, `Internal.Session`): linear scans that find the
  first node, link or pin with a given ID. A link-scan predicate says whether a pin
  is linked. Pin ID 0 is the null pin.
- **Pin back-references** (`GraphLookup`, `Internal.Session`): `BuildNode` stamps
  every pin with its direction and owning node; `BuildNodes` does it for every node.
- **Ancestor test** (`AncestorResolver`): `isNodeAncestor` walks backwards from a
  node's input pins. It scans the link list for links that end at each input and
  resolves each link's start pin to its owning node. Then it recurses on those
  nodes. It keeps no visited set.
- **Persistence callbacks** (`PersistenceBridge`, `Internal.Session`): the widget's
  save/load hooks for the graph blob and for each node's state blob. A save whose
  reason has the Position bit sets the dirty flag.

Modelling choices:

- A pointer into the node or link list is an index (`Option<nat>`). A pin pointer
  is a `PinLoc`: node index, input or output list, and slot.
- The global session pointer is a `Session` object. The C++ `assert` that the
  session exists becomes "the method is called on a `Session`".
- The ID types of the widget and the counter are unbounded `int`.
- Blobs are `seq<byte>`. A load returns the bytes and their length.
- `SaveReasonFlags::Position` is `0x2`, as the widget library defines it. That
  header is not part of this model.
- A pin's owner in the ancestor test is `GraphLookup.Owner`: the first node that
  has a pin with that ID. This is the node where `FindPin` finds the pin
  (`OwnerIsFoundNode`). After `BuildNodes` it is also the back-reference stored in
  that pin (`BuiltBackReference`). The code reads that stored back-reference
  (src/internal.cpp:66), so the model assumes the back-references are current:
  `BuildNodes` has run since the last change to the node list or to any pin list.
  The two-node example is stated on such a node list.
- `isNodeAncestor` takes the ancestor by ID, which is all the search reads of it.
  It takes the descendant by node index. Termination needs an acyclic link graph.
  `Ranked` states this with a ghost rank on nodes that grows along every backward
  hop of the walk (`Feeds`): from the owner of a link's start pin to every node
  that has the link's end pin among its non-null inputs (src/internal.cpp:56-65).
  Resolving a link's start pin needs that pin to exist (`StartsResolve`). The code
  dereferences the result unchecked (src/internal.cpp:66-69).

Two places where the code may not do what a reader expects:

- The graph-blob save keeps `data` only up to its first zero byte, because it uses
  `assign(const char*)`. It ignores `size`. The round trip is exact only for blobs
  with no zero byte (`PersistenceBridge.CStringRoundTrip`).
- One might expect the ancestor search to skip a candidate that does not resolve to
  a node. The code instead returns `false` for the whole search at
  src/internal.cpp:77-78. That branch is unreachable anyway: line 69 has already
  dereferenced the candidate. The model requires every link's start pin to
  resolve, so the branch is absent.

## Model

| member | source | states |
|---|---|---|
| `Internal.Session.GetNextId` | src/internal.cpp:12-14 | returns the old counter and leaves it one higher, as the `Next` step of `IdAllocator.Step` |
| `Internal.Session.SetNextId` | src/internal.cpp:16-18 | the counter becomes the given value |
| `Internal.Session.LogRestoredId` | src/internal.cpp:20-24 | the counter becomes the `Restored(id)` step of `IdAllocator.Step`, i.e. `IdAllocator.Restore` |
| `Internal.Session.GetNextLinkId` | src/internal.cpp:92-95 | a link ID is drawn from the same counter, exactly like `GetNextId` |
| `IdAllocator.Restore` | src/internal.cpp:20-24 | after logging `id` the counter is at least its old value and above `id`, and is either the old value or `id + 1` |
| `IdAllocator.Replay` | src/internal.cpp:12-24 | over any sequence of draws and restores, issued IDs are strictly increasing (pairwise distinct), at least the starting counter and below the final counter; the counter never decreases |
| `IdAllocator.ReplayAppend` | src/internal.cpp:12-24 | two runs back to back equal the second run replayed from the counter the first leaves |
| `IdAllocator.ReplayExceedsRestored` | src/internal.cpp:20-24 | after a run, the counter is above every ID restored in it |
| `IdAllocator.FreshAfterRestore` | src/internal.cpp:12-24 | every ID issued after a run of restores exceeds every ID restored in that run, so restored and new IDs never collide |
| `IdAllocator.RestoredCounter` | src/internal.cpp:20-24 | after logging a load's IDs the counter is the least value that is at least the old counter and above every logged ID |
| `IdAllocator.RestoreOrderIndependent` | src/internal.cpp:20-24 | logging the same set of IDs in any order or multiplicity leaves the same counter |
| `IdAllocator.RestoreScenario` | src/internal.cpp:20-24 | `LogRestoredId(100)` then `LogRestoredId(50)` makes the next ID 101 |
| `GraphLookup.FirstIndex` | src/internal.cpp:98-106 | the linear scan the three lookups share: the first position whose ID matches; none iff no element has the ID |
| `GraphLookup.NodeIndex` | src/internal.cpp:98-106 | the first node whose ID matches; none iff no node has the ID |
| `GraphLookup.LinkIndex` | src/internal.cpp:108-116 | the first link whose ID matches; none iff no link has the ID |
| `GraphLookup.PinSlot` | src/internal.cpp:127-133 | the first slot of one pin list whose pin ID matches; none iff there is none |
| `GraphLookup.PinLocation` | src/internal.cpp:118-137 | none for ID 0; otherwise the first pin with the ID in scan order (node by node, inputs before outputs); none iff no node has the pin |
| `GraphLookup.Owner` | src/internal.cpp:66 | the owning node of a pin is a valid node index |
| `GraphLookup.OwnerIsFoundNode` | src/internal.cpp:66 | the owner of a pin is the node where `FindPin` finds it and the first node holding the pin; no owner iff the ID is 0 or no node has the pin |
| `GraphLookup.BuiltNode` | src/internal.cpp:26-39 | after `BuildNode` every input is an Input and every output an Output owned by the node; IDs, names, types, pin order and the node's other fields are unchanged |
| `GraphLookup.BuiltIdempotent` | src/internal.cpp:41-45 | rebuilding an already rebuilt node list changes nothing |
| `GraphLookup.BuiltKeepsPins` | src/internal.cpp:41-45 | rebuilding changes no node, pin or owner lookup |
| `GraphLookup.BuiltBackReference` | src/internal.cpp:26-45 | after `BuildNodes` the pin `FindPin` returns has the found node as its back-reference and the matching direction |
| `Internal.Session.BuildNode` | src/internal.cpp:26-39 | node `i` becomes `Built(node, i)` and no other node changes |
| `Internal.Session.BuildNodes` | src/internal.cpp:41-45 | the node list becomes `BuiltAll` of the old list |
| `Internal.Session.FindNode` | src/internal.cpp:98-106 | the loop returns exactly `NodeIndex` of the session's nodes and changes nothing |
| `Internal.Session.FindLink` | src/internal.cpp:108-116 | the loop returns exactly `LinkIndex` of the session's links and changes nothing |
| `Internal.Session.FindPin` | src/internal.cpp:118-137 | the nested loops return exactly `PinLocation` of the session's nodes and change nothing |
| `Internal.Session.IsPinLinked` | src/internal.cpp:139-151 | the loop returns exactly `Linked`: false for ID 0, otherwise true iff some link starts or ends at the pin |
| `AncestorResolver.Upstream` | src/internal.cpp:63-75 | the candidates collected for a pin are valid node indices, and a node is a candidate iff it owns the start pin of a link ending at that pin |
| `AncestorResolver.IsNodeAncestor` | src/internal.cpp:47-90 | false when the descendant has no inputs; terminates on a ranked (acyclic) graph |
| `AncestorResolver.ViaCandidatesIff` | src/internal.cpp:76-87 | the candidate loop succeeds iff some remaining candidate has the ancestor's ID or descends from it |
| `AncestorResolver.ViaInputsIff` | src/internal.cpp:56-88 | the input loop succeeds iff some remaining non-null input has a candidate that has the ancestor's ID or descends from it |
| `AncestorResolver.Unfold` | src/internal.cpp:47-90 | a node descends from the ancestor iff some node feeding one of its inputs has the ancestor's ID or descends from it |
| `AncestorResolver.Sound` | src/internal.cpp:47-90 | when the search says yes, a chain of one or more links leads from a node with the ancestor's ID to the descendant |
| `AncestorResolver.Complete` | src/internal.cpp:47-90 | when such a chain exists, the search says yes |
| `AncestorResolver.IsNodeAncestorIff` | src/internal.cpp:47-90 | on an acyclic graph the search is true iff such a chain exists |
| `AncestorResolver.NotOwnAncestor` | src/internal.cpp:47-90 | with distinct node IDs on an acyclic graph, no node is its own ancestor |
| `AncestorResolver.AncestryIgnoresRebuild` | src/internal.cpp:41-45 | rebuilding the pins keeps the graph resolvable and acyclic, and leaves every answer of the model's ancestor search (which finds owners by ID) the same |
| `AncestorResolver.TwoNodeScenario` | src/internal.cpp:47-151 | with A (ID 1, output pin 2), B (ID 3, input pin 4) and a link 2 to 4: A is an ancestor of B and B is not one of A; pin 2 is linked and pin 99 is not; node 3 is found and node 42 is not; the pins' back-references are current |
| `PersistenceBridge.CString` | src/internal.cpp:186 | the stored graph blob is the prefix of `data` before its first zero byte, and holds no zero byte |
| `PersistenceBridge.CStringRoundTrip` | src/internal.cpp:180-205 | the graph blob is stored unchanged iff it contains no zero byte |
| `PersistenceBridge.StoreNodeBlobEffect` | src/internal.cpp:219-232 | storing a node blob succeeds iff a node has the ID; it then replaces only that first node's state and changes no pin or owner lookup |
| `PersistenceBridge.NodeBlobRoundTrip` | src/internal.cpp:207-232 | after storing a blob for a node, loading that node returns exactly the stored bytes, the empty blob included |
| `PersistenceBridge.NodeBlobOthersUnchanged` | src/internal.cpp:207-232 | storing one node's blob leaves what every other node ID loads unchanged |
| `PersistenceBridge.NodeBlobUnknown` | src/internal.cpp:207-211 | loading the state of an unknown node ID gives the empty blob |
| `Internal.Session.SaveSettings` | src/internal.cpp:180-193 | always succeeds; the graph blob becomes `CString(data)`; dirty is set iff the reason has the Position bit, else kept |
| `Internal.Session.LoadSettings` | src/internal.cpp:195-205 | returns the stored graph blob and its length |
| `Internal.Session.SaveNodeSettings` | src/internal.cpp:219-232 | fails and changes nothing for an unknown node; otherwise the node list becomes `StoreNodeBlob` with the first `size` bytes, and dirty is set iff the reason has the Position bit, else kept |
| `Internal.Session.LoadNodeSettings` | src/internal.cpp:207-216 | returns the node's state blob and its length; the empty blob and 0 for an unknown node |

## Left out

- `Internal.Session.GetNextId`: does not model overflow of the 32-bit `int` counter. Signed overflow is undefined behaviour in C++, so the counter is an unbounded integer.
- `Internal.Session.LogRestoredId`: does not model overflow of `Id + 1` for the same reason.
- `Internal.Session.LoadSettings`, `Internal.Session.LoadNodeSettings`: the null-buffer size query and the `memcpy` into the caller's buffer are not modelled. A load returns the bytes and their length.
- The `userPointer` arguments of the callbacks: they are unused.
- `size` of the graph-blob save and the `reserve` call: they do not affect the stored blob.
- `DrawPinIcon` (src/internal.cpp:158-178): it computes a floating-point colour and calls a widget function that is not part of this model.
- `src/draw_nodes.cpp`: immediate-mode rendering through the widget library.
- Pointer validity: a pin's back-reference is an index. Its invalidation when the node list is reallocated, erased from or reordered is not modelled.
- Node colour, size and property map, and link colour: the core does not read them.
- Creating and destroying the session: it is not part of this model. The `Session` constructor stands for an initialised session.
- `AncestorResolver.IsNodeAncestor`: the source may not terminate on a cyclic link graph. It still terminates with `true` when the walk meets the ancestor before going round a cycle, for example a node with a link from its own output to its own input asked about itself (src/internal.cpp:69-70). Such a graph has no rank, so `Ranked` leaves that case outside the model.
- `AncestorResolver.IsNodeAncestor`: the source crashes only when the walk reaches a link whose start pin does not exist. `StartsResolve` instead requires every link's start pin to exist. This is a standing invariant of the session, stronger than what the source needs: a graph with a dangling link that the walk never reaches is answered by the source and is outside the model. The null-candidate branch at src/internal.cpp:77-78 is unreachable under `StartsResolve` and is not modelled.
- `AncestorResolver.IsNodeAncestor`: the owner of a start pin is found by ID (`GraphLookup.Owner`), not read from the pin's stored back-reference as at src/internal.cpp:66. The two agree when the back-references are current (`GraphLookup.BuiltBackReference`). The model assumes `BuildNodes` has run since the last change to the node list or to any pin list and does not capture a stale back-reference.
- `AncestorResolver.IsNodeAncestor`: the recursion depth and stack use of the search on deep chains are not modelled.
