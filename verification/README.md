# Lightning network graph: id-keyed merge of graph state

This project models the state-keeping part of the client's `Graph`
component, which renders a Lightning network as a force-directed graph.
The component keeps two arrays:

- `nodes`: records `{id, color, title}`. The force simulation later
  attaches its own fields (index, position, velocity) to these objects.
- `links`: records `{source, target, id}`.

`createGraph` fills both arrays from a full snapshot. It maps each node's
`pubkey`, `color` and `alias` to `id`, `color` and `title`. It maps each
channel's `node1PubKey`, `node2PubKey` and `channelId` to `source`,
`target` and `id`.

`updateGraph` then merges an incremental update in three ordered passes:

1. Node upserts. The first node with the update's pubkey gets the new
   title and color. If there is none, a new node is pushed.
2. Channel upserts. A channel id that is already linked is ignored. An
   unknown one is pushed, whatever its endpoints are.
3. Channel closes. `links.splice(links.findIndex(...), 1)`.

Layout of the Dafny files:

- `api_types.dfy` (`ApiTypes`): the snapshot and update messages, with the
  fields the component reads.
- `records.dfy` (`Records`): the node and link records and the snapshot
  mapping. It also holds `IndexOf`, the id lookup behind `find` and
  `findIndex`.
- `merge.dfy` (`Merge`): each pass as a function on values, folded over
  its list (`UpsertNodes`, `UpsertLinks`, `CloseLinks`). `ApplyUpdate`
  composes the passes. The file also holds the lemmas about them.
- `graph.dfy` (`GraphComponent`): the component as a class. Its `nodes` and
  `links` are sequence fields. `CreateGraph` reassigns them. `UpdateGraph`
  changes them with three loops, one method per loop, and is proved equal
  to `ApplyUpdate`. `FindIndex` is the linear scan behind `find` and
  `findIndex`.
- `scenarios.dfy` (`Scenarios`): concrete runs on small graphs.

A node record carries `sim: SimFields`, standing for the fields the
simulation owns. Records created by the component start out `Unplaced`.
The lemmas show that no pass ever changes `sim` for an existing node.

## Behaviour worth knowing

- One might expect closing an unknown channel id to be a no-op. In the
  code, `findIndex` returns -1, and `splice(-1, 1)` removes the last link.
  Only an empty array is left as it is. So every close removes one link
  while any remain (`Merge.CloseLinksCount`,
  `Scenarios.UnknownCloseRemovesLast`).
- The channel loop of `updateGraph` does not check that a channel's
  endpoints are nodes: it pushes the link anyway
  (`Scenarios.DanglingChannelIsAdded`). The following `draw()` is outside
  the model (see "Left out").
- `createGraph` maps the snapshot as it is, without checking endpoints or
  duplicate ids.
- Before `createGraph` the two arrays are undefined, so `updateGraph`
  throws before it changes anything (`GraphComponent.Graph.UpdateGraph`
  returns `ok == false` then).

## Model

| member | source | states |
|---|---|---|
| `Records.IndexOf` | client/src/scenes/graph/components/Graph.tsx:131 | Gives the first position holding the id, or -1 exactly when the id is absent |
| `GraphComponent.FindIndex` | client/src/scenes/graph/components/Graph.tsx:106 | The linear scan stops at the first match and returns -1 when nothing matches, agreeing with `IndexOf` |
| `Records.SnapshotNodes` | client/src/scenes/graph/components/Graph.tsx:67-71 | Same length and order as the snapshot's nodes; each record has id = pubkey, color = color, title = alias and no simulation fields |
| `Records.SnapshotLinks` | client/src/scenes/graph/components/Graph.tsx:75-79 | Same length and order as the snapshot's channels; each link has source = node1PubKey, target = node2PubKey, id = channelId |
| `GraphComponent.Graph.constructor` | client/src/scenes/graph/components/Graph.tsx:24-25 | A new component has not been created from a snapshot: its arrays have no initializer and are undefined |
| `GraphComponent.Graph.CreateGraph` | client/src/scenes/graph/components/Graph.tsx:67-79 | The component counts as created; both arrays are replaced by the snapshot mapping; node and link ids are the snapshot's pubkeys and channel ids, in order |
| `Merge.UpsertNode` | client/src/scenes/graph/components/Graph.tsx:106-116 | A known id changes only the title and color of the first node with it; id, simulation fields, the other nodes and the length stay. An unknown id is appended after the unchanged old nodes |
| `Merge.UpsertNodeIds` | client/src/scenes/graph/components/Graph.tsx:106-116 | One node update leaves the node ids as they were, or appends the update's pubkey |
| `Merge.UpsertNodeKeeps` | client/src/scenes/graph/components/Graph.tsx:106-116 | One node update keeps every node's place, id and simulation fields; nodes with another id are unchanged; a pushed node has no simulation fields |
| `Merge.UpsertNodeSets` | client/src/scenes/graph/components/Graph.tsx:106-116 | After one node update, the first node with its pubkey carries its title and color |
| `Merge.UpsertNodeOther` | client/src/scenes/graph/components/Graph.tsx:106-116 | One node update neither moves nor changes the first node with any other id |
| `Merge.NodePassKeepsExisting` | client/src/scenes/graph/components/Graph.tsx:105-117 | The node pass never removes or moves a node. Ids and simulation fields stay, and appended nodes have no simulation fields |
| `Merge.NodePassUntouched` | client/src/scenes/graph/components/Graph.tsx:105-117 | A node that no update of the pass names is left exactly as it was |
| `Merge.NodePassIds` | client/src/scenes/graph/components/Graph.tsx:105-117 | After the node pass, the node ids are exactly the old ids plus every update's pubkey |
| `Merge.NodePassDistinct` | client/src/scenes/graph/components/Graph.tsx:106-115 | Distinct node ids stay distinct, even when one update names a pubkey twice |
| `Merge.NodePassLastWins` | client/src/scenes/graph/components/Graph.tsx:105-117 | The last update naming a pubkey decides the title and color of the node with that id |
| `Merge.UpsertLink` | client/src/scenes/graph/components/Graph.tsx:120-127 | A linked channel id leaves the links unchanged. An unknown one is appended with source = nodeId1 and target = nodeId2, and no node is consulted |
| `Merge.UpsertLinkIds` | client/src/scenes/graph/components/Graph.tsx:120-127 | One channel update leaves the link ids as they were, or appends its channel id |
| `Merge.LinkPassPrefix` | client/src/scenes/graph/components/Graph.tsx:119-128 | The channel pass keeps the old links as a prefix, in place and in order |
| `Merge.LinkPassIds` | client/src/scenes/graph/components/Graph.tsx:119-128 | After the channel pass, the link ids are exactly the old ids plus the updates' channel ids |
| `Merge.LinkPassDistinct` | client/src/scenes/graph/components/Graph.tsx:119-128 | Distinct link ids stay distinct, even when one update names a channel id twice |
| `Merge.UpsertLinkAdds` | client/src/scenes/graph/components/Graph.tsx:120-127 | A channel update with a new id makes the pushed link the one found under that id |
| `Merge.UpsertLinkKeepsLinked` | client/src/scenes/graph/components/Graph.tsx:120-127 | A channel update neither moves nor changes the link found under an already linked id |
| `Merge.LinkPassFirstWins` | client/src/scenes/graph/components/Graph.tsx:119-128 | For a new channel id, the first update naming it decides the link; later ones are ignored |
| `Merge.SpliceOne` | client/src/scenes/graph/components/Graph.tsx:132 | `splice(start, 1)` with start in range removes that element and keeps the order of the rest. With start -1 it removes the last element of a non-empty array |
| `Merge.CloseLinkPresent` | client/src/scenes/graph/components/Graph.tsx:130-133 | Closing a linked id removes exactly the first link with it, and the rest keep their order. With distinct ids, the id is gone and ids stay distinct |
| `Merge.CloseLinkAbsent` | client/src/scenes/graph/components/Graph.tsx:131-132 | Closing an unknown id removes the last link; an empty array stays empty |
| `Merge.CloseLinksCount` | client/src/scenes/graph/components/Graph.tsx:130-133 | Every close removes one link while any remain, whatever id it names |
| `Merge.CloseLinkShrinks` | client/src/scenes/graph/components/Graph.tsx:130-133 | A close adds no id and keeps distinct ids distinct |
| `Merge.CloseLinksShrink` | client/src/scenes/graph/components/Graph.tsx:130-133 | The close pass adds no id and keeps distinct link ids distinct |
| `Merge.CloseLinksRemovesClosed` | client/src/scenes/graph/components/Graph.tsx:130-133 | Starting from distinct link ids, no closed id is linked after the close pass |
| `Merge.UpdatePassOrdering` | client/src/scenes/graph/components/Graph.tsx:105-133 | Across a whole update, no node is removed or moved and ids stay distinct. Starting from distinct link ids, every remaining link was linked or upserted and is not among the closed ids |
| `Merge.RemoveAtOccurrences` | client/src/scenes/graph/components/Graph.tsx:132 | Splicing out one link removes exactly one occurrence of its id and leaves every other id's count |
| `Merge.CloseLinkOccurrences` | client/src/scenes/graph/components/Graph.tsx:131-132 | A close never adds a link with a given id, and closing an id carried by at most one link leaves none |
| `Merge.CloseLinksOccurrences` | client/src/scenes/graph/components/Graph.tsx:130-133 | The close pass keeps an id carried by at most one link so, and once it has closed that id no link carries it |
| `Merge.LinkPassOccurrences` | client/src/scenes/graph/components/Graph.tsx:119-128 | The channel pass never makes an id carried by at most one link carried twice |
| `Merge.UpdateRemovesClosed` | client/src/scenes/graph/components/Graph.tsx:119-133 | With no assumption on the other link ids, a closed id that at most one link carried before the update, in particular a channel the same update adds, is absent afterwards |
| `GraphComponent.Graph.UpdateGraph` | client/src/scenes/graph/components/Graph.tsx:104-136 | Before `createGraph` the call fails (the source throws a TypeError on the undefined arrays) and changes nothing. Afterwards the three loops leave exactly the state `ApplyUpdate` gives: node pass, then channel pass, then close pass. No existing node loses its place, id or simulation fields |
| `GraphComponent.Graph.ApplyNodeUpdates` | client/src/scenes/graph/components/Graph.tsx:105-117 | The node loop leaves `nodes` equal to the node pass over the old array, and `links` untouched |
| `GraphComponent.Graph.ApplyChannelUpdates` | client/src/scenes/graph/components/Graph.tsx:119-128 | The channel loop leaves `links` equal to the channel pass over the old array, and `nodes` untouched |
| `GraphComponent.Graph.ApplyChannelCloses` | client/src/scenes/graph/components/Graph.tsx:130-133 | The close loop leaves `links` equal to the close pass over the old array, and `nodes` untouched |
| `Scenarios.EndToEndScenario` | client/src/scenes/graph/components/Graph.tsx:104-136 | Snapshot {A, B; L1}, then adding C and L2, then closing L1, leaves nodes A, B, C and the single link L2 |
| `Scenarios.UnknownCloseRemovesLast` | client/src/scenes/graph/components/Graph.tsx:131-132 | Closing an unknown id twice on two links empties the array, so removal is not idempotent |
| `Scenarios.DanglingChannelIsAdded` | client/src/scenes/graph/components/Graph.tsx:119-128 | A channel between ids that are not nodes is added anyway |
| `Scenarios.AddedAndClosedAmongDuplicates` | client/src/scenes/graph/components/Graph.tsx:119-133 | Adding and closing X on links [L1, L1] leaves [L1, L1]: X is gone and the duplicates stay |

## Left out

- `draw()` is not modelled. It holds the D3 data join, the enter and exit transitions and the SVG elements, all of which work on the DOM through a library.
- The force simulation is not modelled: its setup, the tick callback and the restart in `draw()`. It is floating-point numerics inside d3-force. `SimFields.Placed` stands for what it attaches to nodes, but no operation of the model produces it.
- The link force rewrites `source` and `target` from id strings to node object references when `draw()` runs. Link records here keep the ids, and no operation reads the endpoints.
- The node objects are shared with the simulation, which mutates them. The model holds records as values in sequence fields, so it does not capture that aliasing.
- The SVG and viewBox setup, `shouldComponentUpdate`, `render` and the rest of the React lifecycle are UI plumbing and are not modelled.
- `server/src/Server.ts` is not part of this model. It holds the Express middleware, static file serving, the LND client, the WebSocket broadcast and process start-up.
- The client's API service, which declares the snapshot and update types, is not part of this model. The message datatypes carry only the fields `Graph.tsx` reads.
- The code does no snapshot validation and no dangling-link reporting, so the model has none either.
- A link whose endpoint is not a node stays in `links` after the channel loop (as modelled). The `draw()` that follows hands `links` to d3's link force with an id accessor, and that library call fails on an endpoint id that names no node. The model does not capture that failure, since `draw()` is left out.
- `GraphComponent.Graph.CreateGraph` does not model the failure of `createGraph` when the component has not rendered its SVG element yet (it reads the element's parent size); that belongs to the React lifecycle.
