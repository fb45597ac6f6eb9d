/**
 * The messages the graph component consumes: the full snapshot it is
 * created from and the incremental update pushed to it afterwards.
 * Only the fields the component reads are modelled.
 */
module ApiTypes {

  /** A node's public key, used as the node's identity. */
  type PubKey = string

  /** A channel's id, used as the link's identity. */
  type ChannelId = string

  /** One node of the snapshot. */
  datatype LightningNode = LightningNode(pubkey: PubKey, alias: string, color: string)

  /** One channel of the snapshot, between two nodes. */
  datatype LightningChannel = LightningChannel(channelId: ChannelId, node1PubKey: PubKey, node2PubKey: PubKey)

  /** The full snapshot. */
  datatype LightningGraph = LightningGraph(nodes: seq<LightningNode>, channels: seq<LightningChannel>)

  /** A node announcement: new display attributes for a node, or a new node. */
  datatype NodeUpdate = NodeUpdate(pubkey: PubKey, alias: string, color: string)

  /** A channel announcement. */
  datatype ChannelUpdate = ChannelUpdate(channelId: ChannelId, nodeId1: PubKey, nodeId2: PubKey)

  /** A channel that was closed. */
  datatype ChannelClose = ChannelClose(channelId: ChannelId)

  /** An incremental update: three ordered lists, applied in this order. */
  datatype LightningGraphUpdate = LightningGraphUpdate(
    nodeUpdates: seq<NodeUpdate>,
    channelUpdates: seq<ChannelUpdate>,
    channelCloses: seq<ChannelClose>)
}
