/**
 * The graph component's state: the node and link arrays it hands to the
 * renderer and the simulation, filled from a snapshot and then merged with
 * incremental updates in place.
 */
module GraphComponent {
  import opened ApiTypes
  import opened Records
  import opened Merge

  /**
   * `find` / `findIndex` by id: a linear scan that stops at the first
   * match, giving -1 when nothing matches.
   */
  method FindIndex(ids: seq<string>, id: string) returns (k: int)
    ensures -1 <= k < |ids|
    ensures k == IndexOf(ids, id)
  {
    k := 0;
    while k < |ids|
      invariant 0 <= k <= |ids|
      invariant forall j :: 0 <= j < k ==> ids[j] != id
    {
      if ids[k] == id {
        return;
      }
      k := k + 1;
    }
    k := -1;
  }

  class Graph {
    /** The node records, in the order they were added. */
    var nodes: seq<NodeRecord>
    /** The link records, in the order they were added. */
    var links: seq<LinkRecord>
    /**
     * Whether `createGraph` has run. Before it, both arrays are undefined
     * (the fields have no initializer), and `nodes`/`links` here hold no
     * meaning.
     */
    var created: bool

    /** Both arrays, as one value. */
    function Data(): GraphData
      reads this
    {
      GraphData(nodes, links)
    }

    /** A component that has not drawn a graph yet: its arrays are still undefined. */
    constructor ()
      ensures !created
    {
      nodes, links, created := [], [], false;
    }

    /** Replaces both arrays with the records mapped from a full snapshot. */
    method CreateGraph(graph: LightningGraph)
      modifies this
      ensures created
      ensures Data() == FromSnapshot(graph)
      ensures NodeIds(nodes) == seq(|graph.nodes|, i requires 0 <= i < |graph.nodes| => graph.nodes[i].pubkey)
      ensures LinkIds(links) == seq(|graph.channels|, i requires 0 <= i < |graph.channels| => graph.channels[i].channelId)
    {
      nodes := SnapshotNodes(graph.nodes);
      links := SnapshotLinks(graph.channels);
      created := true;
    }

    /**
     * Applies an update in three passes: node upserts, then channel
     * upserts, then channel closes. Nodes are only ever updated in place
     * or appended.
     *
     * Before `createGraph` the arrays are undefined, and the call throws a
     * TypeError before it changes anything: at the first `find` or
     * `findIndex` on them, or, for an empty update, when `draw()` selects
     * in the still undefined SVG container. `ok` is false exactly then.
     */
    method UpdateGraph(update: LightningGraphUpdate) returns (ok: bool)
      modifies this
      ensures ok == old(created) && created == old(created)
      ensures !ok ==> Data() == old(Data())
      ensures ok ==> Data() == ApplyUpdate(old(Data()), update)
      ensures |old(nodes)| <= |nodes|
      ensures forall i :: 0 <= i < |old(nodes)| ==> nodes[i].id == old(nodes)[i].id && nodes[i].sim == old(nodes)[i].sim
    {
      if !created {
        return false;
      }
      ApplyNodeUpdates(update.nodeUpdates);
      ApplyChannelUpdates(update.channelUpdates);
      ApplyChannelCloses(update.channelCloses);
      NodePassKeepsExisting(old(nodes), update.nodeUpdates);
      ok := true;
    }

    /** The node pass: update the first node with the pubkey in place, or push a new one. */
    method ApplyNodeUpdates(nodeUpdates: seq<NodeUpdate>)
      modifies this`nodes
      ensures nodes == UpsertNodes(old(nodes), nodeUpdates)
    {
      for i := 0 to |nodeUpdates|
        invariant nodes == UpsertNodes(old(nodes), nodeUpdates[..i])
      {
        var u := nodeUpdates[i];
        var k := FindIndex(NodeIds(nodes), u.pubkey);
        if k >= 0 {
          nodes := nodes[k := nodes[k].(title := u.alias, color := u.color)];
        } else {
          nodes := nodes + [NodeRecord(u.pubkey, u.color, u.alias, Unplaced)];
        }
        assert nodeUpdates[..i + 1][..i] == nodeUpdates[..i];
      }
      assert nodeUpdates[..|nodeUpdates|] == nodeUpdates;
    }

    /** The channel pass: push a link for each channel id not linked yet. */
    method ApplyChannelUpdates(channelUpdates: seq<ChannelUpdate>)
      modifies this`links
      ensures links == UpsertLinks(old(links), channelUpdates)
    {
      for i := 0 to |channelUpdates|
        invariant links == UpsertLinks(old(links), channelUpdates[..i])
      {
        var c := channelUpdates[i];
        var k := FindIndex(LinkIds(links), c.channelId);
        if k < 0 {
          links := links + [LinkRecord(c.nodeId1, c.nodeId2, c.channelId)];
        }
        assert channelUpdates[..i + 1][..i] == channelUpdates[..i];
      }
      assert channelUpdates[..|channelUpdates|] == channelUpdates;
    }

    /** The close pass: `splice(findIndex(id), 1)` for each closed channel. */
    method ApplyChannelCloses(channelCloses: seq<ChannelClose>)
      modifies this`links
      ensures links == CloseLinks(old(links), channelCloses)
    {
      for i := 0 to |channelCloses|
        invariant links == CloseLinks(old(links), channelCloses[..i])
      {
        var index := FindIndex(LinkIds(links), channelCloses[i].channelId);
        links := SpliceOne(links, index);
        assert channelCloses[..i + 1][..i] == channelCloses[..i];
      }
      assert channelCloses[..|channelCloses|] == channelCloses;
    }
  }
}
