/**
 * What one incremental update does to the component's node and link
 * arrays, as functions on values: the node pass, the channel pass and the
 * close pass, each a left-to-right fold over its list, and the properties
 * the three passes keep.
 */
module Merge {
  import opened ApiTypes
  import opened Records

  /** The component's two arrays, as values. */
  datatype GraphData = GraphData(nodes: seq<NodeRecord>, links: seq<LinkRecord>)

  /** The graph the component holds right after it was created from a snapshot. */
  function FromSnapshot(g: LightningGraph): GraphData {
    GraphData(SnapshotNodes(g.nodes), SnapshotLinks(g.channels))
  }

  // ----------------------------------------------------------------------
  // Pass 1: node upserts
  // ----------------------------------------------------------------------

  /** The record pushed for a node id not seen before: no simulation fields yet. */
  function NewNode(u: NodeUpdate): NodeRecord {
    NodeRecord(u.pubkey, u.color, u.alias, Unplaced)
  }

  /** The pubkeys named by a list of node updates, in order. */
  function Pubkeys(us: seq<NodeUpdate>): seq<PubKey> {
    seq(|us|, i requires 0 <= i < |us| => us[i].pubkey)
  }

  /**
   * One node update: the first node with the update's pubkey gets the new
   * title and color and keeps everything else; without such a node, a new
   * one is pushed at the end.
   */
  function UpsertNode(nodes: seq<NodeRecord>, u: NodeUpdate): (r: seq<NodeRecord>)
    ensures u.pubkey in NodeIds(nodes) ==>
      var k := IndexOf(NodeIds(nodes), u.pubkey);
      && |r| == |nodes|
      && r[k].id == nodes[k].id && r[k].sim == nodes[k].sim
      && r[k].title == u.alias && r[k].color == u.color
      && forall i :: 0 <= i < |nodes| && i != k ==> r[i] == nodes[i]
    ensures u.pubkey !in NodeIds(nodes) ==>
      |r| == |nodes| + 1 && r[..|nodes|] == nodes && r[|nodes|] == NewNode(u)
  {
    var k := IndexOf(NodeIds(nodes), u.pubkey);
    if k >= 0 then nodes[k := nodes[k].(title := u.alias, color := u.color)]
    else nodes + [NewNode(u)]
  }

  /** The node array after the first |us| node updates. */
  function UpsertNodes(nodes: seq<NodeRecord>, us: seq<NodeUpdate>): seq<NodeRecord>
    decreases |us|
  {
    if us == [] then nodes else UpsertNode(UpsertNodes(nodes, us[..|us| - 1]), us[|us| - 1])
  }

  /** One node update leaves the node ids as they were, or appends the update's pubkey. */
  lemma UpsertNodeIds(nodes: seq<NodeRecord>, u: NodeUpdate)
    ensures NodeIds(UpsertNode(nodes, u)) ==
      if u.pubkey in NodeIds(nodes) then NodeIds(nodes) else NodeIds(nodes) + [u.pubkey]
  {
    var r := UpsertNode(nodes, u);
    if u.pubkey !in NodeIds(nodes) {
      assert r == nodes + [NewNode(u)];
    }
  }

  /** One node update keeps every node's place, id and simulation fields. */
  lemma UpsertNodeKeeps(nodes: seq<NodeRecord>, u: NodeUpdate)
    ensures var r := UpsertNode(nodes, u);
      && |nodes| <= |r| <= |nodes| + 1
      && (forall i :: 0 <= i < |nodes| ==> r[i].id == nodes[i].id && r[i].sim == nodes[i].sim)
      && (forall i :: 0 <= i < |nodes| && nodes[i].id != u.pubkey ==> r[i] == nodes[i])
      && (|r| == |nodes| + 1 ==> r[|nodes|].sim == Unplaced)
  {
    if u.pubkey !in NodeIds(nodes) {
      forall i | 0 <= i < |nodes| ensures UpsertNode(nodes, u)[i] == nodes[i] {
        assert UpsertNode(nodes, u)[..|nodes|][i] == nodes[i];
      }
    }
  }

  /**
   * The node pass removes nothing and moves nothing: every node keeps its
   * place, its id and its simulation fields, and nodes beyond the old end
   * are new ones without simulation fields.
   */
  lemma {:induction false} NodePassKeepsExisting(nodes: seq<NodeRecord>, us: seq<NodeUpdate>)
    ensures var r := UpsertNodes(nodes, us);
      && |nodes| <= |r|
      && (forall i :: 0 <= i < |nodes| ==> r[i].id == nodes[i].id && r[i].sim == nodes[i].sim)
      && (forall i :: |nodes| <= i < |r| ==> r[i].sim == Unplaced)
    decreases |us|
  {
    if us != [] {
      var pre, u := us[..|us| - 1], us[|us| - 1];
      NodePassKeepsExisting(nodes, pre);
      UpsertNodeKeeps(UpsertNodes(nodes, pre), u);
    }
  }

  /** A node that no update of the pass names is left exactly as it was. */
  lemma {:induction false} NodePassUntouched(nodes: seq<NodeRecord>, us: seq<NodeUpdate>, i: nat)
    requires i < |nodes| && nodes[i].id !in Pubkeys(us)
    ensures i < |UpsertNodes(nodes, us)| && UpsertNodes(nodes, us)[i] == nodes[i]
    decreases |us|
  {
    if us != [] {
      var pre, u := us[..|us| - 1], us[|us| - 1];
      assert Pubkeys(us) == Pubkeys(pre) + [u.pubkey];
      NodePassUntouched(nodes, pre, i);
      UpsertNodeKeeps(UpsertNodes(nodes, pre), u);
    }
  }

  /**
   * After the node pass the node ids are exactly the old ones plus the
   * pubkeys of the updates: every update's pubkey is the id of some node.
   */
  lemma {:induction false} NodePassIds(nodes: seq<NodeRecord>, us: seq<NodeUpdate>)
    ensures forall id :: id in NodeIds(UpsertNodes(nodes, us)) <==> id in NodeIds(nodes) || id in Pubkeys(us)
    decreases |us|
  {
    if us != [] {
      var pre, u := us[..|us| - 1], us[|us| - 1];
      NodePassIds(nodes, pre);
      UpsertNodeIds(UpsertNodes(nodes, pre), u);
      assert Pubkeys(us) == Pubkeys(pre) + [u.pubkey];
    }
  }

  /**
   * Because the lookup runs before the push, the node pass keeps node ids
   * distinct, even when one update names the same pubkey twice.
   */
  lemma {:induction false} NodePassDistinct(nodes: seq<NodeRecord>, us: seq<NodeUpdate>)
    requires Distinct(NodeIds(nodes))
    ensures Distinct(NodeIds(UpsertNodes(nodes, us)))
    decreases |us|
  {
    if us != [] {
      var pre := us[..|us| - 1];
      NodePassDistinct(nodes, pre);
      UpsertNodeIds(UpsertNodes(nodes, pre), us[|us| - 1]);
    }
  }

  /** After one node update, the first node with the update's pubkey carries its title and color. */
  lemma UpsertNodeSets(nodes: seq<NodeRecord>, u: NodeUpdate)
    ensures var r := UpsertNode(nodes, u);
      var k := IndexOf(NodeIds(r), u.pubkey);
      0 <= k && r[k].title == u.alias && r[k].color == u.color
  {
    UpsertNodeIds(nodes, u);
    if u.pubkey !in NodeIds(nodes) {
      IndexOfAppend(NodeIds(nodes), u.pubkey, u.pubkey);
    }
  }

  /** One node update does not move or change the first node with any other id. */
  lemma UpsertNodeOther(nodes: seq<NodeRecord>, u: NodeUpdate, id: PubKey)
    requires id != u.pubkey
    ensures var r := UpsertNode(nodes, u);
      var k := IndexOf(NodeIds(nodes), id);
      IndexOf(NodeIds(r), id) == k && (0 <= k ==> r[k] == nodes[k])
  {
    UpsertNodeIds(nodes, u);
    if u.pubkey !in NodeIds(nodes) {
      IndexOfAppend(NodeIds(nodes), u.pubkey, id);
    }
  }

  /**
   * The last update naming a pubkey decides the title and color of the
   * (first) node with that id.
   */
  lemma {:induction false} NodePassLastWins(nodes: seq<NodeRecord>, us: seq<NodeUpdate>, j: nat)
    requires j < |us|
    requires forall j' :: j < j' < |us| ==> us[j'].pubkey != us[j].pubkey
    ensures var r := UpsertNodes(nodes, us);
      var k := IndexOf(NodeIds(r), us[j].pubkey);
      0 <= k && r[k].title == us[j].alias && r[k].color == us[j].color
    decreases |us|
  {
    var pre, u := us[..|us| - 1], us[|us| - 1];
    var m := UpsertNodes(nodes, pre);
    if j == |us| - 1 {
      UpsertNodeSets(m, u);
    } else {
      NodePassLastWins(nodes, pre, j);
      UpsertNodeOther(m, u, us[j].pubkey);
    }
  }

  // ----------------------------------------------------------------------
  // Pass 2: channel upserts
  // ----------------------------------------------------------------------

  /** The record pushed for a channel id not seen before. */
  function NewLink(c: ChannelUpdate): LinkRecord {
    LinkRecord(c.nodeId1, c.nodeId2, c.channelId)
  }

  /** The channel ids named by a list of channel updates, in order. */
  function ChannelIds(cs: seq<ChannelUpdate>): seq<ChannelId> {
    seq(|cs|, i requires 0 <= i < |cs| => cs[i].channelId)
  }

  /**
   * One channel update: a known channel id changes nothing; an unknown one
   * is pushed at the end, whatever its two endpoints are.
   */
  function UpsertLink(links: seq<LinkRecord>, c: ChannelUpdate): (r: seq<LinkRecord>)
    ensures c.channelId in LinkIds(links) ==> r == links
    ensures c.channelId !in LinkIds(links) ==>
      |r| == |links| + 1 && r[..|links|] == links
      && r[|links|].id == c.channelId && r[|links|].source == c.nodeId1 && r[|links|].target == c.nodeId2
  {
    if IndexOf(LinkIds(links), c.channelId) >= 0 then links else links + [NewLink(c)]
  }

  /** The link array after the first |cs| channel updates. */
  function UpsertLinks(links: seq<LinkRecord>, cs: seq<ChannelUpdate>): seq<LinkRecord>
    decreases |cs|
  {
    if cs == [] then links else UpsertLink(UpsertLinks(links, cs[..|cs| - 1]), cs[|cs| - 1])
  }

  /** One channel update leaves the link ids as they were, or appends its channel id. */
  lemma UpsertLinkIds(links: seq<LinkRecord>, c: ChannelUpdate)
    ensures LinkIds(UpsertLink(links, c)) ==
      if c.channelId in LinkIds(links) then LinkIds(links) else LinkIds(links) + [c.channelId]
  {
    if c.channelId !in LinkIds(links) {
      assert UpsertLink(links, c) == links + [NewLink(c)];
    }
  }

  /** The channel pass only appends: the old links stay, in place and in order. */
  lemma {:induction false} LinkPassPrefix(links: seq<LinkRecord>, cs: seq<ChannelUpdate>)
    ensures var r := UpsertLinks(links, cs);
      |links| <= |r| && r[..|links|] == links
    decreases |cs|
  {
    if cs != [] {
      var pre := cs[..|cs| - 1];
      LinkPassPrefix(links, pre);
      var m := UpsertLinks(links, pre);
      var r := UpsertLinks(links, cs);
      assert r[..|m|][..|links|] == r[..|links|];
    }
  }

  /** After the channel pass the link ids are exactly the old ones plus the updates' channel ids. */
  lemma {:induction false} LinkPassIds(links: seq<LinkRecord>, cs: seq<ChannelUpdate>)
    ensures forall id :: id in LinkIds(UpsertLinks(links, cs)) <==> id in LinkIds(links) || id in ChannelIds(cs)
    decreases |cs|
  {
    if cs != [] {
      var pre, c := cs[..|cs| - 1], cs[|cs| - 1];
      LinkPassIds(links, pre);
      UpsertLinkIds(UpsertLinks(links, pre), c);
      assert ChannelIds(cs) == ChannelIds(pre) + [c.channelId];
    }
  }

  /**
   * Because the lookup runs before the push, the channel pass keeps link
   * ids distinct, even when one update names a channel id twice.
   */
  lemma {:induction false} LinkPassDistinct(links: seq<LinkRecord>, cs: seq<ChannelUpdate>)
    requires Distinct(LinkIds(links))
    ensures Distinct(LinkIds(UpsertLinks(links, cs)))
    decreases |cs|
  {
    if cs != [] {
      var pre := cs[..|cs| - 1];
      LinkPassDistinct(links, pre);
      UpsertLinkIds(UpsertLinks(links, pre), cs[|cs| - 1]);
    }
  }

  /** A channel update with a new id makes the pushed link the one found under that id. */
  lemma UpsertLinkAdds(links: seq<LinkRecord>, c: ChannelUpdate)
    requires c.channelId !in LinkIds(links)
    ensures var r := UpsertLink(links, c);
      var k := IndexOf(LinkIds(r), c.channelId);
      0 <= k && r[k] == NewLink(c)
  {
    UpsertLinkIds(links, c);
    IndexOfAppend(LinkIds(links), c.channelId, c.channelId);
  }

  /** A channel update does not move or change the link found under an id already linked. */
  lemma UpsertLinkKeepsLinked(links: seq<LinkRecord>, c: ChannelUpdate, id: ChannelId)
    requires id in LinkIds(links)
    ensures var r := UpsertLink(links, c);
      var k := IndexOf(LinkIds(links), id);
      IndexOf(LinkIds(r), id) == k && r[k] == links[k]
  {
    UpsertLinkIds(links, c);
    if c.channelId !in LinkIds(links) {
      IndexOfAppend(LinkIds(links), c.channelId, id);
    }
  }

  /**
   * For a channel id not already linked, the first update naming it decides
   * the link's endpoints; later updates with that id are ignored.
   */
  lemma {:induction false} LinkPassFirstWins(links: seq<LinkRecord>, cs: seq<ChannelUpdate>, j: nat)
    requires j < |cs|
    requires cs[j].channelId !in LinkIds(links)
    requires forall j' :: 0 <= j' < j ==> cs[j'].channelId != cs[j].channelId
    ensures var r := UpsertLinks(links, cs);
      var k := IndexOf(LinkIds(r), cs[j].channelId);
      0 <= k && r[k] == NewLink(cs[j])
    decreases |cs|
  {
    var pre, c := cs[..|cs| - 1], cs[|cs| - 1];
    var m := UpsertLinks(links, pre);
    if j == |cs| - 1 {
      LinkPassIds(links, pre);
      UpsertLinkAdds(m, c);
    } else {
      LinkPassFirstWins(links, pre, j);
      UpsertLinkKeepsLinked(m, c, cs[j].channelId);
    }
  }

  // ----------------------------------------------------------------------
  // Pass 3: channel closes
  // ----------------------------------------------------------------------

  /**
   * `splice(start, 1)`: removes the element at `start`; a negative `start`
   * counts back from the end (clamped at 0), one past the end removes
   * nothing.
   */
  function SpliceOne<T>(s: seq<T>, start: int): (r: seq<T>)
    ensures 0 <= start < |s| ==>
      |r| == |s| - 1
      && (forall i :: 0 <= i < start ==> r[i] == s[i])
      && (forall i :: start <= i < |r| ==> r[i] == s[i + 1])
    ensures start == -1 ==> r == if s == [] then [] else s[..|s| - 1]
  {
    var from := if start < 0 then (if |s| + start < 0 then 0 else |s| + start)
                else (if start > |s| then |s| else start);
    var count := if from < |s| then 1 else 0;
    s[..from] + s[from + count..]
  }

  /** One channel close: `splice(findIndex(id), 1)`. */
  function CloseLink(links: seq<LinkRecord>, id: ChannelId): seq<LinkRecord> {
    SpliceOne(links, IndexOf(LinkIds(links), id))
  }

  /** The link array after the first |cs| channel closes. */
  function CloseLinks(links: seq<LinkRecord>, cs: seq<ChannelClose>): seq<LinkRecord>
    decreases |cs|
  {
    if cs == [] then links else CloseLink(CloseLinks(links, cs[..|cs| - 1]), cs[|cs| - 1].channelId)
  }

  /** The channel ids named by a list of closes, in order. */
  function CloseIds(cs: seq<ChannelClose>): seq<ChannelId> {
    seq(|cs|, i requires 0 <= i < |cs| => cs[i].channelId)
  }

  /** The ids of the links left when one position is removed. */
  lemma LinkIdsRemoveAt(links: seq<LinkRecord>, k: nat)
    requires k < |links|
    ensures LinkIds(links[..k] + links[k + 1..]) == LinkIds(links)[..k] + LinkIds(links)[k + 1..]
  {
    var r := links[..k] + links[k + 1..];
    forall i | 0 <= i < |r| ensures LinkIds(r)[i] == (LinkIds(links)[..k] + LinkIds(links)[k + 1..])[i] {
      if i < k { assert r[i] == links[i]; } else { assert r[i] == links[i + 1]; }
    }
  }

  /**
   * Closing a linked id removes exactly one link, the first with that id;
   * the others keep their order. With distinct link ids, the id is gone
   * afterwards and the ids stay distinct.
   */
  lemma CloseLinkPresent(links: seq<LinkRecord>, id: ChannelId)
    requires id in LinkIds(links)
    ensures var k := IndexOf(LinkIds(links), id);
      && links[k].id == id
      && CloseLink(links, id) == links[..k] + links[k + 1..]
    ensures Distinct(LinkIds(links)) ==>
      id !in LinkIds(CloseLink(links, id)) && Distinct(LinkIds(CloseLink(links, id)))
  {
    var k := IndexOf(LinkIds(links), id);
    assert CloseLink(links, id) == links[..k] + links[k + 1..];
    LinkIdsRemoveAt(links, k);
    RemoveAt(LinkIds(links), k);
  }

  /**
   * Closing an id that is not linked is not a no-op: `findIndex` gives -1
   * and `splice(-1, 1)` removes the LAST link; only an empty array stays
   * as it is.
   */
  lemma CloseLinkAbsent(links: seq<LinkRecord>, id: ChannelId)
    requires id !in LinkIds(links)
    ensures links != [] ==> CloseLink(links, id) == links[..|links| - 1]
    ensures links == [] ==> CloseLink(links, id) == []
  {
  }

  /** Every close removes one link while there is one to remove, whatever its id. */
  lemma {:induction false} CloseLinksCount(links: seq<LinkRecord>, cs: seq<ChannelClose>)
    ensures |CloseLinks(links, cs)| == if |cs| < |links| then |links| - |cs| else 0
    decreases |cs|
  {
    if cs != [] {
      var pre := cs[..|cs| - 1];
      CloseLinksCount(links, pre);
      var m := CloseLinks(links, pre);
      var id := cs[|cs| - 1].channelId;
      if id in LinkIds(m) {
        CloseLinkPresent(m, id);
      }
    }
  }

  /** A close leaves only links that were there before, and keeps distinct ids distinct. */
  lemma CloseLinkShrinks(links: seq<LinkRecord>, id: ChannelId)
    ensures forall x :: x in LinkIds(CloseLink(links, id)) ==> x in LinkIds(links)
    ensures Distinct(LinkIds(links)) ==> Distinct(LinkIds(CloseLink(links, id)))
  {
    if id in LinkIds(links) {
      CloseLinkPresent(links, id);
      var k := IndexOf(LinkIds(links), id);
      LinkIdsRemoveAt(links, k);
      RemoveAt(LinkIds(links), k);
    } else if links != [] {
      var last := |links| - 1;
      assert links[..last] == links[..last] + links[last + 1..];
      LinkIdsRemoveAt(links, last);
      RemoveAt(LinkIds(links), last);
    }
  }

  /** The close pass leaves only ids that were linked before, and keeps distinct ids distinct. */
  lemma {:induction false} CloseLinksShrink(links: seq<LinkRecord>, cs: seq<ChannelClose>)
    ensures forall x :: x in LinkIds(CloseLinks(links, cs)) ==> x in LinkIds(links)
    ensures Distinct(LinkIds(links)) ==> Distinct(LinkIds(CloseLinks(links, cs)))
    decreases |cs|
  {
    if cs != [] {
      var pre := cs[..|cs| - 1];
      CloseLinksShrink(links, pre);
      CloseLinkShrinks(CloseLinks(links, pre), cs[|cs| - 1].channelId);
    }
  }

  /**
   * With distinct link ids to start from, none of the closed ids is linked
   * after the close pass.
   */
  lemma {:induction false} CloseLinksRemovesClosed(links: seq<LinkRecord>, cs: seq<ChannelClose>)
    requires Distinct(LinkIds(links))
    ensures forall x :: x in CloseIds(cs) ==> x !in LinkIds(CloseLinks(links, cs))
    decreases |cs|
  {
    if cs != [] {
      var pre, id := cs[..|cs| - 1], cs[|cs| - 1].channelId;
      var m := CloseLinks(links, pre);
      CloseLinksRemovesClosed(links, pre);
      CloseLinksShrink(links, pre);
      CloseLinkShrinks(m, id);
      assert CloseIds(cs) == CloseIds(pre) + [id];
      forall x | x in CloseIds(cs) ensures x !in LinkIds(CloseLinks(links, cs)) {
        if x == id {
          if id in LinkIds(m) {
            CloseLinkPresent(m, id);
          }
        } else {
          assert x in CloseIds(pre) && x !in LinkIds(m);
        }
      }
    }
  }

  /** How many links carry the id `x`. */
  function Occurrences(links: seq<LinkRecord>, x: ChannelId): nat {
    multiset(LinkIds(links))[x]
  }

  /** Removing one position removes one occurrence of that link's id and nothing else. */
  lemma RemoveAtOccurrences(links: seq<LinkRecord>, k: nat)
    requires k < |links|
    ensures multiset(LinkIds(links[..k] + links[k + 1..])) == multiset(LinkIds(links)) - multiset{links[k].id}
  {
    var ids := LinkIds(links);
    LinkIdsRemoveAt(links, k);
    assert ids == ids[..k] + [ids[k]] + ids[k + 1..];
  }

  /**
   * One close never adds a link with id `x`, and closing `x` while at most
   * one link carries it leaves none.
   */
  lemma CloseLinkOccurrences(links: seq<LinkRecord>, id: ChannelId, x: ChannelId)
    ensures Occurrences(CloseLink(links, id), x) <= Occurrences(links, x)
    ensures id == x && Occurrences(links, x) <= 1 ==> Occurrences(CloseLink(links, id), x) == 0
  {
    var k := IndexOf(LinkIds(links), id);
    if 0 <= k {
      RemoveAtOccurrences(links, k);
    } else if links != [] {
      var last := |links| - 1;
      assert links[..last] == links[..last] + links[last + 1..];
      RemoveAtOccurrences(links, last);
    }
  }

  /**
   * The close pass keeps an id that is linked at most once so, and once
   * the pass has closed it, no link carries it.
   */
  lemma {:induction false} CloseLinksOccurrences(links: seq<LinkRecord>, cs: seq<ChannelClose>, x: ChannelId)
    requires Occurrences(links, x) <= 1
    ensures Occurrences(CloseLinks(links, cs), x) <= 1
    ensures x in CloseIds(cs) ==> Occurrences(CloseLinks(links, cs), x) == 0
    decreases |cs|
  {
    if cs != [] {
      var pre, id := cs[..|cs| - 1], cs[|cs| - 1].channelId;
      CloseLinksOccurrences(links, pre, x);
      CloseLinkOccurrences(CloseLinks(links, pre), id, x);
      assert CloseIds(cs) == CloseIds(pre) + [id];
    }
  }

  /**
   * Because the lookup runs before the push, the channel pass never makes
   * an id that was linked at most once linked twice.
   */
  lemma {:induction false} LinkPassOccurrences(links: seq<LinkRecord>, cs: seq<ChannelUpdate>, x: ChannelId)
    requires Occurrences(links, x) <= 1
    ensures Occurrences(UpsertLinks(links, cs), x) <= 1
    decreases |cs|
  {
    if cs != [] {
      var pre, c := cs[..|cs| - 1], cs[|cs| - 1];
      LinkPassOccurrences(links, pre, x);
      UpsertLinkIds(UpsertLinks(links, pre), c);
    }
  }

  // ----------------------------------------------------------------------
  // The whole update
  // ----------------------------------------------------------------------

  /** An update: the node pass, then the channel pass, then the close pass. */
  function ApplyUpdate(g: GraphData, u: LightningGraphUpdate): GraphData {
    GraphData(
      UpsertNodes(g.nodes, u.nodeUpdates),
      CloseLinks(UpsertLinks(g.links, u.channelUpdates), u.channelCloses))
  }

  /**
   * What the ordering of the passes gives: no node is ever removed or moved,
   * ids stay distinct, and with distinct link ids every closed channel is
   * absent afterwards, including one added by the same update.
   */
  lemma UpdatePassOrdering(g: GraphData, u: LightningGraphUpdate)
    requires Distinct(LinkIds(g.links))
    ensures var r := ApplyUpdate(g, u);
      && |g.nodes| <= |r.nodes|
      && (forall i :: 0 <= i < |g.nodes| ==> r.nodes[i].id == g.nodes[i].id && r.nodes[i].sim == g.nodes[i].sim)
      && (Distinct(NodeIds(g.nodes)) ==> Distinct(NodeIds(r.nodes)))
      && Distinct(LinkIds(r.links))
      && (forall x :: x in LinkIds(r.links) ==>
            (x in LinkIds(g.links) || x in ChannelIds(u.channelUpdates)) && x !in CloseIds(u.channelCloses))
  {
    NodePassKeepsExisting(g.nodes, u.nodeUpdates);
    if Distinct(NodeIds(g.nodes)) {
      NodePassDistinct(g.nodes, u.nodeUpdates);
    }
    var upserted := UpsertLinks(g.links, u.channelUpdates);
    LinkPassIds(g.links, u.channelUpdates);
    LinkPassDistinct(g.links, u.channelUpdates);
    CloseLinksShrink(upserted, u.channelCloses);
    CloseLinksRemovesClosed(upserted, u.channelCloses);
  }

  /**
   * A closed channel id that at most one link carried before the update is
   * not linked afterwards, whatever the other ids are. In particular a
   * channel added and closed by the same update is gone, even when other
   * link ids are duplicated.
   */
  lemma UpdateRemovesClosed(g: GraphData, u: LightningGraphUpdate, x: ChannelId)
    requires Occurrences(g.links, x) <= 1 && x in CloseIds(u.channelCloses)
    ensures x !in LinkIds(ApplyUpdate(g, u).links)
  {
    var upserted := UpsertLinks(g.links, u.channelUpdates);
    LinkPassOccurrences(g.links, u.channelUpdates, x);
    CloseLinksOccurrences(upserted, u.channelCloses, x);
  }
}
