/**
 * The records the graph component keeps for rendering, the mapping from a
 * snapshot to those records, and the id lookup (`findIndex`) that the
 * update passes use.
 */
module Records {
  import opened ApiTypes

  /**
   * The fields the force simulation attaches to a node object once it has
   * seen it (its index, position and velocity). The component never writes
   * them; a record it creates carries none of them yet.
   */
  datatype SimFields = Unplaced | Placed(index: nat, x: real, y: real, vx: real, vy: real)

  /** A node as the component stores it: `{id, color, title}` plus the simulation's fields. */
  datatype NodeRecord = NodeRecord(id: PubKey, color: string, title: string, sim: SimFields)

  /** A link as the component stores it: `{source, target, id}`. */
  datatype LinkRecord = LinkRecord(source: PubKey, target: PubKey, id: ChannelId)

  /** The ids of the nodes, in order. */
  function NodeIds(nodes: seq<NodeRecord>): seq<PubKey> {
    seq(|nodes|, i requires 0 <= i < |nodes| => nodes[i].id)
  }

  /** The ids of the links, in order. */
  function LinkIds(links: seq<LinkRecord>): seq<ChannelId> {
    seq(|links|, i requires 0 <= i < |links| => links[i].id)
  }

  /** No id occurs twice. */
  predicate Distinct(ids: seq<string>) {
    forall i, j :: 0 <= i < j < |ids| ==> ids[i] != ids[j]
  }

  /**
   * `findIndex` by id: the first position that holds `id`, or -1 when
   * there is none.
   */
  function IndexOf(ids: seq<string>, id: string): (k: int)
    ensures -1 <= k < |ids|
    ensures k == -1 <==> id !in ids
    ensures 0 <= k ==> ids[k] == id && forall j :: 0 <= j < k ==> ids[j] != id
  {
    if ids == [] then -1
    else if ids[0] == id then 0
    else
      var k := IndexOf(ids[1..], id);
      if k < 0 then -1 else k + 1
  }

  /** Looking up an id in a sequence with one more id at the end. */
  lemma IndexOfAppend(ids: seq<string>, x: string, id: string)
    ensures IndexOf(ids + [x], id) ==
      if id in ids then IndexOf(ids, id) else if x == id then |ids| else -1
  {
    if id in ids {
      var k0 := IndexOf(ids, id);
      assert (ids + [x])[k0] == id;
    } else if x == id {
      assert (ids + [x])[|ids|] == id;
    } else {
      assert id !in ids + [x];
    }
  }

  /**
   * Removing one position from a sequence of ids leaves only ids that were
   * there; with distinct ids, the removed id is gone and the rest stay
   * distinct.
   */
  lemma RemoveAt(ids: seq<string>, k: nat)
    requires k < |ids|
    ensures forall x :: x in ids[..k] + ids[k + 1..] ==> x in ids
    ensures Distinct(ids) ==> Distinct(ids[..k] + ids[k + 1..]) && ids[k] !in ids[..k] + ids[k + 1..]
  {
    var r := ids[..k] + ids[k + 1..];
    forall x | x in r ensures x in ids {
      var i :| 0 <= i < |r| && r[i] == x;
      if i < k { assert r[i] == ids[i]; } else { assert r[i] == ids[i + 1]; }
    }
    if Distinct(ids) {
      forall i | 0 <= i < |r| ensures r[i] != ids[k] {
        if i < k { assert r[i] == ids[i]; } else { assert r[i] == ids[i + 1]; }
      }
      forall i, j | 0 <= i < j < |r| ensures r[i] != r[j] {
        var a := if i < k then i else i + 1;
        var b := if j < k then j else j + 1;
        assert r[i] == ids[a] && r[j] == ids[b];
      }
    }
  }

  /** A snapshot node becomes a record with `id = pubkey`, `color = color`, `title = alias`. */
  function NodeFromSnapshot(n: LightningNode): NodeRecord {
    NodeRecord(n.pubkey, n.color, n.alias, Unplaced)
  }

  /** A snapshot channel becomes a link with `source = node1PubKey`, `target = node2PubKey`, `id = channelId`. */
  function LinkFromSnapshot(c: LightningChannel): LinkRecord {
    LinkRecord(c.node1PubKey, c.node2PubKey, c.channelId)
  }

  /** The node records built from the snapshot's nodes (a `map` over them). */
  function SnapshotNodes(ns: seq<LightningNode>): (r: seq<NodeRecord>)
    ensures |r| == |ns|
    ensures forall i :: 0 <= i < |ns| ==>
      r[i].id == ns[i].pubkey && r[i].color == ns[i].color && r[i].title == ns[i].alias && r[i].sim == Unplaced
  {
    if ns == [] then [] else [NodeFromSnapshot(ns[0])] + SnapshotNodes(ns[1..])
  }

  /** The link records built from the snapshot's channels (a `map` over them). */
  function SnapshotLinks(cs: seq<LightningChannel>): (r: seq<LinkRecord>)
    ensures |r| == |cs|
    ensures forall i :: 0 <= i < |cs| ==>
      r[i].source == cs[i].node1PubKey && r[i].target == cs[i].node2PubKey && r[i].id == cs[i].channelId
  {
    if cs == [] then [] else [LinkFromSnapshot(cs[0])] + SnapshotLinks(cs[1..])
  }
}
