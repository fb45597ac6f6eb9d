/**
 * Concrete runs of the merge on small graphs: the end-to-end scenario of a
 * snapshot followed by two updates, a close that removes a link other
 * than the one named, a link whose endpoints are not nodes, and a channel
 * added and closed among duplicated link ids.
 */
module Scenarios {
  import opened ApiTypes
  import opened Records
  import opened Merge

  /**
   * Snapshot A, B with channel L1 from A to B; then an update adding node C
   * and channel L2 from B to C; then an update closing L1.
   */
  lemma EndToEndScenario()
    ensures var g0 := FromSnapshot(LightningGraph(
              [LightningNode("A", "alice", "#a00"), LightningNode("B", "bob", "#0b0")],
              [LightningChannel("L1", "A", "B")]));
      var g1 := ApplyUpdate(g0, LightningGraphUpdate(
              [NodeUpdate("C", "carol", "#00c")], [ChannelUpdate("L2", "B", "C")], []));
      var g2 := ApplyUpdate(g1, LightningGraphUpdate([], [], [ChannelClose("L1")]));
      && NodeIds(g1.nodes) == ["A", "B", "C"] && LinkIds(g1.links) == ["L1", "L2"]
      && g2.nodes == g1.nodes && g2.links == [LinkRecord("B", "C", "L2")]
  {
  }

  /**
   * Removal is not idempotent: closing an unknown id removes the last link,
   * and closing it again removes the next one.
   */
  lemma UnknownCloseRemovesLast()
    ensures var links := [LinkRecord("A", "B", "L1"), LinkRecord("B", "C", "L2")];
      && CloseLink(links, "L9") == [LinkRecord("A", "B", "L1")]
      && CloseLinks(links, [ChannelClose("L9"), ChannelClose("L9")]) == []
  {
  }

  /**
   * A channel whose endpoints are not nodes of the graph is still added:
   * nothing checks the endpoints.
   */
  lemma DanglingChannelIsAdded()
    ensures var g := ApplyUpdate(GraphData([], []), LightningGraphUpdate([], [ChannelUpdate("L1", "X", "Y")], []));
      g.nodes == [] && g.links == [LinkRecord("X", "Y", "L1")]
  {
  }

  /**
   * A channel added and closed by the same update is gone even when the
   * other link ids are duplicated; the duplicates stay.
   */
  lemma AddedAndClosedAmongDuplicates()
    ensures var l1 := LinkRecord("A", "B", "L1");
      var g := ApplyUpdate(GraphData([], [l1, l1]),
        LightningGraphUpdate([], [ChannelUpdate("X", "A", "B")], [ChannelClose("X")]));
      g.links == [l1, l1]
  {
  }
}
