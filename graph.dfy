/** `buildMapFromSections`: builds one map from its `##` section and the
    sections after it. Every section becomes a node; the nodes are filed
    by id (a repeated id is an error), every `next` id must name a node,
    and no path from the root (the first node) may come back to a node
    already on it. Nodes the root does not reach are only warned about.

    `BuildMap` states the result; the method `BuildMapFromSections` and the
    recursive method `CheckForLoopsRecursive` are the source's loops and
    depth-first search, proved to compute it. */
module SkillMapGraph {
  import opened Wrappers
  import opened SkillMapTypes
  import opened Inflate

  // ------------------------------------------------------------ nodes by id

  /** `sections.map(inflateMapNode)`, stopping at the first failure. */
  function NodeResults(sections: seq<Section>): (r: seq<Result<MapNode, ParseError>>)
    ensures |r| == |sections| && forall i :: 0 <= i < |sections| ==> r[i] == InflateMapNode(sections[i])
  {
    seq(|sections|, i requires 0 <= i < |sections| => InflateMapNode(sections[i]))
  }

  /** The nodes filed by id, after the first `n` nodes, or the first
      repeated id. */
  function Activities(nodes: seq<MapNode>, mapId: string, n: nat): (r: Result<map<string, MapNode>, ParseError>)
    requires n <= |nodes|
    ensures r.Failure? ==> r.error.DuplicateActivity? && r.error.mapId == mapId
    ensures r.Success? ==> r.value.Keys == set i | 0 <= i < n :: nodes[i].activityId
  {
    if n == 0 then Success(map[])
    else
      var before := Activities(nodes, mapId, n - 1);
      if before.Failure? then before
      else
        var id := nodes[n - 1].activityId;
        if id in before.value then Failure(DuplicateActivity(id, mapId))
        else Success(before.value[id := nodes[n - 1]])
  }

  /** Node `i` is filed under its own id. */
  lemma {:induction false} ActivitiesFileNode(nodes: seq<MapNode>, mapId: string, n: nat, i: nat)
    requires i < n <= |nodes| && Activities(nodes, mapId, n).Success?
    ensures Activities(nodes, mapId, n).value[nodes[i].activityId] == nodes[i]
  {
    if i < n - 1 {
      ActivitiesFileNode(nodes, mapId, n - 1, i);
      var before := Activities(nodes, mapId, n - 1).value;
      var other := nodes[i].activityId;
      assert other in before.Keys;
      assert Activities(nodes, mapId, n).value == before[nodes[n - 1].activityId := nodes[n - 1]];
    }
  }

  /** Every node is filed under its own id. */
  lemma ActivitiesFileNodes(nodes: seq<MapNode>, mapId: string, n: nat)
    requires n <= |nodes| && Activities(nodes, mapId, n).Success?
    ensures forall i :: 0 <= i < n ==> Activities(nodes, mapId, n).value[nodes[i].activityId] == nodes[i]
  {
    forall i | 0 <= i < n ensures Activities(nodes, mapId, n).value[nodes[i].activityId] == nodes[i] {
      ActivitiesFileNode(nodes, mapId, n, i);
    }
  }

  /** Filing fails exactly when two nodes share an id. */
  lemma {:induction false} ActivitiesFailOnRepeat(nodes: seq<MapNode>, mapId: string, n: nat)
    requires n <= |nodes|
    ensures Activities(nodes, mapId, n).Failure? <==> exists i, j :: 0 <= i < j < n && nodes[i].activityId == nodes[j].activityId
  {
    if n > 0 {
      ActivitiesFailOnRepeat(nodes, mapId, n - 1);
      var before := Activities(nodes, mapId, n - 1);
      if before.Success? && nodes[n - 1].activityId in before.value {
        var i :| 0 <= i < n - 1 && nodes[i].activityId == nodes[n - 1].activityId;
        assert 0 <= i < n - 1 < n && nodes[i].activityId == nodes[n - 1].activityId;
      }
    }
  }

  /** The first id of `ids[..n]` that is not a known id. */
  function UnknownIn(ids: seq<string>, known: set<string>, n: nat): (r: Option<string>)
    requires n <= |ids|
    ensures r.None? <==> forall j :: 0 <= j < n ==> ids[j] in known
    ensures r.Some? ==> r.value !in known
  {
    if n == 0 then None
    else
      var before := UnknownIn(ids, known, n - 1);
      if before.Some? then before
      else if ids[n - 1] !in known then Some(ids[n - 1])
      else None
  }

  /** The first unknown `next` id of the first `n` nodes, in node order. */
  function FirstUnknown(nodes: seq<MapNode>, known: set<string>, n: nat): (r: Option<string>)
    requires n <= |nodes|
    ensures r.None? <==> forall i, j :: 0 <= i < n && 0 <= j < |nodes[i].nextIds| ==> nodes[i].nextIds[j] in known
    ensures r.Some? ==> r.value !in known
  {
    if n == 0 then None
    else
      var before := FirstUnknown(nodes, known, n - 1);
      if before.Some? then before
      else UnknownIn(nodes[n - 1].nextIds, known, |nodes[n - 1].nextIds|)
  }

  // ------------------------------------------------------------ loops

  /** The `next` edges between the nodes, by id. */
  function GraphOf(activities: map<string, MapNode>): (g: map<string, seq<string>>)
    ensures g.Keys == activities.Keys
    ensures forall id :: id in g ==> g[id] == activities[id].nextIds
  {
    map id | id in activities :: activities[id].nextIds
  }

  /** Every edge leads to a node. */
  ghost predicate Closed(g: map<string, seq<string>>) {
    forall id, j :: id in g && 0 <= j < |g[id]| ==> g[id][j] in g
  }

  /** `checkForLoopsRecursive(node, visited)` finds a loop: `id` is on the
      path already (`visited`), or a search from one of its successors,
      with `id` added to the path, finds one. Each successor gets its own
      copy of the path. */
  function Explore(g: map<string, seq<string>>, id: string, visited: set<string>): bool
    requires Closed(g) && id in g
    decreases |g.Keys - visited|, 0, 0
  {
    if id in visited then true
    else
      PathGrows(g, id, visited);
      ExploreAll(g, g[id], visited + {id})
  }

  lemma PathGrows(g: map<string, seq<string>>, id: string, visited: set<string>)
    requires id in g && id !in visited
    ensures |g.Keys - (visited + {id})| < |g.Keys - visited|
  {
    assert g.Keys - visited == (g.Keys - (visited + {id})) + {id};
  }

  /** A search from one of `ids` finds a loop. */
  function ExploreAll(g: map<string, seq<string>>, ids: seq<string>, visited: set<string>): bool
    requires Closed(g) && forall j :: 0 <= j < |ids| ==> ids[j] in g
    decreases |g.Keys - visited|, 1, |ids|
  {
    |ids| > 0 && (Explore(g, ids[0], visited) || ExploreAll(g, ids[1..], visited))
  }

  lemma {:induction false} ExploreAllIsAny(g: map<string, seq<string>>, ids: seq<string>, visited: set<string>)
    requires Closed(g) && forall j :: 0 <= j < |ids| ==> ids[j] in g
    ensures ExploreAll(g, ids, visited) <==> exists j :: 0 <= j < |ids| && Explore(g, ids[j], visited)
  {
    if |ids| > 0 {
      ExploreAllIsAny(g, ids[1..], visited);
      assert forall j :: 1 <= j < |ids| ==> ids[1..][j - 1] == ids[j];
    }
  }

  /** `p` follows edges of `g`. */
  ghost predicate IsWalk(g: map<string, seq<string>>, p: seq<string>) {
    && |p| >= 1
    && (forall i :: 0 <= i < |p| ==> p[i] in g)
    && (forall i :: 0 <= i < |p| - 1 ==> p[i + 1] in g[p[i]])
  }

  /** The walk ends on a node of `visited` or on a node it has passed. */
  ghost predicate Revisits(p: seq<string>, visited: set<string>)
    requires |p| >= 1
  {
    p[|p| - 1] in visited || p[|p| - 1] in p[..|p| - 1]
  }

  /** A loop found is a walk from `id` back onto the path. */
  lemma ExploreFindsWalk(g: map<string, seq<string>>, id: string, visited: set<string>)
    requires Closed(g) && id in g
    requires Explore(g, id, visited)
    ensures exists p :: IsWalk(g, p) && p[0] == id && Revisits(p, visited)
    decreases |g.Keys - visited|
  {
    if id in visited {
      assert IsWalk(g, [id]) && Revisits([id], visited);
    } else {
      var v := visited + {id};
      PathGrows(g, id, visited);
      ExploreAllIsAny(g, g[id], v);
      var j :| 0 <= j < |g[id]| && Explore(g, g[id][j], v);
      ExploreFindsWalk(g, g[id][j], v);
      var q :| IsWalk(g, q) && q[0] == g[id][j] && Revisits(q, v);
      var p := [id] + q;
      assert p[1..] == q;
      assert p[..|p| - 1] == [id] + q[..|q| - 1];
      assert IsWalk(g, p);
      assert Revisits(p, visited);
    }
  }

  /** A walk from `id` back onto the path is found. */
  lemma {:induction false} WalkIsFound(g: map<string, seq<string>>, p: seq<string>, visited: set<string>)
    requires Closed(g) && IsWalk(g, p) && Revisits(p, visited)
    ensures Explore(g, p[0], visited)
    decreases |p|
  {
    var id := p[0];
    if id !in visited {
      var q := p[1..];
      var v := visited + {id};
      assert |p| >= 2 by {
        if p[|p| - 1] in p[..|p| - 1] {
          assert |p[..|p| - 1]| > 0;
        } else {
          assert p[|p| - 1] != p[0];
        }
      }
      assert IsWalk(g, q) by {
        forall i | 0 <= i < |q| - 1 ensures q[i + 1] in g[q[i]] {
          assert q[i + 1] == p[i + 2] && q[i] == p[i + 1];
        }
      }
      assert p[..|p| - 1] == [id] + q[..|q| - 1];
      assert Revisits(q, v);
      WalkIsFound(g, q, v);
      assert g[id][IndexOf(g[id], q[0])] == q[0];
      ExploreAllIsAny(g, g[id], v);
    }
  }

  function IndexOf(s: seq<string>, x: string): (i: nat)
    requires x in s
    ensures i < |s| && s[i] == x
  {
    if s[0] == x then 0 else 1 + IndexOf(s[1..], x)
  }

  /** `checkForLoopsRecursive(root, visited)`: `true` where the source
      throws. */
  method CheckForLoopsRecursive(g: map<string, seq<string>>, root: string, visited: set<string>) returns (loop: bool)
    requires Closed(g) && root in g
    ensures loop == Explore(g, root, visited)
    decreases |g.Keys - visited|, 0
  {
    if root in visited {
      return true;
    }
    var path := visited + {root};
    PathGrows(g, root, visited);
    var next := g[root];
    ExploreAllIsAny(g, next, path);
    var i := 0;
    while i < |next|
      invariant i <= |next|
      invariant forall j :: 0 <= j < i ==> !Explore(g, next[j], path)
    {
      loop := CheckForLoopsRecursive(g, next[i], path);
      if loop {
        return;
      }
      i := i + 1;
    }
    return false;
  }

  // ------------------------------------------------------------ the map

  /** The checks of `buildMapFromSections` before the loop search: the
      map's own attributes, each node in turn, repeated ids, and unknown
      `next` ids, in that order. */
  function Linked(header: Section, sections: seq<Section>): (r: Result<(MapHeader, seq<MapNode>, map<string, MapNode>), ParseError>)
  {
    var h :- MapHeaderOf(header);
    var nodes :- Collect(NodeResults(sections));
    var activities :- Activities(nodes, h.mapId, |nodes|);
    var unknown := FirstUnknown(nodes, activities.Keys, |nodes|);
    if unknown.Some? then Failure(UnknownActivity(unknown.value, h.mapId))
    else Success((h, nodes, activities))
  }

  /** `buildMapFromSections(header, sections)`: after the checks of
      `Linked`, a map with no node fails, and so does a loop reachable from
      the first node. */
  function BuildMap(header: Section, sections: seq<Section>): (r: Result<SkillMap, ParseError>)
  {
    var (h, nodes, activities) :- Linked(header, sections);
    if |nodes| == 0 then Failure(EmptyMap(h.mapId))
    else
      LinkedIsClosed(header, sections);
      if Explore(GraphOf(activities), nodes[0].activityId, {}) then Failure(LoopInMap(h.mapId))
      else Success(SkillMap(h, activities, nodes[0]))
  }

  /** After the checks, the nodes are exactly the inflated sections, each
      filed under its id with no other entries, and every edge leads to a
      node. */
  lemma LinkedIsClosed(header: Section, sections: seq<Section>)
    requires Linked(header, sections).Success?
    ensures var (h, nodes, activities) := Linked(header, sections).value;
      && h == MapHeaderOf(header).value
      && |nodes| == |sections|
      && (forall i :: 0 <= i < |sections| ==> InflateMapNode(sections[i]) == Success(nodes[i]))
      && activities.Keys == (set i | 0 <= i < |nodes| :: nodes[i].activityId)
      && (forall i :: 0 <= i < |nodes| ==> activities[nodes[i].activityId] == nodes[i])
      && Closed(GraphOf(activities))
  {
    var (h, nodes, activities) := Linked(header, sections).value;
    ActivitiesFileNodes(nodes, h.mapId, |nodes|);
    ClosedGraph(nodes, activities);
  }

  /** Once the checks pass, a non-empty map is built exactly when no walk
      from the first node comes back to a node it has passed; otherwise the
      map is rejected as a loop. Loops the first node cannot reach are
      accepted. */
  lemma {:induction false} BuildMapRejectsExactlyLoops(header: Section, sections: seq<Section>)
    requires Linked(header, sections).Success? && |sections| > 0
    ensures var (h, nodes, activities) := Linked(header, sections).value;
      var loop := exists p :: IsWalk(GraphOf(activities), p) && p[0] == nodes[0].activityId && Revisits(p, {});
      && (loop ==> BuildMap(header, sections) == Failure(LoopInMap(h.mapId)))
      && (!loop ==> BuildMap(header, sections) == Success(SkillMap(h, activities, nodes[0])))
  {
    LinkedIsClosed(header, sections);
    var (h, nodes, activities) := Linked(header, sections).value;
    var g := GraphOf(activities);
    if Explore(g, nodes[0].activityId, {}) {
      ExploreFindsWalk(g, nodes[0].activityId, {});
    } else {
      forall p | IsWalk(g, p) && p[0] == nodes[0].activityId ensures !Revisits(p, {}) {
        if Revisits(p, {}) {
          WalkIsFound(g, p, {});
        }
      }
    }
  }

  /** A built map: the header from the `##` section, the first section's
      node as root, and every section's node under its id. */
  lemma BuildMapSuccess(header: Section, sections: seq<Section>)
    requires BuildMap(header, sections).Success?
    ensures |sections| > 0
    ensures BuildMap(header, sections).value.header == MapHeaderOf(header).value
    ensures InflateMapNode(sections[0]) == Success(BuildMap(header, sections).value.root)
    ensures forall i :: 0 <= i < |sections| ==> InflateMapNode(sections[i]).Success?
    ensures var m := BuildMap(header, sections).value;
      forall i :: 0 <= i < |sections| ==>
        var node := InflateMapNode(sections[i]).value;
        node.activityId in m.activities && m.activities[node.activityId] == node
    ensures var m := BuildMap(header, sections).value;
      forall id :: id in m.activities ==> exists i :: 0 <= i < |sections| && InflateMapNode(sections[i]).value.activityId == id
    ensures var m := BuildMap(header, sections).value;
      forall id, j :: id in m.activities && 0 <= j < |m.activities[id].nextIds| ==> m.activities[id].nextIds[j] in m.activities
  {
    LinkedIsClosed(header, sections);
    var (h, nodes, activities) := Linked(header, sections).value;
    assert |nodes| > 0;
    forall id | id in activities
      ensures exists i :: 0 <= i < |sections| && InflateMapNode(sections[i]).value.activityId == id
    {
      var i :| 0 <= i < |nodes| && nodes[i].activityId == id;
      assert InflateMapNode(sections[i]).value == nodes[i];
    }
    forall id, j | id in activities && 0 <= j < |activities[id].nextIds|
      ensures activities[id].nextIds[j] in activities
    {
      assert GraphOf(activities)[id] == activities[id].nextIds;
    }
  }

  /** The error cases that do not come from a single section. */
  lemma BuildMapErrors(header: Section, sections: seq<Section>)
    ensures sections == [] && MapHeaderOf(header).Success? ==> BuildMap(header, sections) == Failure(EmptyMap(MapHeaderOf(header).value.mapId))
    ensures MapHeaderOf(header).Failure? ==> BuildMap(header, sections) == Failure(MapHeaderOf(header).error)
  {
    if sections == [] && MapHeaderOf(header).Success? {
      assert Collect(NodeResults(sections)) == Success([]);
    }
  }

  /** Two sections with the same id are rejected, naming the id. */
  lemma DuplicateIsRejected(header: Section, sections: seq<Section>, i: nat, j: nat)
    requires MapHeaderOf(header).Success?
    requires forall k :: 0 <= k < |sections| ==> InflateMapNode(sections[k]).Success?
    requires i < j < |sections|
    requires InflateMapNode(sections[i]).value.activityId == InflateMapNode(sections[j]).value.activityId
    ensures BuildMap(header, sections).Failure? && BuildMap(header, sections).error.DuplicateActivity?
    ensures BuildMap(header, sections).error.mapId == MapHeaderOf(header).value.mapId
  {
    var nodes := Collect(NodeResults(sections));
    assert nodes.Success?;
    ActivitiesFailOnRepeat(nodes.value, MapHeaderOf(header).value.mapId, |nodes.value|);
    assert nodes.value[i] == InflateMapNode(sections[i]).value && nodes.value[j] == InflateMapNode(sections[j]).value;
  }

  lemma ClosedGraph(nodes: seq<MapNode>, activities: map<string, MapNode>)
    requires activities.Keys == set i | 0 <= i < |nodes| :: nodes[i].activityId
    requires forall i :: 0 <= i < |nodes| ==> activities[nodes[i].activityId] == nodes[i]
    requires forall i, j :: 0 <= i < |nodes| && 0 <= j < |nodes[i].nextIds| ==> nodes[i].nextIds[j] in activities.Keys
    ensures Closed(GraphOf(activities))
  {
    var g := GraphOf(activities);
    forall id, j | id in g && 0 <= j < |g[id]| ensures g[id][j] in g {
      var i :| 0 <= i < |nodes| && nodes[i].activityId == id;
      assert g[id] == nodes[i].nextIds;
    }
  }

  /** `sections.map(inflateMapNode)`, stopping at the first error. */
  method InflateNodes(sections: seq<Section>) returns (r: Result<seq<MapNode>, ParseError>)
    ensures r == Collect(NodeResults(sections))
  {
    ghost var results := NodeResults(sections);
    var nodes: seq<MapNode> := [];
    var i := 0;
    while i < |sections|
      invariant i <= |sections|
      invariant Collect(results[..i]) == Success(nodes)
    {
      assert results[..i + 1][..i] == results[..i];
      var node := InflateMapNode(sections[i]);
      if node.Failure? {
        CollectFailsFromPrefix(results, i + 1);
        return Failure(node.error);
      }
      nodes := nodes + [node.value];
      i := i + 1;
    }
    assert results[..i] == results;
    return Success(nodes);
  }

  /** `result.activities[activity.activityId] = activity` for each node,
      after checking the id is new. */
  method FileActivities(nodes: seq<MapNode>, mapId: string) returns (r: Result<map<string, MapNode>, ParseError>)
    ensures r == Activities(nodes, mapId, |nodes|)
  {
    var activities: map<string, MapNode> := map[];
    var i := 0;
    while i < |nodes|
      invariant i <= |nodes|
      invariant Activities(nodes, mapId, i) == Success(activities)
    {
      var id := nodes[i].activityId;
      if id in activities {
        ActivitiesFailFromPrefix(nodes, mapId, i + 1);
        return Failure(DuplicateActivity(id, mapId));
      }
      activities := activities[id := nodes[i]];
      i := i + 1;
    }
    return Success(activities);
  }

  /** Resolves every `next` id, stopping at the first unknown one. */
  method CheckNextIds(nodes: seq<MapNode>, known: set<string>) returns (unknown: Option<string>)
    ensures unknown == FirstUnknown(nodes, known, |nodes|)
  {
    var i := 0;
    while i < |nodes|
      invariant i <= |nodes|
      invariant FirstUnknown(nodes, known, i).None?
    {
      var nextIds := nodes[i].nextIds;
      var j := 0;
      while j < |nextIds|
        invariant j <= |nextIds|
        invariant UnknownIn(nextIds, known, j).None?
      {
        if nextIds[j] !in known {
          UnknownInFromPrefix(nextIds, known, j + 1);
          UnknownFromPrefix(nodes, known, i + 1);
          return Some(nextIds[j]);
        }
        j := j + 1;
      }
      i := i + 1;
    }
    return None;
  }

  method BuildMapFromSections(header: Section, sections: seq<Section>) returns (r: Result<SkillMap, ParseError>)
    ensures r == BuildMap(header, sections)
  {
    var h := InflateSkillMap(header);
    if h.Failure? {
      return Failure(h.error);
    }
    var mapId := h.value.mapId;
    var nodes := InflateNodes(sections);
    if nodes.Failure? {
      return Failure(nodes.error);
    }
    var activities := FileActivities(nodes.value, mapId);
    if activities.Failure? {
      return Failure(activities.error);
    }
    var unknown := CheckNextIds(nodes.value, activities.value.Keys);
    if unknown.Some? {
      return Failure(UnknownActivity(unknown.value, mapId));
    }
    if |nodes.value| == 0 {
      return Failure(EmptyMap(mapId));
    }
    LinkedIsClosed(header, sections);
    var loop := CheckForLoopsRecursive(GraphOf(activities.value), nodes.value[0].activityId, {});
    if loop {
      return Failure(LoopInMap(mapId));
    }
    r := Success(SkillMap(h.value, activities.value, nodes.value[0]));
  }

  lemma {:induction false} ActivitiesFailFromPrefix(nodes: seq<MapNode>, mapId: string, n: nat)
    requires n <= |nodes| && Activities(nodes, mapId, n).Failure?
    ensures Activities(nodes, mapId, |nodes|) == Activities(nodes, mapId, n)
    decreases |nodes| - n
  {
    if n < |nodes| {
      ActivitiesFailFromPrefix(nodes, mapId, n + 1);
    }
  }

  lemma {:induction false} UnknownFromPrefix(nodes: seq<MapNode>, known: set<string>, n: nat)
    requires n <= |nodes| && FirstUnknown(nodes, known, n).Some?
    ensures FirstUnknown(nodes, known, |nodes|) == FirstUnknown(nodes, known, n)
    decreases |nodes| - n
  {
    if n < |nodes| {
      UnknownFromPrefix(nodes, known, n + 1);
    }
  }

  lemma {:induction false} UnknownInFromPrefix(ids: seq<string>, known: set<string>, n: nat)
    requires n <= |ids| && UnknownIn(ids, known, n).Some?
    ensures UnknownIn(ids, known, |ids|) == UnknownIn(ids, known, n)
    decreases |ids| - n
  {
    if n < |ids| {
      UnknownInFromPrefix(ids, known, n + 1);
    }
  }
}
