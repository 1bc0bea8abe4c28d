/** The coordinator's `/nodes` routes: registering a storage node under a unique name,
    listing the registered nodes by id one page at a time, and removing a node together
    with the chunk locations that point at it. */
module Nodes {
  import opened Wrappers
  import opened Seqs
  import opened Http
  import opened Schema

  const PageSize: nat := 10

  // ---------------------------------------------------------------------------
  // register_node

  /** The duplicate query of `register_node`: the first node with this name. */
  function FindByName(nodes: seq<Node>, name: string): (r: Option<Node>)
    ensures r.Some? ==> r.value in nodes && r.value.name == name
    ensures r.None? <==> forall n :: n in nodes ==> n.name != name
    decreases |nodes|
  {
    if |nodes| == 0 then None
    else if nodes[0].name == name then Some(nodes[0])
    else FindByName(nodes[1..], name)
  }

  /** `register_node`: 400 when the name is taken; otherwise a new row with the next id,
      online unless the request says otherwise. */
  method RegisterNode(db: Db, name: string, baseUrl: string, isOnline: Option<bool>, capacityBytes: Option<int>)
    returns (r: Result<Node, HttpError>)
    requires db.Valid()
    modifies db
    ensures (exists n :: n in old(db.nodes) && n.name == name) ==>
              r == Failure(NodeNameTaken) && db.nodes == old(db.nodes) && db.nextNodeId == old(db.nextNodeId)
    ensures (forall n :: n in old(db.nodes) ==> n.name != name) ==>
              && r == Success(Node(old(db.nextNodeId), name, baseUrl, isOnline.GetOr(true), capacityBytes))
              && db.nodes == old(db.nodes) + [r.value]
              && db.nextNodeId == old(db.nextNodeId) + 1
    ensures db.files == old(db.files) && db.chunks == old(db.chunks) && db.locations == old(db.locations)
    ensures db.folders == old(db.folders) && db.permissions == old(db.permissions)
    ensures db.nextFileId == old(db.nextFileId) && db.nextFolderId == old(db.nextFolderId)
    ensures db.Valid()
  {
    var existing := FindByName(db.nodes, name);
    if existing.Some? {
      return Failure(NodeNameTaken);
    }
    var node := Node(db.nextNodeId, name, baseUrl, isOnline.GetOr(true), capacityBytes);
    AppendKeepsNodeOrder(db.nodes, node);
    db.nodes := db.nodes + [node];
    db.nextNodeId := db.nextNodeId + 1;
    return Success(node);
  }

  /** A node with an id above every id and a fresh name can go at the end of the table. */
  lemma AppendKeepsNodeOrder(nodes: seq<Node>, n: Node)
    requires NodeIdsAscending(nodes) && NodeNamesUnique(nodes)
    requires forall m :: m in nodes ==> m.id < n.id
    requires forall m :: m in nodes ==> m.name != n.name
    ensures NodeIdsAscending(nodes + [n]) && NodeNamesUnique(nodes + [n])
  {
    var s := nodes + [n];
    forall i, j | 0 <= i < j < |s| ensures NodeId(s[i]) < NodeId(s[j]) && s[i].name != s[j].name {
      if j == |nodes| {
        assert s[i] in nodes;
      }
    }
  }

  // ---------------------------------------------------------------------------
  // list_nodes

  /** `list_nodes`: page below 1 is refused (a 422); otherwise the window of the table
      ordered by id, at offset `(page - 1) * 10`. */
  function ListNodes(nodes: seq<Node>, page: int): Result<seq<Node>, HttpError> {
    if page < 1 then Failure(PageBelowOne)
    else Success(Window(SortBy(nodes, NodeId), (page - 1) * PageSize, PageSize))
  }

  /** With the table held in id order, page `p` is rows `(p - 1) * 10` onwards of the
      table itself: at most ten registered nodes, in strictly ascending id order. */
  lemma ListNodesSpec(nodes: seq<Node>, page: int)
    requires NodeIdsAscending(nodes)
    ensures var r := ListNodes(nodes, page);
            && (r.Failure? <==> page < 1)
            && (r.Failure? ==> r.error == PageBelowOne && r.error.Status() == 422)
            && (r.Success? ==>
                  && r.value == Window(nodes, (page - 1) * PageSize, PageSize)
                  && |r.value| <= PageSize
                  && (forall n :: n in r.value ==> n in nodes)
                  && (forall i, j :: 0 <= i < j < |r.value| ==> r.value[i].id < r.value[j].id))
  {
    if page >= 1 {
      StrictlyAscendingIsAscending(nodes, NodeId);
      SortByIdentity(nodes, NodeId);
      var skip := (page - 1) * PageSize;
      assert ListNodes(nodes, page) == Success(Window(nodes, skip, PageSize));
      WindowInside(nodes, skip, PageSize);
      WindowAscending(nodes, skip);
    }
  }

  /** A window of a table in id order is in id order. */
  lemma WindowAscending(nodes: seq<Node>, skip: nat)
    requires NodeIdsAscending(nodes)
    ensures var r := Window(nodes, skip, PageSize);
            forall i, j :: 0 <= i < j < |r| ==> r[i].id < r[j].id
  {
    var r := Window(nodes, skip, PageSize);
    forall i, j | 0 <= i < j < |r| ensures r[i].id < r[j].id {
      assert r[i] == nodes[skip + i] && r[j] == nodes[skip + j];
      assert NodeId(nodes[skip + i]) < NodeId(nodes[skip + j]);
    }
  }

  /** Every registered node appears on the page that holds its position. */
  lemma ListNodesComplete(nodes: seq<Node>, i: nat)
    requires NodeIdsAscending(nodes) && i < |nodes|
    ensures var r := ListNodes(nodes, i / PageSize + 1);
            r.Success? && nodes[i] in r.value
  {
    ListNodesSpec(nodes, i / PageSize + 1);
    WindowCovers(nodes, i, PageSize);
  }

  // ---------------------------------------------------------------------------
  // delete_node

  /** The node table without the row of id `nodeId`. */
  function WithoutNode(nodes: seq<Node>, nodeId: nat): seq<Node>
    decreases |nodes|
  {
    if |nodes| == 0 then []
    else if nodes[0].id == nodeId then WithoutNode(nodes[1..], nodeId)
    else [nodes[0]] + WithoutNode(nodes[1..], nodeId)
  }

  /** The `ondelete="CASCADE"` on `chunk_locations.node_id`: every location on the node goes. */
  function WithoutLocationsOn(locations: seq<LocationRow>, nodeId: nat): seq<LocationRow>
    decreases |locations|
  {
    if |locations| == 0 then []
    else if locations[0].nodeId == nodeId then WithoutLocationsOn(locations[1..], nodeId)
    else [locations[0]] + WithoutLocationsOn(locations[1..], nodeId)
  }

  /** Removing a node keeps every other node and only those. */
  lemma {:induction false} WithoutNodeMembers(nodes: seq<Node>, nodeId: nat)
    ensures forall n :: n in WithoutNode(nodes, nodeId) <==> n in nodes && n.id != nodeId
    decreases |nodes|
  {
    if |nodes| > 0 {
      WithoutNodeMembers(nodes[1..], nodeId);
      assert nodes == [nodes[0]] + nodes[1..];
    }
  }

  /** A node in front keeps the names unique exactly when its name is not already taken. */
  lemma NodeNamesUniqueCons(x: Node, s: seq<Node>)
    ensures NodeNamesUnique([x] + s) <==> NodeNamesUnique(s) && forall m :: m in s ==> m.name != x.name
  {
    var t := [x] + s;
    if NodeNamesUnique(t) {
      forall m | m in s ensures m.name != x.name {
        var k :| 0 <= k < |s| && s[k] == m;
        assert t[0] == x && t[k + 1] == m;
      }
      forall i, j | 0 <= i < j < |s| ensures s[i].name != s[j].name {
        assert t[i + 1] == s[i] && t[j + 1] == s[j];
      }
    }
    if NodeNamesUnique(s) && forall m :: m in s ==> m.name != x.name {
      forall i, j | 0 <= i < j < |t| ensures t[i].name != t[j].name {
        assert t[j] == s[j - 1];
        if i > 0 {
          assert t[i] == s[i - 1];
        } else {
          assert t[i] == x && s[j - 1] in s;
        }
      }
    }
  }

  /** Removing a node keeps the table in id order with unique names. */
  lemma {:induction false} WithoutNodeKeepsOrder(nodes: seq<Node>, nodeId: nat)
    requires NodeIdsAscending(nodes) && NodeNamesUnique(nodes)
    ensures NodeIdsAscending(WithoutNode(nodes, nodeId)) && NodeNamesUnique(WithoutNode(nodes, nodeId))
    decreases |nodes|
  {
    if |nodes| > 0 {
      var rest := nodes[1..];
      assert nodes == [nodes[0]] + rest;
      assert NodeIdsAscending(rest);
      NodeNamesUniqueCons(nodes[0], rest);
      WithoutNodeKeepsOrder(rest, nodeId);
      if nodes[0].id != nodeId {
        var w := WithoutNode(rest, nodeId);
        WithoutNodeMembers(rest, nodeId);
        forall j | 0 <= j < |w| ensures NodeId(nodes[0]) < NodeId(w[j]) {
          var k :| 0 <= k < |rest| && rest[k] == w[j];
          assert nodes[k + 1] == w[j];
        }
        StrictlyAscendingCons(nodes[0], w, NodeId);
        NodeNamesUniqueCons(nodes[0], w);
      }
    }
  }

  /** The cascade removes exactly the locations on the node. */
  lemma {:induction false} WithoutLocationsOnMembers(locations: seq<LocationRow>, nodeId: nat)
    ensures forall l :: l in WithoutLocationsOn(locations, nodeId) <==> l in locations && l.nodeId != nodeId
    decreases |locations|
  {
    if |locations| > 0 {
      WithoutLocationsOnMembers(locations[1..], nodeId);
      assert locations == [locations[0]] + locations[1..];
    }
  }

  /** `delete_node`: 404 when no node has the id; otherwise the node's row and, by the
      cascade, every chunk location on it are removed, and nothing else changes. */
  method DeleteNode(db: Db, nodeId: nat) returns (error: Option<HttpError>)
    requires db.Valid()
    modifies db
    ensures error.Some? <==> forall n :: n in old(db.nodes) ==> n.id != nodeId
    ensures error.Some? ==> error == Some(NodeNotFound) && db.nodes == old(db.nodes) &&
                            db.locations == old(db.locations)
    ensures error.None? ==> db.nodes == WithoutNode(old(db.nodes), nodeId) &&
                            db.locations == WithoutLocationsOn(old(db.locations), nodeId)
    ensures forall n :: n in db.nodes <==> n in old(db.nodes) && n.id != nodeId
    ensures error.None? ==> forall l :: l in db.locations <==> l in old(db.locations) && l.nodeId != nodeId
    ensures db.files == old(db.files) && db.chunks == old(db.chunks) && db.folders == old(db.folders)
    ensures db.permissions == old(db.permissions) && db.nextFileId == old(db.nextFileId)
    ensures db.nextFolderId == old(db.nextFolderId) && db.nextNodeId == old(db.nextNodeId)
    ensures db.Valid()
  {
    var found := FindNodeById(db.nodes, nodeId);
    if !found {
      return Some(NodeNotFound);
    }
    WithoutNodeMembers(db.nodes, nodeId);
    WithoutNodeKeepsOrder(db.nodes, nodeId);
    WithoutLocationsOnMembers(db.locations, nodeId);
    db.nodes := WithoutNode(db.nodes, nodeId);
    db.locations := WithoutLocationsOn(db.locations, nodeId);
    return None;
  }

  /** The lookup query of `delete_node`: whether a row has this id. */
  function FindNodeById(nodes: seq<Node>, nodeId: nat): (found: bool)
    ensures found <==> exists n :: n in nodes && n.id == nodeId
    decreases |nodes|
  {
    if |nodes| == 0 then false
    else if nodes[0].id == nodeId then true
    else FindNodeById(nodes[1..], nodeId)
  }
}
