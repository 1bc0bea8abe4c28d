/** Placement and replication of chunks (control_plane/services/storage_client.py):
    the online node list, the consistent-hash ring, replica selection on the ring, and
    the PUT of one chunk to each selected node. SHA-256 is the parameter `h`, the HTTP
    PUT the per-URL oracle `put`. */
module StorageClient {
  import opened Wrappers
  import opened Seqs
  import opened Http
  import opened Schema

  // ---------------------------------------------------------------------------
  // Online nodes

  /** The nodes flagged online, in table order. */
  function FilterOnline(nodes: seq<Node>): (r: seq<Node>)
    ensures forall n :: n in r <==> n in nodes && n.isOnline
    ensures |r| <= |nodes|
    ensures |r| == 0 <==> forall n :: n in nodes ==> !n.isOnline
    decreases |nodes|
  {
    if |nodes| == 0 then []
    else if nodes[0].isOnline then [nodes[0]] + FilterOnline(nodes[1..])
    else FilterOnline(nodes[1..])
  }

  lemma {:induction false} FilterOnlineAscending(nodes: seq<Node>)
    requires NodeIdsAscending(nodes)
    ensures NodeIdsAscending(FilterOnline(nodes))
    decreases |nodes|
  {
    if |nodes| > 0 {
      assert NodeIdsAscending(nodes[1..]);
      FilterOnlineAscending(nodes[1..]);
      var t := FilterOnline(nodes[1..]);
      forall j | 0 <= j < |t| ensures NodeId(nodes[0]) < NodeId(t[j]) {
        assert t[j] in t;
        var k :| 0 <= k < |nodes[1..]| && nodes[1..][k] == t[j];
        assert nodes[k + 1] == t[j];
      }
      if nodes[0].isOnline {
        StrictlyAscendingCons(nodes[0], t, NodeId);
      }
    }
  }

  /** The query of `get_online_nodes`: online nodes ordered by id. */
  function OnlineNodes(nodes: seq<Node>): seq<Node> {
    SortBy(FilterOnline(nodes), NodeId)
  }

  /** On a table held in primary-key order, ordering by id keeps the table order. */
  lemma OnlineNodesInTableOrder(nodes: seq<Node>)
    requires NodeIdsAscending(nodes)
    ensures OnlineNodes(nodes) == FilterOnline(nodes)
    ensures NodeIdsAscending(OnlineNodes(nodes))
  {
    FilterOnlineAscending(nodes);
    SortByIdentity(FilterOnline(nodes), NodeId);
  }

  /** `get_online_nodes`: 503 when no node is online, otherwise every online node, by id. */
  function GetOnlineNodes(nodes: seq<Node>): (r: Result<seq<Node>, HttpError>)
    ensures r.Failure? <==> forall n :: n in nodes ==> !n.isOnline
    ensures r.Failure? ==> r.error == NoOnlineNodes
    ensures r.Success? ==> (forall n :: n in r.value <==> n in nodes && n.isOnline)
    ensures r.Success? ==> AscendingBy(r.value, NodeId)
  {
    var online := OnlineNodes(nodes);
    SortByAscending(FilterOnline(nodes), NodeId);
    assert forall n :: n in online <==> n in multiset(FilterOnline(nodes));
    if |online| == 0 then Failure(NoOnlineNodes)
    else
      Success(online)
  }

  /** The filter keeps each online node as often as the table holds it and drops every
      offline one. */
  lemma {:induction false} FilterOnlineCounts(nodes: seq<Node>)
    ensures forall n :: multiset(FilterOnline(nodes))[n] == if n.isOnline then multiset(nodes)[n] else 0
    decreases |nodes|
  {
    if |nodes| > 0 {
      FilterOnlineCounts(nodes[1..]);
      assert nodes == [nodes[0]] + nodes[1..];
    }
  }

  /** `get_online_nodes` answers each online node of the table exactly as often as the
      table holds it, and no offline node. */
  lemma GetOnlineNodesCounts(nodes: seq<Node>)
    ensures var r := GetOnlineNodes(nodes);
            r.Success? ==> forall n :: multiset(r.value)[n] == if n.isOnline then multiset(nodes)[n] else 0
  {
    FilterOnlineCounts(nodes);
  }

  // ---------------------------------------------------------------------------
  // The hash ring

  /** The ring key of a node: `f"node-{node.id}"`. */
  function NodeKey(id: nat): string {
    "node-" + NatToString(id)
  }

  datatype Slot = Slot(hash: nat, node: Node)

  function SlotHash(s: Slot): int { s.hash }
  function SlotNodeId(s: Slot): int { s.node.id }

  /** The `(hash, node)` pairs of `nodes`, in input order. */
  function Slots(nodes: seq<Node>, h: string -> nat): (r: seq<Slot>)
    ensures |r| == |nodes|
  {
    seq(|nodes|, i requires 0 <= i < |nodes| => Slot(h(NodeKey(nodes[i].id)), nodes[i]))
  }

  /** The ring: the pairs, stably sorted by hash. */
  function Ring(nodes: seq<Node>, h: string -> nat): seq<Slot> {
    SortBy(Slots(nodes, h), SlotHash)
  }

  /** The ring is a permutation of the input's pairs, ascending by hash; when the input
      is in id order, equal hashes keep id order. */
  lemma RingIsSortedPermutation(nodes: seq<Node>, h: string -> nat)
    ensures multiset(Ring(nodes, h)) == multiset(Slots(nodes, h))
    ensures |Ring(nodes, h)| == |nodes|
    ensures AscendingBy(Ring(nodes, h), SlotHash)
    ensures forall s :: s in Ring(nodes, h) ==> s.node in nodes && s.hash == h(NodeKey(s.node.id))
    ensures NodeIdsAscending(nodes) ==> LexAscendingBy(Ring(nodes, h), SlotHash, SlotNodeId)
  {
    var slots := Slots(nodes, h);
    SortByAscending(slots, SlotHash);
    forall s | s in Ring(nodes, h) ensures s.node in nodes && s.hash == h(NodeKey(s.node.id)) {
      assert s in multiset(slots);
      var k :| 0 <= k < |slots| && slots[k] == s;
    }
    if NodeIdsAscending(nodes) {
      assert StrictlyAscendingBy(slots, SlotNodeId);
      LexSortedWhenStable(slots, SlotHash, SlotNodeId);
    }
  }

  /** On an id-ordered input no node occupies two ring slots. */
  lemma RingNodesDistinct(nodes: seq<Node>, h: string -> nat)
    requires NodeIdsAscending(nodes)
    ensures RingIdsDistinct(Ring(nodes, h))
  {
    var ring := Ring(nodes, h);
    RingIsSortedPermutation(nodes, h);
    forall a, b | 0 <= a < b < |ring| ensures ring[a].node.id != ring[b].node.id {
      assert ring[a] in ring && ring[b] in ring;
      assert SlotHash(ring[a]) < SlotHash(ring[b]) || SlotNodeId(ring[a]) < SlotNodeId(ring[b]);
    }
  }

  /** `build_hash_ring`: append one pair per node, then sort by hash. */
  method BuildHashRing(nodes: seq<Node>, h: string -> nat) returns (ring: seq<Slot>)
    ensures ring == Ring(nodes, h)
    ensures multiset(ring) == multiset(Slots(nodes, h))
    ensures AscendingBy(ring, SlotHash)
    ensures NodeIdsAscending(nodes) ==> LexAscendingBy(ring, SlotHash, SlotNodeId)
  {
    ring := [];
    var i := 0;
    while i < |nodes|
      invariant 0 <= i <= |nodes|
      invariant |ring| == i
      invariant forall k :: 0 <= k < i ==> ring[k] == Slot(h(NodeKey(nodes[k].id)), nodes[k])
    {
      var nodeKey := NodeKey(nodes[i].id);
      ring := ring + [Slot(h(nodeKey), nodes[i])];
      i := i + 1;
    }
    assert ring == Slots(nodes, h);
    ring := SortBy(ring, SlotHash);
    RingIsSortedPermutation(nodes, h);
  }

  // ---------------------------------------------------------------------------
  // Selection on the ring

  /** The first ring position whose hash is at least `keyHash`, or `|ring|` if none is. */
  function FirstAtLeast(ring: seq<Slot>, keyHash: nat): (k: nat)
    ensures k <= |ring|
    ensures forall j :: 0 <= j < k ==> ring[j].hash < keyHash
    ensures k < |ring| ==> ring[k].hash >= keyHash
    decreases |ring|
  {
    if |ring| == 0 then 0
    else if ring[0].hash >= keyHash then 0
    else 1 + FirstAtLeast(ring[1..], keyHash)
  }

  /** Where the walk starts: the first slot at or past the key, wrapping to 0. */
  function StartSlot(ring: seq<Slot>, keyHash: nat): nat {
    var k := FirstAtLeast(ring, keyHash);
    if k < |ring| then k else 0
  }

  /** The node `j` slots after `start`, wrapping around the ring. */
  function RingAt(ring: seq<Slot>, start: nat, j: nat): Node
    requires |ring| > 0
  {
    ring[(start + j) % |ring|].node
  }

  /** `count` successive ring nodes from `start`, wrapping around. */
  function Walk(ring: seq<Slot>, start: nat, count: nat): (r: seq<Node>)
    requires |ring| > 0
    ensures |r| == count
    ensures forall j :: 0 <= j < count ==> r[j] == RingAt(ring, start, j)
  {
    seq(count, j requires 0 <= j < count => RingAt(ring, start, j))
  }

  /** What `select_nodes_for_chunk_consistent` returns; an absent `replication_factor`
      argument takes `setting`, the configured `settings.REPLICATION_FACTOR`. */
  function Select(nodes: seq<Node>, chunkId: string, replicationFactor: Option<int>, setting: int,
                  h: string -> nat): Result<seq<Node>, HttpError>
  {
    var rf := replicationFactor.GetOr(setting);
    var online := OnlineNodes(nodes);
    if |online| == 0 then Failure(NoOnlineNodes)
    else if |online| <= rf then Success(online)
    else
      var ring := Ring(online, h);
      Success(Walk(ring, StartSlot(ring, h(chunkId)), if rf < 0 then 0 else rf))
  }

  /** Placement fails exactly when no node is online, and then with 503. */
  lemma SelectFails(nodes: seq<Node>, chunkId: string, replicationFactor: Option<int>, setting: int, h: string -> nat)
    ensures var r := Select(nodes, chunkId, replicationFactor, setting, h);
            && (r.Failure? <==> forall n :: n in nodes ==> !n.isOnline)
            && (r.Failure? ==> r.error == NoOnlineNodes)
  {
    if |OnlineNodes(nodes)| == 0 {
      assert FilterOnline(nodes) == [];
    }
  }

  /** With no more online nodes than the replication factor, the result is the online
      list itself, in id order. */
  lemma SelectAllWhenFew(nodes: seq<Node>, chunkId: string, replicationFactor: Option<int>, setting: int, h: string -> nat)
    requires NodeIdsAscending(nodes)
    requires |FilterOnline(nodes)| > 0
    requires |FilterOnline(nodes)| <= replicationFactor.GetOr(setting)
    ensures Select(nodes, chunkId, replicationFactor, setting, h) == Success(FilterOnline(nodes))
  {
    OnlineNodesInTableOrder(nodes);
  }

  /** The ring walk: with more online nodes than `R`, the result is `R` nodes (none for
      `R <= 0`), namely `ring[(start + j) % n]` for `j < R`, where `start` is the first
      slot whose hash reaches the chunk's hash (every earlier slot is below it), or 0. */
  lemma SelectWalksRing(nodes: seq<Node>, chunkId: string, replicationFactor: Option<int>, setting: int, h: string -> nat)
    requires NodeIdsAscending(nodes)
    requires |FilterOnline(nodes)| > replicationFactor.GetOr(setting)
    requires |FilterOnline(nodes)| > 0
    ensures var rf := replicationFactor.GetOr(setting);
            var ring := Ring(FilterOnline(nodes), h);
            var start := StartSlot(ring, h(chunkId));
            var r := Select(nodes, chunkId, replicationFactor, setting, h);
            && start < |ring|
            && (forall k :: 0 <= k < start ==> ring[k].hash < h(chunkId))
            && (ring[start].hash >= h(chunkId) || (start == 0 && forall k :: 0 <= k < |ring| ==> ring[k].hash < h(chunkId)))
            && r.Success?
            && |r.value| == (if rf < 0 then 0 else rf)
            && forall j :: 0 <= j < |r.value| ==> r.value[j] == RingAt(ring, start, j)
  {
    var rf := replicationFactor.GetOr(setting);
    var online := FilterOnline(nodes);
    OnlineNodesInTableOrder(nodes);
    var ring := Ring(online, h);
    assert |ring| == |online|;
    var start := StartSlot(ring, h(chunkId));
    assert Select(nodes, chunkId, replicationFactor, setting, h) == Success(Walk(ring, start, if rf < 0 then 0 else rf));
  }

  /** Selected nodes are online nodes of the table, pairwise distinct; at least one is
      selected whenever `R >= 1`. */
  lemma SelectDistinctOnline(nodes: seq<Node>, chunkId: string, replicationFactor: Option<int>, setting: int, h: string -> nat)
    requires NodeIdsAscending(nodes)
    requires Select(nodes, chunkId, replicationFactor, setting, h).Success?
    ensures var r := Select(nodes, chunkId, replicationFactor, setting, h).value;
            && (forall n :: n in r ==> n in nodes && n.isOnline)
            && (forall a, b :: 0 <= a < b < |r| ==> r[a] != r[b])
            && (replicationFactor.GetOr(setting) >= 1 ==> |r| >= 1)
  {
    var rf := replicationFactor.GetOr(setting);
    var online := FilterOnline(nodes);
    OnlineNodesInTableOrder(nodes);
    var r := Select(nodes, chunkId, replicationFactor, setting, h).value;
    if |online| > rf {
      var ring := Ring(online, h);
      RingIsSortedPermutation(online, h);
      RingNodesDistinct(online, h);
      var start := StartSlot(ring, h(chunkId));
      assert r == Walk(ring, start, if rf < 0 then 0 else rf);
      WalkFromRing(ring, start, if rf < 0 then 0 else rf);
      WalkNoDuplicates(ring, start, if rf < 0 then 0 else rf);
    } else {
      forall a, b | 0 <= a < b < |r| ensures r[a] != r[b] {
        assert NodeId(r[a]) < NodeId(r[b]);
      }
    }
  }

  predicate RingIdsDistinct(ring: seq<Slot>) {
    forall a, b :: 0 <= a < |ring| && 0 <= b < |ring| && a != b ==> ring[a].node.id != ring[b].node.id
  }

  /** Within one turn of the ring the walk never meets the same node twice. */
  lemma WalkDistinct(ring: seq<Slot>, start: nat, j: nat, m: nat)
    requires RingIdsDistinct(ring)
    requires start < |ring| && j < m < |ring|
    ensures RingAt(ring, start, j).id != RingAt(ring, start, m).id
  {
    ModDistinct(start, j, m, |ring|);
  }

  lemma WalkFromRing(ring: seq<Slot>, start: nat, count: nat)
    requires |ring| > 0
    ensures forall x :: x in Walk(ring, start, count) ==> exists s :: s in ring && s.node == x
  {
    var w := Walk(ring, start, count);
    forall x | x in w ensures exists s :: s in ring && s.node == x {
      var j :| 0 <= j < |w| && w[j] == x;
      assert ring[(start + j) % |ring|] in ring;
    }
  }

  lemma WalkNoDuplicates(ring: seq<Slot>, start: nat, count: nat)
    requires RingIdsDistinct(ring)
    requires start < |ring| && count <= |ring|
    ensures forall a, b :: 0 <= a < b < count ==> Walk(ring, start, count)[a] != Walk(ring, start, count)[b]
  {
    forall a, b | 0 <= a < b < count
      ensures Walk(ring, start, count)[a] != Walk(ring, start, count)[b]
    {
      WalkDistinct(ring, start, a, b);
    }
  }

  lemma ModStep(x: nat, n: nat)
    requires 0 < n && x < 2 * n
    ensures x % n == if x < n then x else x - n
  {
    if x >= n {
      assert x == n + (x - n);
    }
  }

  /** Distinct offsets below `n` from a start below `n` land on distinct ring slots. */
  lemma ModDistinct(start: nat, a: nat, b: nat, n: nat)
    requires start < n && a < b < n
    ensures (start + a) % n != (start + b) % n
  {
    ModStep(start + a, n);
    ModStep(start + b, n);
  }

  /** The for/else scan of `select_nodes_for_chunk_consistent` for the start slot. */
  method ScanStart(ring: seq<Slot>, keyHash: nat) returns (startIdx: nat)
    ensures startIdx == StartSlot(ring, keyHash)
  {
    var n := |ring|;
    startIdx := 0;
    var found := false;
    var k := 0;
    while k < n
      invariant 0 <= k <= n
      invariant forall j :: 0 <= j < k ==> ring[j].hash < keyHash
    {
      if ring[k].hash >= keyHash {
        startIdx := k;
        found := true;
        break;
      }
      k := k + 1;
    }
    if !found {
      startIdx := 0;
    }
  }

  /** The while loop of `select_nodes_for_chunk_consistent` that collects distinct nodes. */
  method WalkRing(ring: seq<Slot>, startIdx: nat, rf: int) returns (selected: seq<Node>)
    requires RingIdsDistinct(ring)
    requires startIdx < |ring| && rf < |ring|
    ensures selected == Walk(ring, startIdx, if rf < 0 then 0 else rf)
  {
    var n := |ring|;
    selected := [];
    var i := startIdx;
    while |selected| < rf && |selected| < n
      invariant |selected| <= n
      invariant rf >= 0 ==> |selected| <= rf
      invariant rf < 0 ==> selected == []
      invariant i == if startIdx + |selected| < n then startIdx + |selected| else startIdx + |selected| - n
      invariant forall j :: 0 <= j < |selected| ==> selected[j] == RingAt(ring, startIdx, j)
      decreases n - |selected|
    {
      ModStep(startIdx + |selected|, n);
      var node := ring[i].node;
      assert node == RingAt(ring, startIdx, |selected|);
      if node in selected {
        var j :| 0 <= j < |selected| && selected[j] == node;
        WalkDistinct(ring, startIdx, j, |selected|);
        assert false;
      }
      selected := selected + [node];
      ModStep(i + 1, n);
      i := (i + 1) % n;
    }
  }

  /** `select_nodes_for_chunk_consistent`: the online nodes, and, when there are more of
      them than the replication factor, the for/else scan for the start slot and the walk
      that collects distinct nodes. */
  method SelectNodesForChunk(db: Db, chunkId: string, replicationFactor: Option<int>, setting: int, h: string -> nat)
    returns (r: Result<seq<Node>, HttpError>)
    requires NodeIdsAscending(db.nodes)
    ensures r == Select(db.nodes, chunkId, replicationFactor, setting, h)
  {
    var rf := replicationFactor.GetOr(setting);
    var got := GetOnlineNodes(db.nodes);
    if got.Failure? {
      return Failure(got.error);
    }
    OnlineNodesInTableOrder(db.nodes);
    var selected := PlaceOnRing(got.value, chunkId, rf, h);
    return Success(selected);
  }

  /** The part of `select_nodes_for_chunk_consistent` after the online query: all the
      nodes when they are not more than `rf`, otherwise `rf` of them walked from the key. */
  method PlaceOnRing(nodes: seq<Node>, chunkId: string, rf: int, h: string -> nat)
    returns (selected: seq<Node>)
    requires NodeIdsAscending(nodes) && |nodes| > 0
    ensures |nodes| <= rf ==> selected == nodes
    ensures |nodes| > rf ==>
              selected == Walk(Ring(nodes, h), StartSlot(Ring(nodes, h), h(chunkId)), if rf < 0 then 0 else rf)
  {
    var ring := BuildHashRing(nodes, h);
    if |nodes| <= rf {
      return nodes;
    }
    RingNodesDistinct(nodes, h);
    var keyHash := h(chunkId);
    var startIdx := ScanStart(ring, keyHash);
    selected := WalkRing(ring, startIdx, rf);
  }

  // ---------------------------------------------------------------------------
  // Replication of one chunk

  /** What a PUT to a storage node came back with. */
  datatype PutReply = PutTransportError | PutAnswered(code: int)

  /** The statuses `replicate_chunk` accepts. */
  predicate Accepted(reply: PutReply) {
    reply.PutAnswered? && (reply.code == 200 || reply.code == 201)
  }

  /** One PUT issued to a storage node. */
  datatype PutRequest = PutRequest(url: string, body: Bytes)

  /** Python's `s.rstrip('/')`. */
  function StripTrailingSlashes(s: string): (r: string)
    ensures |r| <= |s| && r == s[..|r|]
    ensures forall i :: |r| <= i < |s| ==> s[i] == '/'
    ensures |r| == 0 || r[|r| - 1] != '/'
    decreases |s|
  {
    if |s| == 0 then s
    else if s[|s| - 1] == '/' then StripTrailingSlashes(s[..|s| - 1])
    else s
  }

  /** `f"{base_url.rstrip('/')}/chunks/{chunk_id}"`. */
  function ChunkUrl(baseUrl: string, chunkId: string): string {
    StripTrailingSlashes(baseUrl) + "/chunks/" + chunkId
  }

  /** The URL is the base address without its trailing slashes, then `/chunks/`, then
      the chunk id; trailing slashes on the base address make no difference. */
  lemma ChunkUrlShape(baseUrl: string, chunkId: string)
    ensures var stem := StripTrailingSlashes(baseUrl);
            && ChunkUrl(baseUrl, chunkId) == stem + "/chunks/" + chunkId
            && baseUrl[..|stem|] == stem
            && (forall i :: |stem| <= i < |baseUrl| ==> baseUrl[i] == '/')
            && (|stem| == 0 || stem[|stem| - 1] != '/')
            && ChunkUrl(baseUrl + "/", chunkId) == ChunkUrl(baseUrl, chunkId)
  {
    assert (baseUrl + "/")[..|baseUrl + "/"| - 1] == baseUrl;
  }

  function PutUrl(n: Node, chunkId: string): string {
    ChunkUrl(n.baseUrl, chunkId)
  }

  /** How many targets, from the first, accepted the PUT: the index of the first
      failing node, or all of them. */
  function Acked(targets: seq<Node>, chunkId: string, put: string -> PutReply): (k: nat)
    ensures k <= |targets|
    ensures forall j :: 0 <= j < k ==> Accepted(put(PutUrl(targets[j], chunkId)))
    ensures k < |targets| ==> !Accepted(put(PutUrl(targets[k], chunkId)))
    decreases |targets|
  {
    if |targets| == 0 then 0
    else if !Accepted(put(PutUrl(targets[0], chunkId))) then 0
    else 1 + Acked(targets[1..], chunkId, put)
  }

  /** The 502 raised for a node that failed the PUT. */
  function PutError(n: Node, reply: PutReply): HttpError {
    match reply
    case PutTransportError => NodeUnreachable(n.name)
    case PutAnswered(code) => NodeRejected(n.name, code)
  }

  /** What replicating one chunk leaves behind: location rows, the PUTs issued, and the
      error that aborted it, if any. */
  datatype PushTrace = PushTrace(locations: seq<LocationRow>, attempts: seq<PutRequest>,
                                 failure: Option<HttpError>)

  function Replicate(chunkId: string, data: Bytes, targets: seq<Node>, put: string -> PutReply): (t: PushTrace)
    ensures t.failure.Some? ==> t.failure.value.Status() == 502
  {
    var k := Acked(targets, chunkId, put);
    var sent := if k < |targets| then k + 1 else k;
    PushTrace(
      LocationsFor(chunkId, targets, k),
      PutsTo(chunkId, data, targets, sent),
      if k < |targets| then Some(PutError(targets[k], put(PutUrl(targets[k], chunkId)))) else None)
  }

  /** What replication leaves behind. It succeeds exactly when every target accepts
      the PUT. On success: one location per target, in target
      order, and one PUT of the chunk's bytes to every target. On failure at node `k`:
      every earlier node accepted, locations for those nodes only, PUTs to nodes 0..k,
      and the 502 names node `k`. */
  lemma ReplicateOutcome(chunkId: string, data: Bytes, targets: seq<Node>, put: string -> PutReply)
    ensures var t := Replicate(chunkId, data, targets, put);
            t.failure.None? <==> forall j :: 0 <= j < |targets| ==> Accepted(put(PutUrl(targets[j], chunkId)))
    ensures var t := Replicate(chunkId, data, targets, put);
            t.failure.None? ==>
              && |t.locations| == |targets| && |t.attempts| == |targets|
              && (forall j :: 0 <= j < |targets| ==> t.locations[j] == LocationRow(chunkId, targets[j].id))
              && (forall j :: 0 <= j < |targets| ==> t.attempts[j] == PutRequest(PutUrl(targets[j], chunkId), data))
    ensures var t := Replicate(chunkId, data, targets, put);
            t.failure.Some? ==>
              exists k :: 0 <= k < |targets|
                && (forall j :: 0 <= j < k ==> Accepted(put(PutUrl(targets[j], chunkId))))
                && !Accepted(put(PutUrl(targets[k], chunkId)))
                && t.failure == Some(PutError(targets[k], put(PutUrl(targets[k], chunkId))))
                && |t.locations| == k && |t.attempts| == k + 1
                && (forall j :: 0 <= j < k ==> t.locations[j] == LocationRow(chunkId, targets[j].id))
                && (forall j :: 0 <= j <= k ==> t.attempts[j] == PutRequest(PutUrl(targets[j], chunkId), data))
  {
    var k := Acked(targets, chunkId, put);
    LocationsForElements(chunkId, targets, k);
    if k < |targets| {
      PushStopsAt(chunkId, data, targets, put, k);
      PutsToElements(chunkId, data, targets, k + 1);
      assert PutsTo(chunkId, data, targets, k + 1) ==
             PutsTo(chunkId, data, targets, k) + [PutRequest(PutUrl(targets[k], chunkId), data)];
    } else {
      PushCompletes(chunkId, data, targets, put, k);
      PutsToElements(chunkId, data, targets, k);
    }
  }

  /** After a complete replication every location row names a target that was sent
      a PUT of the chunk's bytes. */
  lemma ReplicatedLocationsSent(chunkId: string, data: Bytes, targets: seq<Node>, put: string -> PutReply)
    requires Replicate(chunkId, data, targets, put).failure.None?
    ensures var t := Replicate(chunkId, data, targets, put);
            && |t.locations| == |targets|
            && forall l :: l in t.locations ==>
                 exists n :: n in targets && l == LocationRow(chunkId, n.id) &&
                             PutRequest(PutUrl(n, chunkId), data) in t.attempts
  {
    var t := Replicate(chunkId, data, targets, put);
    ReplicateOutcome(chunkId, data, targets, put);
    forall l | l in t.locations
      ensures exists n :: n in targets && l == LocationRow(chunkId, n.id) &&
                          PutRequest(PutUrl(n, chunkId), data) in t.attempts
    {
      var i :| 0 <= i < |t.locations| && t.locations[i] == l;
      assert t.attempts[i] in t.attempts;
      assert targets[i] in targets;
    }
  }

  /** Location rows for the first `k` targets. */
  function LocationsFor(chunkId: string, targets: seq<Node>, k: nat): (r: seq<LocationRow>)
    requires k <= |targets|
    ensures |r| == k
  {
    if k == 0 then [] else LocationsFor(chunkId, targets, k - 1) + [LocationRow(chunkId, targets[k - 1].id)]
  }

  lemma {:induction false} LocationsForElements(chunkId: string, targets: seq<Node>, k: nat)
    requires k <= |targets|
    ensures forall j :: 0 <= j < k ==> LocationsFor(chunkId, targets, k)[j] == LocationRow(chunkId, targets[j].id)
  {
    if k > 0 {
      LocationsForElements(chunkId, targets, k - 1);
    }
  }

  /** The PUTs to the first `k` targets. */
  function PutsTo(chunkId: string, data: Bytes, targets: seq<Node>, k: nat): (r: seq<PutRequest>)
    requires k <= |targets|
    ensures |r| == k
  {
    if k == 0 then [] else PutsTo(chunkId, data, targets, k - 1) + [PutRequest(PutUrl(targets[k - 1], chunkId), data)]
  }

  lemma {:induction false} PutsToElements(chunkId: string, data: Bytes, targets: seq<Node>, k: nat)
    requires k <= |targets|
    ensures forall j :: 0 <= j < k ==> PutsTo(chunkId, data, targets, k)[j] == PutRequest(PutUrl(targets[j], chunkId), data)
  {
    if k > 0 {
      PutsToElements(chunkId, data, targets, k - 1);
    }
  }

  /** `replicate_chunk`: adds the Chunk row first, then PUTs the bytes to each target in
      order, adding a location per node that accepted, and raises 502 at the first
      node that fails. */
  method ReplicateChunk(db: Db, fileId: nat, index: nat, chunkId: string, data: Bytes,
                        targets: seq<Node>, put: string -> PutReply)
    returns (r: Result<ChunkRow, HttpError>, attempts: seq<PutRequest>)
    modifies db
    ensures var t := Replicate(chunkId, data, targets, put);
            var row := ChunkRow(chunkId, fileId, index, |data|);
            && db.chunks == old(db.chunks) + [row]
            && db.locations == old(db.locations) + t.locations
            && attempts == t.attempts
            && r == (if t.failure.None? then Success(row) else Failure(t.failure.value))
    ensures db.Catalog() == old(db.Catalog())
  {
    var row := ChunkRow(chunkId, fileId, index, |data|);
    db.chunks := db.chunks + [row];
    ghost var chunks, locations, catalog := db.chunks, db.locations, db.Catalog();
    attempts := [];
    var j := 0;
    while j < |targets|
      invariant 0 <= j <= Acked(targets, chunkId, put)
      invariant db.chunks == chunks
      invariant db.locations == locations + LocationsFor(chunkId, targets, j)
      invariant attempts == PutsTo(chunkId, data, targets, j)
      invariant db.Catalog() == catalog
    {
      var node := targets[j];
      var url := PutUrl(node, chunkId);
      var reply := put(url);
      attempts := attempts + [PutRequest(url, data)];
      if !Accepted(reply) {
        // a request error is a 502 naming the node unreachable, any status other
        // than 200 or 201 a 502 naming the node and the status
        PushStopsAt(chunkId, data, targets, put, j);
        return Failure(PutError(node, reply)), attempts;
      }
      db.locations := db.locations + [LocationRow(chunkId, node.id)];
      ghost var j0 := j;
      j := j + 1;
      PushAdvance(chunkId, data, targets, put, j0, j);
    }
    PushCompletes(chunkId, data, targets, put, j);
    return Success(row), attempts;
  }

  /** One more accepted PUT: the acked prefix reaches past it, and the locations and the
      PUTs grow by that target's. */
  lemma PushAdvance(chunkId: string, data: Bytes, targets: seq<Node>, put: string -> PutReply, j: nat, j': nat)
    requires j < |targets| && j <= Acked(targets, chunkId, put) && j' == j + 1
    requires Accepted(put(PutUrl(targets[j], chunkId)))
    ensures j' <= Acked(targets, chunkId, put)
    ensures LocationsFor(chunkId, targets, j') == LocationsFor(chunkId, targets, j) + [LocationRow(chunkId, targets[j].id)]
    ensures PutsTo(chunkId, data, targets, j') == PutsTo(chunkId, data, targets, j) + [PutRequest(PutUrl(targets[j], chunkId), data)]
  {
  }

  /** A refused PUT at `j`, after `j` accepted ones, is where replication stops. */
  lemma PushStopsAt(chunkId: string, data: Bytes, targets: seq<Node>, put: string -> PutReply, j: nat)
    requires j < |targets| && j <= Acked(targets, chunkId, put)
    requires !Accepted(put(PutUrl(targets[j], chunkId)))
    ensures Replicate(chunkId, data, targets, put) ==
              PushTrace(LocationsFor(chunkId, targets, j),
                        PutsTo(chunkId, data, targets, j) + [PutRequest(PutUrl(targets[j], chunkId), data)],
                        Some(PutError(targets[j], put(PutUrl(targets[j], chunkId)))))
  {
    assert Acked(targets, chunkId, put) == j;
  }

  /** Every target accepted: replication completes with a location and a PUT per target. */
  lemma PushCompletes(chunkId: string, data: Bytes, targets: seq<Node>, put: string -> PutReply, j: nat)
    requires j == |targets| && j <= Acked(targets, chunkId, put)
    ensures Replicate(chunkId, data, targets, put) ==
              PushTrace(LocationsFor(chunkId, targets, j), PutsTo(chunkId, data, targets, j), None)
  {
  }
}
