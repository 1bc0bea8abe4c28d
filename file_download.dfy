/** The coordinator's `GET /files/{file_id}/download` route: the owned file, its chunk
    rows in index order, and the streaming generator that reads each chunk from the
    first online replica that serves it. */
module FileDownload {
  import opened Wrappers
  import opened Seqs
  import opened Http
  import opened Schema
  import opened StorageClient
  import opened FileUpload

  // ---------------------------------------------------------------------------
  // Download: which file, which chunks, which replicas

  /** The first file row with this id owned by this user (`.first()`). */
  function FindOwned(files: seq<FileRow>, fileId: nat, ownerId: nat): Option<FileRow>
    decreases |files|
  {
    if |files| == 0 then None
    else if files[0].id == fileId && files[0].ownerId == ownerId then Some(files[0])
    else FindOwned(files[1..], fileId, ownerId)
  }

  /** The lookup finds a row exactly when one has this id and owner, and what it finds
      is such a row. */
  lemma {:induction false} FindOwnedSpec(files: seq<FileRow>, fileId: nat, ownerId: nat)
    ensures var r := FindOwned(files, fileId, ownerId);
            && (r.Some? <==> exists i :: 0 <= i < |files| && files[i].id == fileId && files[i].ownerId == ownerId)
            && (r.Some? ==> r.value in files && r.value.id == fileId && r.value.ownerId == ownerId)
    decreases |files|
  {
    if |files| > 0 {
      FindOwnedSpec(files[1..], fileId, ownerId);
      if !(files[0].id == fileId && files[0].ownerId == ownerId) {
        if exists i :: 0 <= i < |files| && files[i].id == fileId && files[i].ownerId == ownerId {
          var i :| 0 <= i < |files| && files[i].id == fileId && files[i].ownerId == ownerId;
          assert files[1..][i - 1] == files[i];
        }
        if FindOwned(files, fileId, ownerId).Some? {
          var i :| 0 <= i < |files[1..]| && files[1..][i].id == fileId && files[1..][i].ownerId == ownerId;
          assert files[i + 1] == files[1..][i];
        }
      }
    }
  }

  /** The chunk rows of one file, in table order. */
  function ChunksOf(chunks: seq<ChunkRow>, fileId: nat): seq<ChunkRow>
    decreases |chunks|
  {
    if |chunks| == 0 then []
    else if chunks[0].fileId == fileId then [chunks[0]] + ChunksOf(chunks[1..], fileId)
    else ChunksOf(chunks[1..], fileId)
  }

  function ChunkIndex(c: ChunkRow): int { c.index }

  /** The chunk query of `download_file`: the file's rows ordered by index. */
  function FileChunks(chunks: seq<ChunkRow>, fileId: nat): seq<ChunkRow> {
    SortBy(ChunksOf(chunks, fileId), ChunkIndex)
  }

  /** The query returns every chunk row of the file and nothing else, ascending by index. */
  lemma FileChunksSpec(chunks: seq<ChunkRow>, fileId: nat)
    ensures forall c :: c in FileChunks(chunks, fileId) <==> c in chunks && c.fileId == fileId
    ensures AscendingBy(FileChunks(chunks, fileId), ChunkIndex)
  {
    ChunksOfMembers(chunks, fileId);
    var r := FileChunks(chunks, fileId);
    SortByAscending(ChunksOf(chunks, fileId), ChunkIndex);
    assert forall c :: c in r <==> c in multiset(ChunksOf(chunks, fileId));
  }

  lemma {:induction false} ChunksOfMembers(chunks: seq<ChunkRow>, fileId: nat)
    ensures forall c :: c in ChunksOf(chunks, fileId) <==> c in chunks && c.fileId == fileId
    decreases |chunks|
  {
    if |chunks| > 0 {
      ChunksOfMembers(chunks[1..], fileId);
      assert chunks == [chunks[0]] + chunks[1..];
    }
  }

  /** The query returns each chunk row of the file as often as the table holds it, and
      no row of another file. */
  lemma FileChunksCounts(chunks: seq<ChunkRow>, fileId: nat)
    ensures forall c :: multiset(FileChunks(chunks, fileId))[c] ==
                          if c.fileId == fileId then multiset(chunks)[c] else 0
  {
    ChunksOfCounts(chunks, fileId);
  }

  lemma {:induction false} ChunksOfCounts(chunks: seq<ChunkRow>, fileId: nat)
    ensures forall c :: multiset(ChunksOf(chunks, fileId))[c] ==
                          if c.fileId == fileId then multiset(chunks)[c] else 0
    decreases |chunks|
  {
    if |chunks| > 0 {
      ChunksOfCounts(chunks[1..], fileId);
      assert chunks == [chunks[0]] + chunks[1..];
    }
  }

  /** The join of `ChunkLocation` with `Node` on `node_id`: the node a location names. */
  function NodeById(nodes: seq<Node>, id: nat): Option<Node>
    decreases |nodes|
  {
    if |nodes| == 0 then None
    else if nodes[0].id == id then Some(nodes[0])
    else NodeById(nodes[1..], id)
  }

  /** The join finds a node exactly when the table holds one with that id, and then it
      is that node (ids being the primary key). */
  lemma {:induction false} NodeByIdSpec(nodes: seq<Node>, id: nat)
    requires NodeIdsAscending(nodes)
    ensures NodeById(nodes, id).Some? <==> exists n :: n in nodes && n.id == id
    ensures forall n :: n in nodes && n.id == id ==> NodeById(nodes, id) == Some(n)
    decreases |nodes|
  {
    if |nodes| > 0 {
      assert NodeIdsAscending(nodes[1..]);
      NodeByIdSpec(nodes[1..], id);
      if nodes[0].id == id {
        assert forall k :: 0 < k < |nodes| ==> NodeId(nodes[0]) < NodeId(nodes[k]);
        forall n | n in nodes && n.id == id ensures n == nodes[0] {
          var k :| 0 <= k < |nodes| && nodes[k] == n;
        }
      } else {
        assert forall n :: n in nodes && n.id == id ==> n in nodes[1..];
      }
    }
  }

  /** The replica query of `iter_file_bytes`: the nodes of this chunk's location rows
      whose node is online, in location table order. */
  function OnlineReplicas(locations: seq<LocationRow>, nodes: seq<Node>, chunkId: string): seq<Node>
    decreases |locations|
  {
    if |locations| == 0 then []
    else
      var rest := OnlineReplicas(locations[1..], nodes, chunkId);
      var n := NodeById(nodes, locations[0].nodeId);
      if locations[0].chunkId == chunkId && n.Some? && n.value.isOnline then [n.value] + rest else rest
  }

  /** A node is a replica candidate exactly when it is an online node of the table with
      a location row for the chunk. */
  lemma {:induction false} OnlineReplicasSpec(locations: seq<LocationRow>, nodes: seq<Node>, chunkId: string)
    requires NodeIdsAscending(nodes)
    ensures forall n :: n in OnlineReplicas(locations, nodes, chunkId) <==>
                          n in nodes && n.isOnline && LocationRow(chunkId, n.id) in locations
    decreases |locations|
  {
    if |locations| > 0 {
      OnlineReplicasSpec(locations[1..], nodes, chunkId);
      NodeByIdSpec(nodes, locations[0].nodeId);
      assert locations == [locations[0]] + locations[1..];
    }
  }

  /** Each node of the table is a candidate as often as the chunk has a location row
      naming it when it is online, and never when it is offline. */
  lemma {:induction false} OnlineReplicasCounts(locations: seq<LocationRow>, nodes: seq<Node>, chunkId: string)
    requires NodeIdsAscending(nodes)
    ensures forall n :: n in nodes ==>
              multiset(OnlineReplicas(locations, nodes, chunkId))[n] ==
                if n.isOnline then multiset(locations)[LocationRow(chunkId, n.id)] else 0
    decreases |locations|
  {
    if |locations| > 0 {
      OnlineReplicasCounts(locations[1..], nodes, chunkId);
      var l := locations[0];
      NodeByIdSpec(nodes, l.nodeId);
      assert locations == [l] + locations[1..];
      forall n | n in nodes
        ensures multiset(OnlineReplicas(locations, nodes, chunkId))[n] ==
                  if n.isOnline then multiset(locations)[LocationRow(chunkId, n.id)] else 0
      {
        var m := NodeById(nodes, l.nodeId);
        if m.Some? {
          var w :| w in nodes && w.id == l.nodeId;
          assert m.value.id == l.nodeId;
        }
      }
    }
  }

  /** The query over two runs of location rows is the query over each, in order. */
  lemma {:induction false} OnlineReplicasAppend(a: seq<LocationRow>, b: seq<LocationRow>, nodes: seq<Node>,
                                                chunkId: string)
    ensures OnlineReplicas(a + b, nodes, chunkId) == OnlineReplicas(a, nodes, chunkId) + OnlineReplicas(b, nodes, chunkId)
    decreases |a|
  {
    if |a| == 0 {
      assert a + b == b;
    } else {
      assert (a + b)[1..] == a[1..] + b;
      OnlineReplicasAppend(a[1..], b, nodes, chunkId);
    }
  }

  // ---------------------------------------------------------------------------
  // Download: reading a chunk from its replicas

  /** What a streamed GET to a storage node came back with: a request error before any
      response, or a status with the pieces it delivered and whether the stream ended
      normally (`completed == false`: a request error after those pieces). */
  datatype GetReply =
    | GetTransportError
    | GetAnswered(status: int, pieces: seq<Bytes>, completed: bool)

  /** The pieces yielded for a chunk, the URLs requested, and whether some replica served
      the chunk to the end. */
  datatype ChunkRead = ChunkRead(pieces: seq<Bytes>, requests: seq<string>, ok: bool)

  /** One replica attempt: a request error or a status other than 200 yields nothing; a
      200 yields its non-empty pieces and succeeds if the stream completed. */
  function ReadReplica(n: Node, chunkId: string, fetch: string -> GetReply): (r: ChunkRead)
    ensures r.requests == [ChunkUrl(n.baseUrl, chunkId)]
  {
    var url := ChunkUrl(n.baseUrl, chunkId);
    match fetch(url)
    case GetTransportError => ChunkRead([], [url], false)
    case GetAnswered(status, pieces, completed) =>
      if status != 200 then ChunkRead([], [url], false) else ChunkRead(DropEmpty(pieces), [url], completed)
  }

  /** The attempt on a candidate, as a function of the node. */
  function Reader(chunkId: string, fetch: string -> GetReply): Node -> ChunkRead {
    (n: Node) => ReadReplica(n, chunkId, fetch)
  }

  /** The attempt on each candidate, in store order. */
  function Attempts(cands: seq<Node>, read: Node -> ChunkRead): (r: seq<ChunkRead>)
    ensures |r| == |cands|
    ensures forall j :: 0 <= j < |cands| ==> r[j] == read(cands[j])
  {
    seq(|cands|, j requires 0 <= j < |cands| => read(cands[j]))
  }

  function PrependRead(pieces: seq<Bytes>, requests: seq<string>, r: ChunkRead): ChunkRead {
    ChunkRead(pieces + r.pieces, requests + r.requests, r.ok)
  }

  /** The replica loop over the attempts: in order until one serves the chunk; what
      failed attempts yielded stays in the output. */
  function Failover(tries: seq<ChunkRead>): ChunkRead
    decreases |tries|
  {
    if |tries| == 0 then ChunkRead([], [], false)
    else if tries[0].ok then tries[0]
    else PrependRead(tries[0].pieces, tries[0].requests, Failover(tries[1..]))
  }

  /** `Failover` from attempt `j` on, one attempt unfolded. */
  lemma FailoverFrom(tries: seq<ChunkRead>, j: nat)
    requires j < |tries|
    ensures Failover(tries[j..]) ==
              if tries[j].ok then tries[j] else PrependRead(tries[j].pieces, tries[j].requests, Failover(tries[j + 1..]))
  {
    assert tries[j..][0] == tries[j];
    assert tries[j..][1..] == tries[j + 1..];
  }

  /** How many attempts are made: up to and including the first that serves the chunk,
      or all of them. */
  function Tried(tries: seq<ChunkRead>): (m: nat)
    decreases |tries|
  {
    if |tries| == 0 then 0 else if tries[0].ok then 1 else 1 + Tried(tries[1..])
  }

  /** The pieces, and the requests, of the first `m` attempts, in order. */
  function AttemptPieces(tries: seq<ChunkRead>, m: nat): seq<Bytes>
    requires m <= |tries|
  {
    if m == 0 then [] else AttemptPieces(tries, m - 1) + tries[m - 1].pieces
  }

  function AttemptRequests(tries: seq<ChunkRead>, m: nat): seq<string>
    requires m <= |tries|
  {
    if m == 0 then [] else AttemptRequests(tries, m - 1) + tries[m - 1].requests
  }

  /** Failover stops at the first attempt that serves the chunk: it succeeds exactly when
      some attempt does; the attempts made are those up to the first success (all of
      them when none succeeds), and the output is what each of them yielded and
      requested, in order, partial streams included. */
  lemma {:induction false} FailoverOutcome(tries: seq<ChunkRead>)
    ensures var r := Failover(tries);
            var m := Tried(tries);
            && m <= |tries|
            && (r.ok <==> exists j :: 0 <= j < |tries| && tries[j].ok)
            && (forall j :: 0 <= j < m - 1 ==> !tries[j].ok)
            && (r.ok ==> 0 < m && tries[m - 1].ok)
            && (!r.ok ==> m == |tries|)
            && r.pieces == AttemptPieces(tries, m)
            && r.requests == AttemptRequests(tries, m)
    decreases |tries|
  {
    if |tries| > 0 {
      var rest := tries[1..];
      FailoverOutcome(rest);
      AttemptsShift(tries, Tried(tries) - 1);
      assert forall j :: 1 <= j < |tries| ==> tries[j] == rest[j - 1];
    }
  }

  /** The first `m + 1` attempts are the first attempt, then the next `m`. */
  lemma {:induction false} AttemptsShift(tries: seq<ChunkRead>, m: nat)
    requires m < |tries|
    ensures AttemptPieces(tries, m + 1) == tries[0].pieces + AttemptPieces(tries[1..], m)
    ensures AttemptRequests(tries, m + 1) == tries[0].requests + AttemptRequests(tries[1..], m)
    decreases m
  {
    if m > 0 {
      AttemptsShift(tries, m - 1);
      var rest := tries[1..];
      assert rest[m - 1] == tries[m];
      assert AttemptPieces(rest, m) == AttemptPieces(rest, m - 1) + tries[m].pieces;
      assert AttemptRequests(rest, m) == AttemptRequests(rest, m - 1) + tries[m].requests;
      AppendAssoc(tries[0].pieces, AttemptPieces(rest, m - 1), tries[m].pieces);
      AppendAssoc(tries[0].requests, AttemptRequests(rest, m - 1), tries[m].requests);
    }
  }

  /** Attempts that each make one request make, over the first `m`, the first `m` of
      those requests. */
  lemma {:induction false} SingleRequests(tries: seq<ChunkRead>, urls: seq<string>, m: nat)
    requires m <= |tries| == |urls|
    requires forall j :: 0 <= j < |tries| ==> tries[j].requests == [urls[j]]
    ensures AttemptRequests(tries, m) == urls[..m]
    decreases m
  {
    if m > 0 {
      SingleRequests(tries, urls, m - 1);
      assert urls[..m] == urls[..m - 1] + [urls[m - 1]];
    }
  }

  /** Each attempt requests the chunk's URL on its candidate, once, so the requests of the
      first `m` attempts are the candidates' URLs in store order. */
  lemma AttemptUrls(cands: seq<Node>, chunkId: string, fetch: string -> GetReply, m: nat)
    requires m <= |cands|
    ensures var reqs := AttemptRequests(Attempts(cands, Reader(chunkId, fetch)), m);
            && |reqs| == m
            && forall j :: 0 <= j < m ==> reqs[j] == ChunkUrl(cands[j].baseUrl, chunkId)
  {
    var tries := Attempts(cands, Reader(chunkId, fetch));
    var urls := seq(|cands|, j requires 0 <= j < |cands| => ChunkUrl(cands[j].baseUrl, chunkId));
    forall j | 0 <= j < |tries| ensures tries[j].requests == [urls[j]] {
      assert tries[j] == ReadReplica(cands[j], chunkId, fetch);
    }
    SingleRequests(tries, urls, m);
  }

  /** Bytes already yielded are not taken back: a first replica that breaks off after
      part of the chunk, followed by a second that serves all of it, emits the part
      twice. */
  lemma PartialStreamRepeats(a: Node, b: Node, chunkId: string, part: Bytes, whole: Bytes,
                             fetch: string -> GetReply)
    requires |part| > 0 && |whole| > 0
    requires fetch(ChunkUrl(a.baseUrl, chunkId)) == GetAnswered(200, [part], false)
    requires fetch(ChunkUrl(b.baseUrl, chunkId)) == GetAnswered(200, [whole], true)
    ensures Failover(Attempts([a, b], Reader(chunkId, fetch))).ok
    ensures Flatten(Failover(Attempts([a, b], Reader(chunkId, fetch))).pieces) == part + whole
  {
    var tries := Attempts([a, b], Reader(chunkId, fetch));
    assert DropEmpty([part]) == [part] by {
      assert [part][1..] == [];
    }
    assert DropEmpty([whole]) == [whole] by {
      assert [whole][1..] == [];
    }
    assert tries[0] == ChunkRead([part], [ChunkUrl(a.baseUrl, chunkId)], false);
    assert tries[1] == ChunkRead([whole], [ChunkUrl(b.baseUrl, chunkId)], true);
    assert tries[1..][0] == tries[1];
    assert Failover(tries).pieces == [part, whole];
    assert [part, whole][1..] == [whole];
    FlattenSingle(whole);
  }

  // ---------------------------------------------------------------------------
  // Download: the stream

  /** One pass of the outer loop for chunk `c`: what its replicas yielded and the error
      that ends the stream there, if any. */
  datatype ChunkPass = ChunkPass(read: ChunkRead, error: Option<HttpError>)

  function ReadChunk(c: ChunkRow, locations: seq<LocationRow>, nodes: seq<Node>,
                     fetch: string -> GetReply): ChunkPass
  {
    var cands := OnlineReplicas(locations, nodes, c.id);
    if |cands| == 0 then ChunkPass(ChunkRead([], [], false), Some(NoOnlineReplicas(c.index)))
    else
      var rd := Failover(Attempts(cands, Reader(c.id, fetch)));
      ChunkPass(rd, if rd.ok then None else Some(AllReplicasFailed(c.index)))
  }

  /** A chunk ends the stream, with the generator raising the 503 naming its index, when
      it has no online replica; raising the 502 naming its index when none of them serves
      it; and not otherwise. */
  lemma ReadChunkErrors(c: ChunkRow, locations: seq<LocationRow>, nodes: seq<Node>, fetch: string -> GetReply)
    ensures var p := ReadChunk(c, locations, nodes, fetch);
            var cands := OnlineReplicas(locations, nodes, c.id);
            && (p.error == Some(NoOnlineReplicas(c.index)) <==> |cands| == 0)
            && (p.error == Some(AllReplicasFailed(c.index)) <==>
                  |cands| > 0 && forall j :: 0 <= j < |cands| ==> !ReadReplica(cands[j], c.id, fetch).ok)
            && (p.error.None? <==> exists j :: 0 <= j < |cands| && ReadReplica(cands[j], c.id, fetch).ok)
            && (p.error.Some? ==> p.error == Some(NoOnlineReplicas(c.index)) || p.error == Some(AllReplicasFailed(c.index)))
  {
    var cands := OnlineReplicas(locations, nodes, c.id);
    var tries := Attempts(cands, Reader(c.id, fetch));
    FailoverOutcome(tries);
  }

  /** The pass for every chunk, in order. */
  function Passes(chunks: seq<ChunkRow>, locations: seq<LocationRow>, nodes: seq<Node>,
                  fetch: string -> GetReply): (r: seq<ChunkPass>)
    ensures |r| == |chunks|
    ensures forall i :: 0 <= i < |chunks| ==> r[i] == ReadChunk(chunks[i], locations, nodes, fetch)
  {
    seq(|chunks|, i requires 0 <= i < |chunks| => ReadChunk(chunks[i], locations, nodes, fetch))
  }

  /** The emitted pieces, the URLs requested, and the error that aborted the stream. */
  datatype StreamOut = StreamOut(pieces: seq<Bytes>, requests: seq<string>, terminal: Option<HttpError>)

  function Prepend(pieces: seq<Bytes>, requests: seq<string>, s: StreamOut): StreamOut {
    StreamOut(pieces + s.pieces, requests + s.requests, s.terminal)
  }

  /** The generator over the passes: in order, stopping at the first that raises. */
  function Stream(passes: seq<ChunkPass>): StreamOut
    decreases |passes|
  {
    if |passes| == 0 then StreamOut([], [], None)
    else if passes[0].error.Some? then StreamOut(passes[0].read.pieces, passes[0].read.requests, passes[0].error)
    else Prepend(passes[0].read.pieces, passes[0].read.requests, Stream(passes[1..]))
  }

  /** The generator `iter_file_bytes` over the file's chunks. */
  function StreamChunks(chunks: seq<ChunkRow>, locations: seq<LocationRow>, nodes: seq<Node>,
                        fetch: string -> GetReply): StreamOut
  {
    Stream(Passes(chunks, locations, nodes, fetch))
  }

  /** `Stream` from pass `i` on, one pass unfolded. */
  lemma StreamFrom(passes: seq<ChunkPass>, i: nat)
    requires i < |passes|
    ensures Stream(passes[i..]) ==
              if passes[i].error.Some? then StreamOut(passes[i].read.pieces, passes[i].read.requests, passes[i].error)
              else Prepend(passes[i].read.pieces, passes[i].read.requests, Stream(passes[i + 1..]))
  {
    assert passes[i..][0] == passes[i];
    assert passes[i..][1..] == passes[i + 1..];
  }

  /** How many chunks are read: up to and including the first that raises, or all. */
  function Reached(passes: seq<ChunkPass>): (k: nat)
    decreases |passes|
  {
    if |passes| == 0 then 0 else if passes[0].error.Some? then 1 else 1 + Reached(passes[1..])
  }

  /** The pieces, and the requests, of the first `k` passes, in order. */
  function PassPieces(passes: seq<ChunkPass>, k: nat): seq<Bytes>
    requires k <= |passes|
  {
    if k == 0 then [] else PassPieces(passes, k - 1) + passes[k - 1].read.pieces
  }

  function PassRequests(passes: seq<ChunkPass>, k: nat): seq<string>
    requires k <= |passes|
  {
    if k == 0 then [] else PassRequests(passes, k - 1) + passes[k - 1].read.requests
  }

  /** The stream ends cleanly exactly when no chunk raises; otherwise its error is that of
      the first chunk that raises. Either way it holds what the passes up to that point
      yielded and requested, in chunk order, and nothing of any later chunk. */
  lemma {:induction false} StreamOutcome(passes: seq<ChunkPass>)
    ensures var s := Stream(passes);
            var k := Reached(passes);
            && k <= |passes|
            && (s.terminal.None? <==> forall i :: 0 <= i < |passes| ==> passes[i].error.None?)
            && (forall i :: 0 <= i < k - 1 ==> passes[i].error.None?)
            && (s.terminal.Some? ==> 0 < k && s.terminal == passes[k - 1].error)
            && (s.terminal.None? ==> k == |passes|)
            && s.pieces == PassPieces(passes, k)
            && s.requests == PassRequests(passes, k)
    decreases |passes|
  {
    if |passes| > 0 {
      var rest := passes[1..];
      StreamOutcome(rest);
      PassesShift(passes, Reached(passes) - 1);
      assert forall i :: 1 <= i < |passes| ==> passes[i] == rest[i - 1];
    }
  }

  /** The first `k + 1` passes are the first pass, then the next `k`. */
  lemma {:induction false} PassesShift(passes: seq<ChunkPass>, k: nat)
    requires k < |passes|
    ensures PassPieces(passes, k + 1) == passes[0].read.pieces + PassPieces(passes[1..], k)
    ensures PassRequests(passes, k + 1) == passes[0].read.requests + PassRequests(passes[1..], k)
    decreases k
  {
    if k > 0 {
      PassesShift(passes, k - 1);
      var rest := passes[1..];
      assert rest[k - 1] == passes[k];
      assert PassPieces(rest, k) == PassPieces(rest, k - 1) + passes[k].read.pieces;
      assert PassRequests(rest, k) == PassRequests(rest, k - 1) + passes[k].read.requests;
      AppendAssoc(passes[0].read.pieces, PassPieces(rest, k - 1), passes[k].read.pieces);
      AppendAssoc(passes[0].read.requests, PassRequests(rest, k - 1), passes[k].read.requests);
    }
  }

  // ---------------------------------------------------------------------------
  // Download: the route

  /** The `Content-Disposition` header value. */
  function Disposition(name: string): string {
    "attachment; filename=\"" + name + "\""
  }

  /** What `download_file` answers: an error before streaming starts, or a streaming
      response with its media type, disposition header and the stream's course. */
  datatype DownloadResult =
    | Refused(error: HttpError)
    | Streamed(mediaType: string, disposition: string, stream: StreamOut)

  function Download(files: seq<FileRow>, chunks: seq<ChunkRow>, locations: seq<LocationRow>, nodes: seq<Node>,
                    fileId: nat, userId: nat, fetch: string -> GetReply): DownloadResult
  {
    match FindOwned(files, fileId, userId)
    case None => Refused(FileNotFound)
    case Some(f) =>
      var cs := FileChunks(chunks, f.id);
      if |cs| == 0 then Refused(NoChunks)
      else Streamed(OrDefault(Some(f.contentType), DefaultContentType), Disposition(f.name),
                    StreamChunks(cs, locations, nodes, fetch))
  }

  /** 404 exactly when the caller owns no file with that id, then 500 exactly when the
      file has no chunk rows; otherwise the response streams the file's chunks in index
      order, and a stored empty content type is served as `application/octet-stream`. */
  lemma DownloadRefusals(files: seq<FileRow>, chunks: seq<ChunkRow>, locations: seq<LocationRow>, nodes: seq<Node>,
                         fileId: nat, userId: nat, fetch: string -> GetReply)
    ensures var r := Download(files, chunks, locations, nodes, fileId, userId, fetch);
            && (r == Refused(FileNotFound) <==>
                  !exists i :: 0 <= i < |files| && files[i].id == fileId && files[i].ownerId == userId)
            && (r == Refused(NoChunks) <==>
                  (exists i :: 0 <= i < |files| && files[i].id == fileId && files[i].ownerId == userId) &&
                  forall c :: c in chunks ==> c.fileId != fileId)
            && (r.Streamed? ==>
                  var f := FindOwned(files, fileId, userId).value;
                  && f in files && f.id == fileId && f.ownerId == userId
                  && r.mediaType == (if f.contentType == [] then DefaultContentType else f.contentType)
                  && r.stream == StreamChunks(FileChunks(chunks, fileId), locations, nodes, fetch))
  {
    FindOwnedSpec(files, fileId, userId);
    FileChunksSpec(chunks, fileId);
    var found := FindOwned(files, fileId, userId);
    if found.Some? {
      var cs := FileChunks(chunks, fileId);
      if |cs| > 0 {
        assert cs[0] in cs;
      }
    }
  }

  /** One replica attempt of `iter_file_bytes`: the streamed GET, yielding each
      non-empty piece of a 200 response; the attempt succeeds when that stream completes. */
  method StreamReplica(node: Node, chunkId: string, fetch: string -> GetReply)
    returns (yielded: seq<Bytes>, url: string, served: bool)
    ensures ChunkRead(yielded, [url], served) == ReadReplica(node, chunkId, fetch)
  {
    url := ChunkUrl(node.baseUrl, chunkId);
    yielded, served := [], false;
    match fetch(url) {
      case GetTransportError =>
      case GetAnswered(status, pieces, completed) =>
        if status == 200 {
          var k := 0;
          while k < |pieces|
            invariant 0 <= k <= |pieces|
            invariant yielded == DropEmpty(pieces[..k])
          {
            DropEmptyAppend(pieces[..k], [pieces[k]]);
            assert pieces[..k + 1] == pieces[..k] + [pieces[k]];
            assert [pieces[k]][1..] == [];
            if |pieces[k]| > 0 {
              yielded := yielded + [pieces[k]];
            }
            k := k + 1;
          }
          assert pieces[..k] == pieces;
          served := completed;
        }
    }
  }

  /** The replica loop for one chunk: the candidates in order until one serves it,
      with the `success` flag. */
  method StreamCandidates(cands: seq<Node>, chunkId: string, fetch: string -> GetReply)
    returns (yielded: seq<Bytes>, requests: seq<string>, success: bool)
    ensures ChunkRead(yielded, requests, success) == Failover(Attempts(cands, Reader(chunkId, fetch)))
  {
    ghost var rd := Reader(chunkId, fetch);
    ghost var tries := Attempts(cands, rd);
    ghost var read := Failover(tries);
    yielded, requests, success := [], [], false;
    var j := 0;
    assert tries[0..] == tries;
    while j < |cands|
      invariant 0 <= j <= |cands| && !success
      invariant read == PrependRead(yielded, requests, Failover(tries[j..]))
    {
      FailoverFrom(tries, j);
      var piecesHere, url, served := StreamReplica(cands[j], chunkId, fetch);
      assert tries[j] == rd(cands[j]);
      ghost var later := Failover(tries[j + 1..]);
      AppendAssoc(yielded, piecesHere, later.pieces);
      AppendAssoc(requests, [url], later.requests);
      yielded, requests := yielded + piecesHere, requests + [url];
      if served {
        success := true;
        break;
      }
      j := j + 1;
    }
    if !success {
      assert tries[j..] == [];
    }
  }

  /** One chunk of `iter_file_bytes`: the replica query, then the replica loop; the
      error that ends the stream there, if any. */
  method StreamChunk(chunk: ChunkRow, locations: seq<LocationRow>, nodes: seq<Node>, fetch: string -> GetReply)
    returns (pieces: seq<Bytes>, asked: seq<string>, terminal: Option<HttpError>)
    ensures ReadChunk(chunk, locations, nodes, fetch) == ChunkPass(ChunkRead(pieces, asked, terminal.None?), terminal)
  {
    var cands := OnlineReplicas(locations, nodes, chunk.id);
    if |cands| == 0 {
      return [], [], Some(NoOnlineReplicas(chunk.index));
    }
    var success;
    pieces, asked, success := StreamCandidates(cands, chunk.id, fetch);
    terminal := if success then None else Some(AllReplicasFailed(chunk.index));
  }

  /** The generator `iter_file_bytes`: for each chunk in order, the replica query and
      the replica loop, ending the stream at the first chunk that cannot be served. */
  method StreamFile(chunks: seq<ChunkRow>, locations: seq<LocationRow>, nodes: seq<Node>,
                    fetch: string -> GetReply) returns (s: StreamOut)
    ensures s == StreamChunks(chunks, locations, nodes, fetch)
  {
    ghost var passes := Passes(chunks, locations, nodes, fetch);
    ghost var whole := Stream(passes);
    var out: seq<Bytes> := [];
    var requests: seq<string> := [];
    var i := 0;
    assert passes[0..] == passes;
    while i < |chunks|
      invariant 0 <= i <= |chunks|
      invariant whole == Prepend(out, requests, Stream(passes[i..]))
    {
      var piecesHere, asked, terminal := StreamChunk(chunks[i], locations, nodes, fetch);
      StreamFrom(passes, i);
      ghost var later := Stream(passes[i + 1..]);
      AppendAssoc(out, piecesHere, later.pieces);
      AppendAssoc(requests, asked, later.requests);
      out, requests := out + piecesHere, requests + asked;
      if terminal.Some? {
        return StreamOut(out, requests, terminal);
      }
      ghost var i0 := i;
      i := i + 1;
      StreamAdvance(passes, i0, i, whole, out, requests);
    }
    assert passes[i..] == [];
    return StreamOut(out, requests, None);
  }

  /** The loop invariant of `StreamFile` carried to the next chunk. */
  lemma StreamAdvance(passes: seq<ChunkPass>, i: nat, i': nat, whole: StreamOut, out: seq<Bytes>, requests: seq<string>)
    requires i < |passes| && i' == i + 1
    requires whole == Prepend(out, requests, Stream(passes[i + 1..]))
    ensures whole == Prepend(out, requests, Stream(passes[i'..]))
  {
  }

  /** `download_file`: the owned-file query (404), the chunk query in index order (500
      when empty), then the streaming response. */
  method DownloadFile(db: Db, fileId: nat, userId: nat, fetch: string -> GetReply) returns (r: DownloadResult)
    ensures r == Download(db.files, db.chunks, db.locations, db.nodes, fileId, userId, fetch)
  {
    var found := FindOwned(db.files, fileId, userId);
    if found.None? {
      return Refused(FileNotFound);
    }
    var file := found.value;
    var chunks := FileChunks(db.chunks, file.id);
    if |chunks| == 0 {
      return Refused(NoChunks);
    }
    var stream := StreamFile(chunks, db.locations, db.nodes, fetch);
    return Streamed(OrDefault(Some(file.contentType), DefaultContentType), Disposition(file.name), stream);
  }

  // ---------------------------------------------------------------------------
  // The download as written

  /** What `download_file` answers as written. After the ownership check, the chunk
      query (control_plane/api/routes/file.py:127-132) filters on `Chunk.file_id`, a
      column the chunk model does not define (control_plane/models/chunk.py:21 has it
      commented out), so evaluating it raises `AttributeError` and the route answers 500
      before any chunk is read. */
  function DownloadAsWritten(files: seq<FileRow>, fileId: nat, userId: nat): DownloadResult {
    match FindOwned(files, fileId, userId)
    case None => Refused(FileNotFound)
    case Some(_) => Refused(ServerError)
  }

  /** The download as written keeps the 404 for a file the caller does not own and
      answers 500 for every file the caller does own; for an owned file with chunk rows
      the intended download (`Download`) streams it. */
  lemma DownloadAsWrittenFails(files: seq<FileRow>, chunks: seq<ChunkRow>, locations: seq<LocationRow>,
                               nodes: seq<Node>, fileId: nat, userId: nat, fetch: string -> GetReply)
    ensures var owned := exists i :: 0 <= i < |files| && files[i].id == fileId && files[i].ownerId == userId;
            && (DownloadAsWritten(files, fileId, userId) == Refused(FileNotFound) <==> !owned)
            && (DownloadAsWritten(files, fileId, userId) == Refused(ServerError) <==> owned)
            && (owned && (exists c :: c in chunks && c.fileId == fileId) ==>
                  Download(files, chunks, locations, nodes, fileId, userId, fetch).Streamed?)
  {
    FindOwnedSpec(files, fileId, userId);
    DownloadRefusals(files, chunks, locations, nodes, fileId, userId, fetch);
  }
}
