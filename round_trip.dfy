/** Upload followed by download: when every storage node answers a GET for a chunk it
    accepted with exactly the bytes it was sent, downloading a freshly uploaded file
    streams the upload back, one chunk after another, and nothing else. */
module RoundTrip {
  import opened Wrappers
  import opened Seqs
  import opened Http
  import opened Schema
  import opened StorageClient
  import opened FileUpload
  import opened FileDownload

  // ---------------------------------------------------------------------------
  // What a successful upload leaves behind

  /** A successful upload keeps every location row and every PUT of every pass, and
      every location row it writes comes from some pass. */
  lemma {:induction false} CombineMembers(steps: seq<StepTrace>)
    requires Combine(steps).failure.None?
    ensures forall j, l :: 0 <= j < |steps| && l in steps[j].LocationsAdded() ==> l in Combine(steps).locations
    ensures forall j, a :: 0 <= j < |steps| && a in steps[j].Sent() ==> a in Combine(steps).attempts
    ensures forall l :: l in Combine(steps).locations ==>
              exists j :: 0 <= j < |steps| && l in steps[j].LocationsAdded()
    decreases |steps|
  {
    if |steps| > 0 {
      var s, rest := steps[0], steps[1..];
      CombineMembers(rest);
      var u, v := Combine(steps), Combine(rest);
      assert s.Replicated? && u.locations == s.locations + v.locations && u.attempts == s.attempts + v.attempts;
      forall j, l | 0 <= j < |steps| && l in steps[j].LocationsAdded() ensures l in u.locations {
        if j > 0 {
          assert steps[j] == rest[j - 1];
        }
      }
      forall j, a | 0 <= j < |steps| && a in steps[j].Sent() ensures a in u.attempts {
        if j > 0 {
          assert steps[j] == rest[j - 1];
        }
      }
      forall l | l in u.locations ensures exists j :: 0 <= j < |steps| && l in steps[j].LocationsAdded() {
        if l in s.locations {
          assert l in steps[0].LocationsAdded();
        } else {
          var j :| 0 <= j < |rest| && l in rest[j].LocationsAdded();
          assert steps[j + 1] == rest[j];
        }
      }
    }
  }

  /** Every location row a successful pass records names an online node of the table
      that accepted a PUT of the chunk's bytes; with a replication factor of at least 1
      there is at least one such row. */
  lemma ChunkStepPlaced(chunkId: string, fileId: nat, k: nat, piece: Bytes, nodes: seq<Node>,
                        rf: int, h: string -> nat, put: string -> PutReply)
    requires NodeIdsAscending(nodes)
    requires ChunkStep(chunkId, fileId, k, piece, nodes, rf, h, put).Outcome().None?
    ensures var s := ChunkStep(chunkId, fileId, k, piece, nodes, rf, h, put);
            && (rf >= 1 ==> exists l :: l in s.LocationsAdded())
            && forall l :: l in s.LocationsAdded() ==>
                 exists n :: n in nodes && n.isOnline && l == LocationRow(chunkId, n.id) &&
                             PutRequest(PutUrl(n, chunkId), piece) in s.Sent()
  {
    var s := ChunkStep(chunkId, fileId, k, piece, nodes, rf, h, put);
    var targets := Select(nodes, chunkId, None, rf, h).value;
    SelectDistinctOnline(nodes, chunkId, None, rf, h);
    ReplicatedLocationsSent(chunkId, piece, targets, put);
    var t := Replicate(chunkId, piece, targets, put);
    assert s.LocationsAdded() == t.locations && s.Sent() == t.attempts;
    if rf >= 1 {
      assert t.locations[0] in t.locations;
    }
  }

  /** Node ids are the node table's primary key. */
  lemma SameIdSameNode(nodes: seq<Node>, a: Node, b: Node)
    requires NodeIdsAscending(nodes) && a in nodes && b in nodes && a.id == b.id
    ensures a == b
  {
    NodeByIdSpec(nodes, a.id);
  }

  // ---------------------------------------------------------------------------
  // What the download then finds

  /** A chunk with a location on some online node, every one of whose located nodes
      serves it whole, is read as exactly that piece, from the first replica. */
  lemma ReadChunkServed(c: ChunkRow, locations: seq<LocationRow>, nodes: seq<Node>,
                        fetch: string -> GetReply, piece: Bytes)
    requires NodeIdsAscending(nodes) && |piece| > 0
    requires exists n :: n in nodes && n.isOnline && LocationRow(c.id, n.id) in locations
    requires forall n :: n in nodes && LocationRow(c.id, n.id) in locations ==>
               fetch(ChunkUrl(n.baseUrl, c.id)) == GetAnswered(200, [piece], true)
    ensures ReadChunk(c, locations, nodes, fetch).error.None?
    ensures ReadChunk(c, locations, nodes, fetch).read.pieces == [piece]
  {
    OnlineReplicasSpec(locations, nodes, c.id);
    var cands := OnlineReplicas(locations, nodes, c.id);
    var n :| n in nodes && n.isOnline && LocationRow(c.id, n.id) in locations;
    assert n in cands;
    var tries := Attempts(cands, Reader(c.id, fetch));
    assert cands[0] in cands;
    assert tries[0] == ReadReplica(cands[0], c.id, fetch);
    assert DropEmpty([piece]) == [piece] by {
      assert [piece][1..] == [];
    }
  }

  /** Passes that each yield one piece yield those pieces, in order. */
  lemma {:induction false} PassPiecesSingles(passes: seq<ChunkPass>, ws: seq<Bytes>, m: nat)
    requires |passes| == |ws| && m <= |passes|
    requires forall i :: 0 <= i < |passes| ==> passes[i].read.pieces == [ws[i]]
    ensures PassPieces(passes, m) == ws[..m]
    decreases m
  {
    if m > 0 {
      PassPiecesSingles(passes, ws, m - 1);
      assert ws[..m] == ws[..m - 1] + [ws[m - 1]];
    }
  }

  /** The rows of a new file, appended after rows of older files, are exactly what the
      file's chunk query finds, in table order. */
  lemma NewFileChunks(older: seq<ChunkRow>, added: seq<ChunkRow>, fid: nat)
    requires forall c :: c in older ==> c.fileId < fid
    requires forall j :: 0 <= j < |added| ==> added[j].fileId == fid
    ensures ChunksOf(older + added, fid) == added
  {
    ChunksOfSkipsOlder(older, added, fid);
    ChunksOfAllMatch(added, fid);
  }

  /** Rows of other files in front do not change what the chunk query finds. */
  lemma {:induction false} ChunksOfSkipsOlder(older: seq<ChunkRow>, added: seq<ChunkRow>, fid: nat)
    requires forall c :: c in older ==> c.fileId != fid
    ensures ChunksOf(older + added, fid) == ChunksOf(added, fid)
    decreases |older|
  {
    if |older| > 0 {
      assert (older + added)[0] == older[0];
      assert (older + added)[1..] == older[1..] + added;
      ChunksOfSkipsOlder(older[1..], added, fid);
    } else {
      assert older + added == added;
    }
  }

  /** When every row is the file's, the chunk query finds them all, in order. */
  lemma {:induction false} ChunksOfAllMatch(rows: seq<ChunkRow>, fid: nat)
    requires forall j :: 0 <= j < |rows| ==> rows[j].fileId == fid
    ensures ChunksOf(rows, fid) == rows
    decreases |rows|
  {
    if |rows| > 0 {
      ChunksOfAllMatch(rows[1..], fid);
      assert rows == [rows[0]] + rows[1..];
    }
  }

  /** A row appended with an id above every existing id is what the owner's lookup of
      that id finds. */
  lemma {:induction false} FindOwnedNew(files: seq<FileRow>, row: FileRow)
    requires forall f :: f in files ==> f.id < row.id
    ensures FindOwned(files + [row], row.id, row.ownerId) == Some(row)
    decreases |files|
  {
    if |files| > 0 {
      assert (files + [row])[0] == files[0];
      assert (files + [row])[1..] == files[1..] + [row];
      FindOwnedNew(files[1..], row);
    } else {
      assert files + [row] == [row];
    }
  }

  // ---------------------------------------------------------------------------
  // The round trip

  /** Every PUT the upload sent is answered, by a later GET of the same URL, with a
      complete 200 stream of exactly the bytes sent: what the storage daemon's
      `put_chunk` followed by `get_chunk` delivers. */
  ghost predicate ServesUploads(fetch: string -> GetReply, attempts: seq<PutRequest>) {
    forall a :: a in attempts ==> fetch(a.url) == GetAnswered(200, [a.body], true)
  }

  /** The id supply gives the upload's chunks pairwise distinct ids, none of which the
      location table already holds. */
  ghost predicate FreshIds(chunkIds: nat -> string, count: nat, locations: seq<LocationRow>) {
    && (forall a, b :: 0 <= a < count && 0 <= b < count && a != b ==> chunkIds(a) != chunkIds(b))
    && (forall l, j :: l in locations && 0 <= j < count ==> l.chunkId != chunkIds(j))
  }

  /** After a successful upload, every node holding a location of chunk `i` serves
      window `i`: the location was written by the pass of chunk `i` (the ids are
      fresh), after that node accepted a PUT of the window to the same URL. */
  lemma LocatedNodeServes(locations: seq<LocationRow>, nodes: seq<Node>, fid: nat, data: Bytes, cs: nat,
                          rf: int, chunkIds: nat -> string, h: string -> nat, put: string -> PutReply,
                          fetch: string -> GetReply, i: nat, m: Node)
    requires cs > 0 && NodeIdsAscending(nodes)
    requires FreshIds(chunkIds, |Windows(data, cs)|, locations)
    requires Upload(data, cs, StepFor(fid, nodes, rf, chunkIds, h, put)).failure.None?
    requires ServesUploads(fetch, Upload(data, cs, StepFor(fid, nodes, rf, chunkIds, h, put)).attempts)
    requires i < |Windows(data, cs)| && m in nodes
    requires LocationRow(chunkIds(i), m.id) in locations + Upload(data, cs, StepFor(fid, nodes, rf, chunkIds, h, put)).locations
    ensures fetch(ChunkUrl(m.baseUrl, chunkIds(i))) == GetAnswered(200, [Windows(data, cs)[i]], true)
  {
    var ws := Windows(data, cs);
    var steps := Steps(ws, StepFor(fid, nodes, rf, chunkIds, h, put));
    var u := Combine(steps);
    CombineShape(steps);
    CombineMembers(steps);
    var cid := chunkIds(i);
    var loc := LocationRow(cid, m.id);
    assert loc !in locations;
    var j :| 0 <= j < |steps| && loc in steps[j].LocationsAdded();
    assert steps[j] == ChunkStep(chunkIds(j), fid, j, ws[j], nodes, rf, h, put);
    ChunkStepPlaced(chunkIds(j), fid, j, ws[j], nodes, rf, h, put);
    var m' :| m' in nodes && m'.isOnline && loc == LocationRow(chunkIds(j), m'.id) &&
              PutRequest(PutUrl(m', chunkIds(j)), ws[j]) in steps[j].Sent();
    assert j == i;
    SameIdSameNode(nodes, m, m');
    assert PutRequest(PutUrl(m, cid), ws[i]) in u.attempts;
  }

  /** After a successful upload with a replication factor of at least 1, chunk `i` is
      read back as window `i`. */
  lemma ChunkRoundTrip(locations: seq<LocationRow>, nodes: seq<Node>, fid: nat, data: Bytes, cs: nat,
                       rf: int, chunkIds: nat -> string, h: string -> nat, put: string -> PutReply,
                       fetch: string -> GetReply, i: nat)
    requires cs > 0 && NodeIdsAscending(nodes) && rf >= 1
    requires FreshIds(chunkIds, |Windows(data, cs)|, locations)
    requires Upload(data, cs, StepFor(fid, nodes, rf, chunkIds, h, put)).failure.None?
    requires ServesUploads(fetch, Upload(data, cs, StepFor(fid, nodes, rf, chunkIds, h, put)).attempts)
    requires i < |Windows(data, cs)|
    ensures var ws := Windows(data, cs);
            var u := Upload(data, cs, StepFor(fid, nodes, rf, chunkIds, h, put));
            var p := ReadChunk(ChunkRow(chunkIds(i), fid, i, |ws[i]|), locations + u.locations, nodes, fetch);
            p.error.None? && p.read.pieces == [ws[i]]
  {
    var ws := Windows(data, cs);
    var steps := Steps(ws, StepFor(fid, nodes, rf, chunkIds, h, put));
    var u := Combine(steps);
    var all := locations + u.locations;
    CombineShape(steps);
    CombineMembers(steps);
    var cid := chunkIds(i);
    var s := steps[i];
    assert s == ChunkStep(cid, fid, i, ws[i], nodes, rf, h, put);
    ChunkStepPlaced(cid, fid, i, ws[i], nodes, rf, h, put);
    var l :| l in s.LocationsAdded();
    var n :| n in nodes && n.isOnline && l == LocationRow(cid, n.id);
    assert LocationRow(cid, n.id) in all;
    forall m | m in nodes && LocationRow(cid, m.id) in all
      ensures fetch(ChunkUrl(m.baseUrl, cid)) == GetAnswered(200, [ws[i]], true)
    {
      LocatedNodeServes(locations, nodes, fid, data, cs, rf, chunkIds, h, put, fetch, i, m);
    }
    WindowsBounded(data, cs);
    ReadChunkServed(ChunkRow(cid, fid, i, |ws[i]|), all, nodes, fetch, ws[i]);
  }

  /** Uploading a non-empty input into a consistent database and then downloading the
      new file as its owner streams the input back: one piece per chunk, the chunks'
      windows in index order, without an error, given a replication factor of at least 1,
      fresh chunk ids and storage nodes that serve what they accepted. */
  lemma UploadThenDownload(files: seq<FileRow>, chunks: seq<ChunkRow>, locations: seq<LocationRow>,
                           nodes: seq<Node>, fid: nat, ownerId: nat, filename: Option<string>,
                           contentType: Option<string>, folderId: Option<nat>, data: Bytes, cs: nat,
                           rf: int, chunkIds: nat -> string, h: string -> nat, put: string -> PutReply,
                           fetch: string -> GetReply)
    requires cs > 0 && |data| > 0 && NodeIdsAscending(nodes) && rf >= 1
    requires forall f :: f in files ==> f.id < fid
    requires forall c :: c in chunks ==> c.fileId < fid
    requires FreshIds(chunkIds, |Windows(data, cs)|, locations)
    requires Upload(data, cs, StepFor(fid, nodes, rf, chunkIds, h, put)).failure.None?
    requires ServesUploads(fetch, Upload(data, cs, StepFor(fid, nodes, rf, chunkIds, h, put)).attempts)
    ensures var u := Upload(data, cs, StepFor(fid, nodes, rf, chunkIds, h, put));
            var row := NewFileRow(fid, ownerId, filename, contentType, folderId).(sizeBytes := |data|);
            var d := Download(files + [row], chunks + u.chunks, locations + u.locations, nodes, fid, ownerId, fetch);
            && d.Streamed?
            && d.stream.terminal.None?
            && d.stream.pieces == Windows(data, cs)
            && Flatten(d.stream.pieces) == data
  {
    var ws := Windows(data, cs);
    var u := Upload(data, cs, StepFor(fid, nodes, rf, chunkIds, h, put));
    var row := NewFileRow(fid, ownerId, filename, contentType, folderId).(sizeBytes := |data|);
    FindOwnedNew(files, row);
    NewFileChunkTable(chunks, fid, data, cs, nodes, rf, chunkIds, h, put);
    var passes := Passes(u.chunks, locations + u.locations, nodes, fetch);
    NewFilePassesServed(locations, nodes, fid, data, cs, rf, chunkIds, h, put, fetch);
    ServedPassesStream(passes, ws);
    WindowsPartition(data, cs);
  }

  /** After a complete upload the file's chunk query finds exactly the new rows, and at
      least one. */
  lemma NewFileChunkTable(chunks: seq<ChunkRow>, fid: nat, data: Bytes, cs: nat, nodes: seq<Node>,
                          rf: int, chunkIds: nat -> string, h: string -> nat, put: string -> PutReply)
    requires cs > 0 && |data| > 0
    requires forall c :: c in chunks ==> c.fileId < fid
    requires Upload(data, cs, StepFor(fid, nodes, rf, chunkIds, h, put)).failure.None?
    ensures var u := Upload(data, cs, StepFor(fid, nodes, rf, chunkIds, h, put));
            FileChunks(chunks + u.chunks, fid) == u.chunks && |u.chunks| > 0
  {
    var u := Upload(data, cs, StepFor(fid, nodes, rf, chunkIds, h, put));
    UploadRows(data, cs, fid, nodes, rf, chunkIds, h, put);
    NewFileChunks(chunks, u.chunks, fid);
    assert AscendingBy(u.chunks, ChunkIndex);
    SortByIdentity(u.chunks, ChunkIndex);
  }

  /** Every chunk pass of the download of a freshly uploaded file serves its window. */
  lemma NewFilePassesServed(locations: seq<LocationRow>, nodes: seq<Node>, fid: nat, data: Bytes, cs: nat,
                            rf: int, chunkIds: nat -> string, h: string -> nat, put: string -> PutReply,
                            fetch: string -> GetReply)
    requires cs > 0 && NodeIdsAscending(nodes) && rf >= 1
    requires FreshIds(chunkIds, |Windows(data, cs)|, locations)
    requires Upload(data, cs, StepFor(fid, nodes, rf, chunkIds, h, put)).failure.None?
    requires ServesUploads(fetch, Upload(data, cs, StepFor(fid, nodes, rf, chunkIds, h, put)).attempts)
    ensures var ws := Windows(data, cs);
            var u := Upload(data, cs, StepFor(fid, nodes, rf, chunkIds, h, put));
            var passes := Passes(u.chunks, locations + u.locations, nodes, fetch);
            && |passes| == |ws|
            && forall i :: 0 <= i < |passes| ==> passes[i].error.None? && passes[i].read.pieces == [ws[i]]
  {
    var ws := Windows(data, cs);
    var u := Upload(data, cs, StepFor(fid, nodes, rf, chunkIds, h, put));
    UploadRows(data, cs, fid, nodes, rf, chunkIds, h, put);
    var passes := Passes(u.chunks, locations + u.locations, nodes, fetch);
    forall i | 0 <= i < |passes| ensures passes[i].error.None? && passes[i].read.pieces == [ws[i]] {
      ChunkRoundTrip(locations, nodes, fid, data, cs, rf, chunkIds, h, put, fetch, i);
    }
  }

  /** A stream whose every pass served one piece ends normally with those pieces. */
  lemma ServedPassesStream(passes: seq<ChunkPass>, ws: seq<Bytes>)
    requires |passes| == |ws|
    requires forall i :: 0 <= i < |passes| ==> passes[i].error.None? && passes[i].read.pieces == [ws[i]]
    ensures Stream(passes).terminal.None? && Stream(passes).pieces == ws
  {
    StreamOutcome(passes);
    PassPiecesSingles(passes, ws, |passes|);
    assert ws[..|passes|] == ws;
  }

  // ---------------------------------------------------------------------------
  // A replication factor below 1

  /** With a configured replication factor of 0 or less and some node online, placement
      picks no node: the pass succeeds without a PUT or a location row, and a later
      download's stream ends at the chunk row it wrote, with the generator raising the
      503 for that chunk. */
  lemma UnreplicatedChunkUnreadable(chunkId: string, fileId: nat, k: nat, piece: Bytes, nodes: seq<Node>,
                                    rf: int, h: string -> nat, put: string -> PutReply,
                                    locations: seq<LocationRow>, fetch: string -> GetReply)
    requires NodeIdsAscending(nodes) && rf <= 0
    requires exists n :: n in nodes && n.isOnline
    requires forall l :: l in locations ==> l.chunkId != chunkId
    ensures var s := ChunkStep(chunkId, fileId, k, piece, nodes, rf, h, put);
            && s.Replicated? && s.Outcome().None? && s.LocationsAdded() == [] && s.Sent() == []
            && ReadChunk(s.row, locations + s.LocationsAdded(), nodes, fetch).error == Some(NoOnlineReplicas(k))
  {
    UnreplicatedStep(chunkId, fileId, k, piece, nodes, rf, h, put);
    var s := ChunkStep(chunkId, fileId, k, piece, nodes, rf, h, put);
    assert locations + s.LocationsAdded() == locations;
    UnlocatedUnreadable(s.row, locations, nodes, fetch);
  }

  /** A replication factor of 0 or less, some node online: the pass writes its row and
      nothing else. */
  lemma UnreplicatedStep(chunkId: string, fileId: nat, k: nat, piece: Bytes, nodes: seq<Node>,
                         rf: int, h: string -> nat, put: string -> PutReply)
    requires NodeIdsAscending(nodes) && rf <= 0
    requires exists n :: n in nodes && n.isOnline
    ensures var s := ChunkStep(chunkId, fileId, k, piece, nodes, rf, h, put);
            && s.Replicated? && s.row == ChunkRow(chunkId, fileId, k, |piece|)
            && s.Outcome().None? && s.LocationsAdded() == [] && s.Sent() == []
  {
    var n :| n in nodes && n.isOnline;
    assert n in FilterOnline(nodes);
    SelectWalksRing(nodes, chunkId, None, rf, h);
    var targets := Select(nodes, chunkId, None, rf, h).value;
    assert targets == [];
    PushCompletes(chunkId, piece, targets, put, 0);
  }

  /** A chunk without a location row has no replica to read: the stream ends there, with
      the generator raising the 503 for that chunk. */
  lemma UnlocatedUnreadable(c: ChunkRow, locations: seq<LocationRow>, nodes: seq<Node>, fetch: string -> GetReply)
    requires NodeIdsAscending(nodes)
    requires forall l :: l in locations ==> l.chunkId != c.id
    ensures ReadChunk(c, locations, nodes, fetch).error == Some(NoOnlineReplicas(c.index))
  {
    OnlineReplicasSpec(locations, nodes, c.id);
    ReadChunkErrors(c, locations, nodes, fetch);
  }
}
