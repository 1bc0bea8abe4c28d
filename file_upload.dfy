/** The coordinator's `/files` upload route: the chunked upload that places and
    replicates every chunk. */
module FileUpload {
  import opened Wrappers
  import opened Seqs
  import opened Http
  import opened Schema
  import opened StorageClient

  /** Python's `value or default` on an optional string. */
  function OrDefault(s: Option<string>, default: string): (r: string)
    ensures r == default || (s.Some? && r == s.value)
    ensures s.Some? && s.value != [] ==> r == s.value
  {
    if s.None? || s.value == [] then default else s.value
  }

  const DefaultContentType: string := "application/octet-stream"
  const DefaultFileName: string := "unnamed"

  // ---------------------------------------------------------------------------
  // Chunking

  /** How many bytes `file.read(chunk_size)` returns when `rest` is left. */
  function ReadSize(rest: Bytes, cs: nat): (n: nat)
    ensures n <= |rest| && n <= cs
    ensures n == |rest| || n == cs
  {
    if |rest| < cs then |rest| else cs
  }

  /** The pieces successive `file.read(chunk_size)` calls return, up to the first
      empty read. */
  function Windows(data: Bytes, cs: nat): (ws: seq<Bytes>)
    requires cs > 0
    ensures |ws| == 0 <==> |data| == 0
    decreases |data|
  {
    if |data| == 0 then []
    else
      var n := ReadSize(data, cs);
      [data[..n]] + Windows(data[n..], cs)
  }

  /** No window is empty and none is longer than `chunk_size`. */
  lemma {:induction false} WindowsBounded(data: Bytes, cs: nat)
    requires cs > 0
    ensures forall j :: 0 <= j < |Windows(data, cs)| ==> 0 < |Windows(data, cs)[j]| <= cs
    decreases |data|
  {
    if |data| > 0 {
      var n := ReadSize(data, cs);
      WindowsBounded(data[n..], cs);
      assert Windows(data, cs)[1..] == Windows(data[n..], cs);
    }
  }

  /** The windows put back together are the upload, and every window but the last is
      exactly `chunk_size` long. */
  lemma {:induction false} WindowsPartition(data: Bytes, cs: nat)
    requires cs > 0
    ensures Flatten(Windows(data, cs)) == data
    ensures forall j :: 0 <= j < |Windows(data, cs)| - 1 ==> |Windows(data, cs)[j]| == cs
    decreases |data|
  {
    if |data| > 0 {
      var n := ReadSize(data, cs);
      var ws := Windows(data, cs);
      WindowsPartition(data[n..], cs);
      assert ws[1..] == Windows(data[n..], cs);
      assert data == data[..n] + data[n..];
      if n < cs {
        assert data[n..] == [];
      }
    }
  }

  /** The read loop's position: `k` windows and `total` bytes read, and the windows still
      to come are those of the unread input. */
  ghost predicate ReadAt(data: Bytes, cs: nat, k: nat, total: nat)
    requires cs > 0
  {
    k <= |Windows(data, cs)| && total <= |data| && Windows(data, cs)[k..] == Windows(data[total..], cs)
  }

  lemma ReadStart(data: Bytes, cs: nat)
    requires cs > 0
    ensures ReadAt(data, cs, 0, 0)
  {
    assert Windows(data, cs)[0..] == Windows(data, cs) && data[0..] == data;
  }

  /** One `file.read(chunk_size)`: nothing exactly when every window has been read, and
      the input is then used up; otherwise the next window. */
  method ReadNext(data: Bytes, cs: nat, ghost k: nat, total: nat) returns (chunk: Bytes)
    requires cs > 0 && ReadAt(data, cs, k, total)
    ensures total + |chunk| <= |data| && chunk == data[total..total + |chunk|]
    ensures |chunk| == ReadSize(data[total..], cs)
    ensures |chunk| == 0 <==> k == |Windows(data, cs)|
    ensures |chunk| == 0 ==> total == |data|
    ensures |chunk| > 0 ==> k < |Windows(data, cs)| && chunk == Windows(data, cs)[k]
  {
    var n := ReadSize(data[total..], cs);
    chunk := data[total..total + n];
    if k < |Windows(data, cs)| {
      ghost var ws := Windows(data, cs);
      assert ws[k..][0] == ws[k];
    }
  }

  /** After window `k` is read, the windows still to come are those of the input past it. */
  lemma ReadAdvance(data: Bytes, cs: nat, k: nat, total: nat, k': nat, total': nat)
    requires cs > 0 && ReadAt(data, cs, k, total) && k < |Windows(data, cs)|
    requires k' == k + 1 && total' == total + ReadSize(data[total..], cs)
    ensures ReadAt(data, cs, k', total')
  {
    var ws := Windows(data, cs);
    var rest := data[total..];
    var n := ReadSize(rest, cs);
    assert ws[k..][1..] == ws[k + 1..];
    assert rest[n..] == data[total + n..];
  }

  // ---------------------------------------------------------------------------
  // Upload

  /** What one pass of the upload loop does: placement fails and nothing is written, or
      the chunk row is added and replication runs, perhaps failing part way. */
  datatype StepTrace =
    | Unplaced(error: HttpError)
    | Replicated(row: ChunkRow, locations: seq<LocationRow>, attempts: seq<PutRequest>,
                 failure: Option<HttpError>)
  {
    function Outcome(): Option<HttpError> {
      if Unplaced? then Some(error) else failure
    }
    function RowsAdded(): seq<ChunkRow> {
      if Unplaced? then [] else [row]
    }
    function LocationsAdded(): seq<LocationRow> {
      if Unplaced? then [] else locations
    }
    function Sent(): seq<PutRequest> {
      if Unplaced? then [] else attempts
    }
  }

  /** Chunk `k` of the upload: placed under the id `chunkId` with the configured
      replication factor `rf` (the route passes no factor, so `settings.REPLICATION_FACTOR`
      applies), then replicated. */
  function ChunkStep(chunkId: string, fileId: nat, k: nat, piece: Bytes, nodes: seq<Node>,
                     rf: int, h: string -> nat, put: string -> PutReply): (s: StepTrace)
    ensures s.Unplaced? <==> forall n :: n in nodes ==> !n.isOnline
    ensures s.Unplaced? ==> s.error == NoOnlineNodes
    ensures s.Replicated? ==> s.row == ChunkRow(chunkId, fileId, k, |piece|)
    ensures s.Outcome().Some? ==> s.Outcome().value.Status() == 503 || s.Outcome().value.Status() == 502
  {
    var sel := Select(nodes, chunkId, None, rf, h);
    if sel.Failure? then Unplaced(sel.error)
    else
      var tr := Replicate(chunkId, piece, sel.value, put);
      Replicated(ChunkRow(chunkId, fileId, k, |piece|), tr.locations, tr.attempts, tr.failure)
  }

  /** The pass for chunk `k` holding `piece`, for one file, node table and network;
      chunk `k` gets the `k`-th id of the supply. */
  function StepFor(fileId: nat, nodes: seq<Node>, rf: int, chunkIds: nat -> string,
                   h: string -> nat, put: string -> PutReply): (nat, Bytes) -> StepTrace
  {
    (k: nat, piece: Bytes) => ChunkStep(chunkIds(k), fileId, k, piece, nodes, rf, h, put)
  }

  /** The pass for every window, in order. */
  function Steps(ws: seq<Bytes>, step: (nat, Bytes) -> StepTrace): (r: seq<StepTrace>)
    ensures |r| == |ws|
    ensures forall i :: 0 <= i < |ws| ==> r[i] == step(i, ws[i])
  {
    seq(|ws|, i requires 0 <= i < |ws| => step(i, ws[i]))
  }

  /** What the upload loop writes and sends over all its passes. */
  datatype UploadTrace = UploadTrace(chunks: seq<ChunkRow>, locations: seq<LocationRow>,
                                     attempts: seq<PutRequest>, failure: Option<HttpError>)

  /** The passes in order, stopping at the first that fails; what that pass wrote before
      failing stays. */
  function Combine(steps: seq<StepTrace>): UploadTrace
    decreases |steps|
  {
    if |steps| == 0 then UploadTrace([], [], [], None)
    else
      var s := steps[0];
      if s.Outcome().Some? then UploadTrace(s.RowsAdded(), s.LocationsAdded(), s.Sent(), s.Outcome())
      else
        var u := Combine(steps[1..]);
        UploadTrace([s.row] + u.chunks, s.locations + u.locations, s.attempts + u.attempts, u.failure)
  }

  /** The upload succeeds exactly when every pass does, and then writes one chunk row per
      pass; otherwise its error is that of the first failing pass. Row `j` is always
      the row of pass `j`. */
  lemma {:induction false} CombineShape(steps: seq<StepTrace>)
    ensures var u := Combine(steps);
            && |u.chunks| <= |steps|
            && (forall j :: 0 <= j < |u.chunks| ==> steps[j].Replicated? && u.chunks[j] == steps[j].row)
            && (u.failure.None? <==> forall i :: 0 <= i < |steps| ==> steps[i].Outcome().None?)
            && (u.failure.None? ==> |u.chunks| == |steps|)
            && (u.failure.Some? ==>
                  exists i :: 0 <= i < |steps| && u.failure == steps[i].Outcome() &&
                              forall j :: 0 <= j < i ==> steps[j].Outcome().None?)
    decreases |steps|
  {
    if |steps| > 0 && steps[0].Outcome().None? {
      CombineShape(steps[1..]);
      assert forall i :: 1 <= i < |steps| ==> steps[i] == steps[1..][i - 1];
      var u := Combine(steps[1..]);
      if u.failure.Some? {
        var i :| 0 <= i < |steps[1..]| && u.failure == steps[1..][i].Outcome() &&
                 forall j :: 0 <= j < i ==> steps[1..][j].Outcome().None?;
        assert u.failure == steps[i + 1].Outcome();
      }
    }
  }

  /** `Combine` from pass `i` on, one pass unfolded. */
  lemma CombineFrom(steps: seq<StepTrace>, i: nat)
    requires i < |steps|
    ensures var s := steps[i];
            var u := Combine(steps[i..]);
            var v := Combine(steps[i + 1..]);
            && (s.Outcome().Some? ==> u == UploadTrace(s.RowsAdded(), s.LocationsAdded(), s.Sent(), s.Outcome()))
            && (s.Outcome().None? ==>
                  s.Replicated? && u == UploadTrace([s.row] + v.chunks, s.locations + v.locations,
                                                    s.attempts + v.attempts, v.failure))
  {
    assert steps[i..][0] == steps[i];
    assert steps[i..][1..] == steps[i + 1..];
  }

  /** A complete upload writes one chunk row per window, in order: row `j` has the
      `j`-th id of the supply, index `j`, the file's id and the window's size. */
  lemma UploadRows(data: Bytes, cs: nat, fileId: nat, nodes: seq<Node>,
                   rf: int, chunkIds: nat -> string, h: string -> nat, put: string -> PutReply)
    requires cs > 0
    ensures var ws := Windows(data, cs);
            var u := Upload(data, cs, StepFor(fileId, nodes, rf, chunkIds, h, put));
            && |u.chunks| <= |ws|
            && (u.failure.None? ==> |u.chunks| == |ws|)
            && forall j :: 0 <= j < |u.chunks| ==> u.chunks[j] == ChunkRow(chunkIds(j), fileId, j, |ws[j]|)
  {
    var ws := Windows(data, cs);
    var step := StepFor(fileId, nodes, rf, chunkIds, h, put);
    var steps := Steps(ws, step);
    var u := Combine(steps);
    CombineShape(steps);
    forall j | 0 <= j < |u.chunks|
      ensures u.chunks[j] == ChunkRow(chunkIds(j), fileId, j, |ws[j]|)
    {
      assert steps[j] == ChunkStep(chunkIds(j), fileId, j, ws[j], nodes, rf, h, put);
    }
  }

  /** The read loop's bookkeeping after `i` passes: the tables as they stood before the
      upload followed by what the whole upload writes are the tables now followed by
      what the remaining passes write, and likewise for the requests sent. */
  ghost predicate Pending(steps: seq<StepTrace>, i: nat, whole: UploadTrace,
                          chunks0: seq<ChunkRow>, chunks: seq<ChunkRow>,
                          locations0: seq<LocationRow>, locations: seq<LocationRow>, attempts: seq<PutRequest>)
    requires i <= |steps|
  {
    var u := Combine(steps[i..]);
    && chunks0 + whole.chunks == chunks + u.chunks
    && locations0 + whole.locations == locations + u.locations
    && whole.attempts == attempts + u.attempts
    && whole.failure == u.failure
  }

  lemma PendingStart(steps: seq<StepTrace>, chunks0: seq<ChunkRow>, locations0: seq<LocationRow>)
    ensures Pending(steps, 0, Combine(steps), chunks0, chunks0, locations0, locations0, [])
  {
    assert steps[0..] == steps;
  }

  /** A pass that succeeds moves its output from the remaining part to the done part. */
  lemma PendingAdvance(steps: seq<StepTrace>, i: nat, whole: UploadTrace,
                       chunks0: seq<ChunkRow>, chunks: seq<ChunkRow>,
                       locations0: seq<LocationRow>, locations: seq<LocationRow>, attempts: seq<PutRequest>)
    requires i < |steps| && steps[i].Outcome().None?
    requires Pending(steps, i, whole, chunks0, chunks, locations0, locations, attempts)
    ensures Pending(steps, i + 1, whole, chunks0, chunks + steps[i].RowsAdded(),
                    locations0, locations + steps[i].LocationsAdded(), attempts + steps[i].Sent())
  {
    CombineFrom(steps, i);
    var s := steps[i];
    var v := Combine(steps[i + 1..]);
    AppendAssoc(chunks, s.RowsAdded(), v.chunks);
    AppendAssoc(locations, s.LocationsAdded(), v.locations);
    AppendAssoc(attempts, s.Sent(), v.attempts);
  }

  /** A pass that fails ends the upload with its error, after what it wrote and sent. */
  lemma PendingStop(steps: seq<StepTrace>, i: nat, whole: UploadTrace,
                    chunks0: seq<ChunkRow>, chunks: seq<ChunkRow>,
                    locations0: seq<LocationRow>, locations: seq<LocationRow>, attempts: seq<PutRequest>)
    requires i < |steps| && steps[i].Outcome().Some?
    requires Pending(steps, i, whole, chunks0, chunks, locations0, locations, attempts)
    ensures chunks0 + whole.chunks == chunks + steps[i].RowsAdded()
    ensures locations0 + whole.locations == locations + steps[i].LocationsAdded()
    ensures whole.attempts == attempts + steps[i].Sent()
    ensures whole.failure == steps[i].Outcome()
  {
    CombineFrom(steps, i);
  }

  /** After every pass succeeded, the done part is the whole upload. */
  lemma PendingEnd(steps: seq<StepTrace>, whole: UploadTrace,
                   chunks0: seq<ChunkRow>, chunks: seq<ChunkRow>,
                   locations0: seq<LocationRow>, locations: seq<LocationRow>, attempts: seq<PutRequest>)
    requires Pending(steps, |steps|, whole, chunks0, chunks, locations0, locations, attempts)
    ensures chunks == chunks0 + whole.chunks && locations == locations0 + whole.locations
    ensures whole.attempts == attempts && whole.failure.None?
  {
    assert steps[|steps|..] == [];
    assert chunks + [] == chunks && locations + [] == locations && attempts + [] == attempts;
  }

  /** One pass of the upload loop's body: a fresh chunk id, then
      `select_nodes_for_chunk_consistent`, then `replicate_chunk`. */
  method UploadChunk(db: Db, fileId: nat, index: nat, chunk: Bytes,
                     rf: int, chunkIds: nat -> string, h: string -> nat, put: string -> PutReply)
    returns (failure: Option<HttpError>, sent: seq<PutRequest>)
    requires NodeIdsAscending(db.nodes)
    modifies db
    ensures var s := StepFor(fileId, old(db.nodes), rf, chunkIds, h, put)(index, chunk);
            && failure == s.Outcome() && sent == s.Sent()
            && db.chunks == old(db.chunks) + s.RowsAdded()
            && db.locations == old(db.locations) + s.LocationsAdded()
    ensures db.Catalog() == old(db.Catalog())
  {
    var chunkId := chunkIds(index);
    var sel := SelectNodesForChunk(db, chunkId, None, rf, h);
    if sel.Failure? {
      return Some(sel.error), [];
    }
    var rep;
    rep, sent := ReplicateChunk(db, fileId, index, chunkId, chunk, sel.value, put);
    failure := if rep.Failure? then Some(rep.error) else None;
  }

  /** The file row `upload_file_chunked` creates, before its size is known. */
  function NewFileRow(id: nat, ownerId: nat, filename: Option<string>, contentType: Option<string>,
                      folderId: Option<nat>): FileRow {
    FileRow(id, OrDefault(filename, DefaultFileName), 0, OrDefault(contentType, DefaultContentType),
            ownerId, folderId)
  }

  /** What the upload writes and sends, running `step` on each window in order. */
  function Upload(data: Bytes, cs: nat, step: (nat, Bytes) -> StepTrace): UploadTrace
    requires cs > 0
  {
    Combine(Steps(Windows(data, cs), step))
  }

  /** One pass of the read loop with its bookkeeping: a pass that fails ends the upload
      with the tables and requests of the whole upload; one that succeeds moves the
      bookkeeping to the next pass. */
  method UploadPass(db: Db, fileId: nat, count: nat, chunk: Bytes,
                    rf: int, chunkIds: nat -> string, h: string -> nat, put: string -> PutReply,
                    ghost steps: seq<StepTrace>, ghost whole: UploadTrace,
                    ghost chunks0: seq<ChunkRow>, ghost locations0: seq<LocationRow>, attempts: seq<PutRequest>)
    returns (failure: Option<HttpError>, attempts': seq<PutRequest>)
    requires NodeIdsAscending(db.nodes)
    requires count < |steps| && steps[count] == StepFor(fileId, db.nodes, rf, chunkIds, h, put)(count, chunk)
    requires Pending(steps, count, whole, chunks0, db.chunks, locations0, db.locations, attempts)
    modifies db
    ensures db.Catalog() == old(db.Catalog())
    ensures failure.None? ==>
              Pending(steps, count + 1, whole, chunks0, db.chunks, locations0, db.locations, attempts')
    ensures failure.Some? ==>
              && db.chunks == chunks0 + whole.chunks && db.locations == locations0 + whole.locations
              && attempts' == whole.attempts && failure == whole.failure
  {
    ghost var chunks1, locations1 := db.chunks, db.locations;
    var sent;
    failure, sent := UploadChunk(db, fileId, count, chunk, rf, chunkIds, h, put);
    if failure.Some? {
      PendingStop(steps, count, whole, chunks0, chunks1, locations0, locations1, attempts);
    } else {
      PendingAdvance(steps, count, whole, chunks0, chunks1, locations0, locations1, attempts);
    }
    attempts' := attempts + sent;
  }

  /** The read loop of `upload_file_chunked`: reads the input `chunk_size` bytes at a
      time and places and replicates each chunk under the file `fileId`, stopping at the
      first error. `count` is how many chunks were read, `total` how many bytes. */
  method UploadChunks(db: Db, fileId: nat, data: Bytes, chunkSize: nat,
                      rf: int, chunkIds: nat -> string, h: string -> nat, put: string -> PutReply)
    returns (failure: Option<HttpError>, count: nat, total: nat, attempts: seq<PutRequest>)
    requires chunkSize > 0
    requires NodeIdsAscending(db.nodes)
    modifies db
    ensures var u := Upload(data, chunkSize, StepFor(fileId, old(db.nodes), rf, chunkIds, h, put));
            && db.chunks == old(db.chunks) + u.chunks
            && db.locations == old(db.locations) + u.locations
            && attempts == u.attempts && failure == u.failure
    ensures failure.None? ==> count == |Windows(data, chunkSize)| && total == |data|
    ensures db.Catalog() == old(db.Catalog())
  {
    ghost var chunks0, locations0, nodes := db.chunks, db.locations, db.nodes;
    ghost var ws := Windows(data, chunkSize);
    ghost var steps := Steps(ws, StepFor(fileId, nodes, rf, chunkIds, h, put));
    ghost var whole := Combine(steps);
    attempts := [];
    total, count := 0, 0;
    ReadStart(data, chunkSize);
    PendingStart(steps, chunks0, locations0);
    while true
      invariant count <= |ws| && ReadAt(data, chunkSize, count, total)
      invariant db.Catalog() == old(db.Catalog())
      invariant Pending(steps, count, whole, chunks0, db.chunks, locations0, db.locations, attempts)
      decreases |ws| - count
    {
      var chunk := ReadNext(data, chunkSize, count, total);
      if |chunk| == 0 {
        break;
      }
      assert steps[count] == StepFor(fileId, nodes, rf, chunkIds, h, put)(count, chunk);
      failure, attempts := UploadPass(db, fileId, count, chunk, rf, chunkIds, h, put, steps, whole,
                                      chunks0, locations0, attempts);
      if failure.Some? {
        return;
      }
      ghost var k, t := count, total;
      count, total := count + 1, total + |chunk|;
      ReadAdvance(data, chunkSize, k, t, count, total);
    }
    PendingEnd(steps, whole, chunks0, db.chunks, locations0, db.locations, attempts);
    failure := None;
  }

  /** The rows an upload for the file `fid` appends all belong to `fid`, so a chunk
      table whose rows belong to earlier files keeps every row below `fid + 1`. */
  lemma ChunksOfNewFile(before: seq<ChunkRow>, data: Bytes, cs: nat, fid: nat, nodes: seq<Node>,
                        rf: int, chunkIds: nat -> string, h: string -> nat, put: string -> PutReply)
    requires cs > 0
    requires forall c :: c in before ==> c.fileId < fid
    ensures forall c :: c in before + Upload(data, cs, StepFor(fid, nodes, rf, chunkIds, h, put)).chunks ==>
              c.fileId < fid + 1
  {
    var added := Upload(data, cs, StepFor(fid, nodes, rf, chunkIds, h, put)).chunks;
    UploadRows(data, cs, fid, nodes, rf, chunkIds, h, put);
    forall c | c in before + added ensures c.fileId < fid + 1 {
      if c !in before {
        var j :| 0 <= j < |added| && added[j] == c;
      }
    }
  }

  /** Adding a file row under the next id, advancing the counter, and chunk rows of ids
      below the new counter keeps the tables consistent. */
  lemma FileAddedConsistent(files: seq<FileRow>, chunks: seq<ChunkRow>, nodes: seq<Node>, folders: seq<Folder>,
                            nextFileId: nat, nextFolderId: nat, nextNodeId: nat,
                            row: FileRow, files': seq<FileRow>, chunks': seq<ChunkRow>, nextFileId': nat)
    requires Consistent(files, chunks, nodes, folders, nextFileId, nextFolderId, nextNodeId)
    requires row.id == nextFileId && nextFileId' == nextFileId + 1 && files' == files + [row]
    requires forall c :: c in chunks' ==> c.fileId < nextFileId'
    ensures Consistent(files', chunks', nodes, folders, nextFileId', nextFolderId, nextNodeId)
  {
  }

  /** `upload_file_chunked`: adds the file row (size 0), runs the read loop, refuses an
      input that yielded no chunk with 400, and otherwise sets the row's size to the
      bytes read. */
  method UploadFile(db: Db, ownerId: nat, filename: Option<string>, contentType: Option<string>,
                    folderId: Option<nat>, data: Bytes, chunkSize: nat,
                    rf: int, chunkIds: nat -> string, h: string -> nat, put: string -> PutReply)
    returns (r: Result<FileRow, HttpError>, attempts: seq<PutRequest>)
    requires chunkSize > 0
    requires db.Valid()
    modifies db
    ensures var fid := old(db.nextFileId);
            var row := NewFileRow(fid, ownerId, filename, contentType, folderId);
            var u := Upload(data, chunkSize, StepFor(fid, old(db.nodes), rf, chunkIds, h, put));
            && db.nextFileId == fid + 1
            && db.chunks == old(db.chunks) + u.chunks
            && db.locations == old(db.locations) + u.locations
            && attempts == u.attempts
            && (if u.failure.Some? then r == Failure(u.failure.value) && db.files == old(db.files) + [row]
                else if |data| == 0 then r == Failure(EmptyUpload) && db.files == old(db.files) + [row]
                else r == Success(row.(sizeBytes := |data|)) && db.files == old(db.files) + [r.value])
    ensures db.nodes == old(db.nodes) && db.folders == old(db.folders) && db.permissions == old(db.permissions)
    ensures db.nextFolderId == old(db.nextFolderId) && db.nextNodeId == old(db.nextNodeId)
    ensures db.Valid()
  {
    var fid := db.nextFileId;
    var row := NewFileRow(fid, ownerId, filename, contentType, folderId);
    var filesBefore := db.files;
    db.files := db.files + [row];
    db.nextFileId := fid + 1;
    ghost var chunksBefore := db.chunks;
    var failure, count, total;
    failure, count, total, attempts := UploadChunks(db, fid, data, chunkSize, rf, chunkIds, h, put);
    ChunksOfNewFile(chunksBefore, data, chunkSize, fid, old(db.nodes), rf, chunkIds, h, put);
    if failure.Some? || count == 0 {
      FileAddedConsistent(filesBefore, chunksBefore, db.nodes, db.folders, fid, db.nextFolderId, db.nextNodeId,
                          row, db.files, db.chunks, db.nextFileId);
      if failure.Some? {
        return Failure(failure.value), attempts;
      }
      return Failure(EmptyUpload), attempts;
    }
    var sized := row.(sizeBytes := total);
    db.files := filesBefore + [sized];
    FileAddedConsistent(filesBefore, chunksBefore, db.nodes, db.folders, fid, db.nextFolderId, db.nextNodeId,
                        sized, db.files, db.chunks, db.nextFileId);
    return Success(sized), attempts;
  }

  // ---------------------------------------------------------------------------
  // The upload as written

  /** What `upload_file_chunked` answers as written. Its call of `replicate_chunk`
      (control_plane/api/routes/file.py:83-90) passes the keyword `file_id`, which the
      function (control_plane/services/storage_client.py:93-101) does not take, and
      omits `file_version_id`, which it requires. So the first non-empty chunk, once
      its nodes are selected, raises `TypeError` before a row is added or a PUT is sent,
      and the route answers 500; the file row committed with size 0 stays. An empty
      input still gets the 400, and placement's 503 still comes first. */
  function UploadAsWritten(data: Bytes, nodes: seq<Node>, rf: int, chunkIds: nat -> string,
                           h: string -> nat): HttpError
  {
    if |data| == 0 then EmptyUpload
    else
      var sel := Select(nodes, chunkIds(0), None, rf, h);
      if sel.Failure? then sel.error else ServerError
  }

  /** Every PUT accepted and some node online: the upload as written answers 500
      (`ServerError`) for any non-empty input, where the intended upload (`UploadFile` on `Upload`) completes. */
  lemma UploadAsWrittenFails(data: Bytes, cs: nat, fid: nat, nodes: seq<Node>, rf: int,
                             chunkIds: nat -> string, h: string -> nat, put: string -> PutReply)
    requires cs > 0 && |data| > 0
    requires exists n :: n in nodes && n.isOnline
    requires forall url :: Accepted(put(url))
    ensures UploadAsWritten(data, nodes, rf, chunkIds, h) == ServerError
    ensures Upload(data, cs, StepFor(fid, nodes, rf, chunkIds, h, put)).failure.None?
  {
    UploadAsWrittenTypeError(data, nodes, rf, chunkIds, h);
    UploadSucceedsWhenAccepted(data, cs, fid, nodes, rf, chunkIds, h, put);
  }

  /** A non-empty input with some node online reaches the faulty call and gets a 500. */
  lemma UploadAsWrittenTypeError(data: Bytes, nodes: seq<Node>, rf: int, chunkIds: nat -> string,
                                 h: string -> nat)
    requires |data| > 0
    requires exists n :: n in nodes && n.isOnline
    ensures UploadAsWritten(data, nodes, rf, chunkIds, h) == ServerError
    ensures UploadAsWritten(data, nodes, rf, chunkIds, h).Status() == 500
  {
    SelectFails(nodes, chunkIds(0), None, rf, h);
  }

  /** With some node online and every storage node accepting its PUT, the upload
      places and replicates every chunk, without an error. */
  lemma UploadSucceedsWhenAccepted(data: Bytes, cs: nat, fid: nat, nodes: seq<Node>, rf: int,
                                   chunkIds: nat -> string, h: string -> nat, put: string -> PutReply)
    requires cs > 0
    requires exists n :: n in nodes && n.isOnline
    requires forall url :: Accepted(put(url))
    ensures Upload(data, cs, StepFor(fid, nodes, rf, chunkIds, h, put)).failure.None?
  {
    var ws := Windows(data, cs);
    var steps := Steps(ws, StepFor(fid, nodes, rf, chunkIds, h, put));
    CombineShape(steps);
    forall i | 0 <= i < |steps| ensures steps[i].Outcome().None? {
      var s := ChunkStep(chunkIds(i), fid, i, ws[i], nodes, rf, h, put);
      assert steps[i] == s;
      var targets := Select(nodes, chunkIds(i), None, rf, h).value;
      ReplicateOutcome(chunkIds(i), ws[i], targets, put);
    }
  }
}
