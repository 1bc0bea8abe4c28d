# Distributed cloud file storage: coordinator and storage node

This project models the core of a two-tier file store. A coordinator (the control plane) keeps
a metadata database of files, chunks, chunk locations, folders, storage nodes and file
permissions. Storage nodes (the storage plane) keep chunk blobs on disk, one file per chunk id.

- **Upload.** The coordinator cuts an uploaded file into fixed-size chunks. For each chunk it
  draws a fresh id and picks replica nodes by consistent hashing. It sends the chunk to every
  picked node with an HTTP PUT and records one chunk row plus one location row per node that
  accepted it.
- **Download.** The coordinator reads the chunks back in index order. For each chunk it tries
  the online replicas one after another until one answers 200.
- **Other routes.** Register, list and remove storage nodes; list, create and delete folders;
  check a user's role on a file.

The modules are:

- `Wrappers`, `Seqs`: `Option`/`Result`, and sequence helpers. These are concatenation of
  pieces, a stable insertion sort standing in for SQL `ORDER BY` and Python's stable
  `list.sort`, the offset/limit page window, and decimal rendering of ids.
- `Http`: the HTTP errors the coordinator raises, with their status codes.
- `Schema`: the table rows and the class `Db`. `Db` holds every table as a sequence field.
  Its invariant `Valid` says the node table is in primary-key order with unique names, folder
  ids and (owner, name, parent) keys are unique, the id counters lie above every id in use,
  and every chunk row's file id is below the file counter.
- `StorageClient`: node placement on the hash ring, and chunk replication.
- `FileUpload`, `FileDownload`: the upload and download routes.
- `RoundTrip`: what a download returns after a successful upload.
- `Permissions`, `Folders`, `Nodes`: the other routes.
- `StoragePlane`: the storage daemon.

The model takes the source's own form:

- **Pure logic** is written as functions: the ring, the choice of start slot, the replica walk,
  the role hierarchy, the page windows.
- **Loops** are methods with `while` loops, each proved equal to a reference function.
  - `BuildHashRing`, `ScanStart` and `WalkRing` are proved against `Ring`, `StartSlot` and
    `Walk`.
  - `ReplicateChunk` is proved against `Replicate`.
  - The upload read loop `UploadChunks` is proved against `Upload`.
  - The generator of the download, `StreamFile`, `StreamCandidates` and `StreamReplica`, is
    proved against `StreamChunks`, `Failover` and `ReadReplica`.
- **Database routes** are methods that modify the `Db` object. They state the whole new state
  and keep `Valid`.
- **The daemon** is a class holding its chunk directory as a map.

Outside code is handled as follows:

- The SHA-256 key hash is a parameter `h`.
- The `uuid4` supply is a parameter `chunkIds`, mapping chunk index to id.
- The network is two oracles keyed by URL: `put` for the replication PUT, and `fetch` for the
  streamed GET.
- Creation time is a parameter `now`.

## Model

| member | source | states |
|---|---|---|
| StorageClient.GetOnlineNodes | control_plane/services/storage_client.py:15-27 | 503 exactly when no registered node is online; otherwise exactly the online nodes, ascending by id |
| StorageClient.FilterOnlineCounts | control_plane/services/storage_client.py:16-21 | the `is_online` filter keeps each online row as often as the table holds it and drops every offline one |
| StorageClient.GetOnlineNodesCounts | control_plane/services/storage_client.py:15-27 | the answer holds each online node exactly as often as the table does, and no offline node |
| StorageClient.OnlineNodesInTableOrder | control_plane/services/storage_client.py:16-21 | on a table kept in id order, the `ORDER BY id` query returns the online rows in table order, still ascending |
| StorageClient.Ring | control_plane/services/storage_client.py:34-46 | reference definition of `build_hash_ring`: the (hash of `node-<id>`, node) pairs sorted stably by hash; StorageClient.RingIsSortedPermutation and StorageClient.BuildHashRing state its properties |
| StorageClient.RingIsSortedPermutation | control_plane/services/storage_client.py:34-46 | the ring is a permutation of the (hash of `node-<id>`, node) pairs, ascending by hash; nodes with equal hashes keep id order, because the sort is stable |
| StorageClient.BuildHashRing | control_plane/services/storage_client.py:38-45 | the loop builds exactly the ring, so the ring is sorted and a permutation of the pairs |
| StorageClient.RingNodesDistinct | control_plane/services/storage_client.py:34-46 | no node appears twice on a ring built from a table with unique ids |
| StorageClient.StartSlot | control_plane/services/storage_client.py:69-79 | reference definition of the start-slot scan: the first slot hashing at or above the key, or slot 0 past the top; StorageClient.ScanStart is proved against it |
| StorageClient.FirstAtLeast | control_plane/services/storage_client.py:72-76 | the first slot whose hash is at least the key hash: every earlier slot hashes below the key |
| StorageClient.ScanStart | control_plane/services/storage_client.py:69-79 | the scan stops at the first slot at or above the key hash, and wraps to slot 0 when there is none |
| StorageClient.Walk | control_plane/services/storage_client.py:81-90 | reference definition of the replica walk: R successive ring nodes from the start slot, wrapping; StorageClient.WalkRing is proved against it |
| StorageClient.WalkRing | control_plane/services/storage_client.py:81-90 | the walk returns the R nodes that follow the start slot, wrapping around the ring; none is skipped as already selected, because the nodes on the ring are distinct |
| StorageClient.WalkNoDuplicates | control_plane/services/storage_client.py:84-88 | within one turn of the ring the walk never visits the same node twice |
| StorageClient.Select | control_plane/services/storage_client.py:49-90 | reference definition of `select_nodes_for_chunk_consistent`: the 503 when no node is online, all online nodes when at most R, else the walk; its properties are StorageClient.SelectFails, SelectAllWhenFew, SelectWalksRing and SelectDistinctOnline |
| StorageClient.SelectFails | control_plane/services/storage_client.py:59-63 | placement fails, with the 503, exactly when no node is online |
| StorageClient.SelectAllWhenFew | control_plane/services/storage_client.py:65-67 | with at most R online nodes, every online node is chosen, in id order |
| StorageClient.SelectWalksRing | control_plane/services/storage_client.py:69-90 | with more than R online nodes, exactly R nodes are chosen (none when R is negative), starting at the first slot hashing at or above the chunk id's hash, or at slot 0 past the top |
| StorageClient.SelectDistinctOnline | control_plane/services/storage_client.py:49-90 | every chosen node is registered and online, no node is chosen twice, and at least one node is chosen when R is at least 1 |
| StorageClient.SelectNodesForChunk | control_plane/services/storage_client.py:49-90 | the function's steps (R from the argument or else the configured setting, online query, ring, small-cluster shortcut, scan, walk) compute exactly the reference placement `Select` |
| StorageClient.PlaceOnRing | control_plane/services/storage_client.py:63-90 | on a non-empty online list the result is the whole list when it has at most R nodes, and otherwise the ring walk from the start slot |
| StorageClient.StripTrailingSlashes | control_plane/services/storage_client.py:121 | Python's `rstrip('/')`: a prefix of the input that does not end in `/`, where everything cut off is `/` |
| StorageClient.ChunkUrlShape | control_plane/services/storage_client.py:121 | the chunk URL is the base address without its trailing slashes, then `/chunks/`, then the id; a trailing slash on the base address does not change it |
| StorageClient.Acked | control_plane/services/storage_client.py:120-141 | the number of leading targets that answered 200 or 201; the target right after them, if any, did not |
| StorageClient.Replicate | control_plane/services/storage_client.py:120-141 | reference definition of the PUT loop of `replicate_chunk`: the locations, PUTs and first failure over the targets; any failure is a 502. StorageClient.ReplicateOutcome states the rest |
| StorageClient.ReplicateOutcome | control_plane/services/storage_client.py:120-141 | replication succeeds exactly when every target answers 200 or 201. On success it leaves one location per target and one PUT per target, in order. On failure it stops at the first refusing or unreachable target k: k locations, k+1 PUTs, and that target's 502 |
| StorageClient.ReplicatedLocationsSent | control_plane/services/storage_client.py:120-141 | after a successful replication, every recorded location names a target that was sent the chunk's bytes at its chunk URL |
| StorageClient.ReplicateChunk | control_plane/services/storage_client.py:93-143 | adds one chunk row (id, file, index, size), then the locations, PUTs and outcome of `Replicate`; no other table changes |
| FileUpload.OrDefault | control_plane/api/routes/file.py:52-54 | Python's `x or default`: a non-empty value is kept, and a missing or empty one gives the default |
| FileUpload.ReadSize | control_plane/api/routes/file.py:70 | `read(chunk_size)` returns the chunk size, or the whole rest when less is left |
| FileUpload.Windows | control_plane/api/routes/file.py:66-92 | the successive `read(chunk_size)` results until the empty read; there are none exactly when the upload is empty. FileUpload.WindowsPartition and WindowsBounded state the rest |
| FileUpload.WindowsPartition | control_plane/api/routes/file.py:66-92 | the chunks cut from the upload concatenate back to the upload, and every chunk but the last is exactly the chunk size |
| FileUpload.WindowsBounded | control_plane/api/routes/file.py:69-72 | no chunk is empty and none is larger than the chunk size |
| FileUpload.ReadNext | control_plane/api/routes/file.py:70-72 | each read returns the next chunk of the upload, starting at the running total; an empty read happens exactly when all chunks are read, with the total equal to the upload size |
| FileUpload.ChunkStep | control_plane/api/routes/file.py:76-90 | one chunk of the loop, placed with the configured replication factor (the route passes none): it fails with the 503 exactly when no node is online; otherwise its row records the fresh id, the file, the index and the chunk length; any failure is a 503 or a 502 |
| FileUpload.CombineShape | control_plane/api/routes/file.py:69-92 | the loop stops at the first failing chunk and keeps the rows of the chunks before it; it succeeds exactly when every chunk succeeds, and then records one row per chunk |
| FileUpload.Upload | control_plane/api/routes/file.py:66-92 | reference definition of the read loop: the passes over the windows, combined up to the first failure; FileUpload.CombineShape, UploadRows and UploadChunks state its properties |
| FileUpload.UploadRows | control_plane/api/routes/file.py:66-92 | chunk row j carries the j-th fresh id, the file id, index j and the j-th chunk's length; a successful upload has exactly one row per chunk |
| FileUpload.UploadChunks | control_plane/api/routes/file.py:66-92 | the read loop adds exactly the chunk rows and locations of the reference upload, issues its PUTs and returns its failure; on success it has read every chunk and the total is the upload size |
| FileUpload.UploadFile | control_plane/api/routes/file.py:29-104 | creates the file row under the next file id with the name and content-type defaults. Then it is the 502/503 of a failed chunk, or the 400 for an empty upload, or the row with its size set to the byte count. The database stays consistent |
| FileUpload.FileAddedConsistent | control_plane/api/routes/file.py:53-64 | adding the new file row under the next id, with every chunk row's file id below the advanced file counter, keeps the database consistent |
| FileUpload.UploadSucceedsWhenAccepted | control_plane/api/routes/file.py:66-92 | with some node online and every PUT answered 200 or 201, every chunk is placed and replicated and the upload ends without error |
| FileUpload.UploadAsWritten | control_plane/api/routes/file.py:76-98 | the upload as written: the 400 for an empty input, placement's 503, and otherwise the 500 of the `TypeError` at the `replicate_chunk` call; FileUpload.UploadAsWrittenFails states it |
| FileUpload.UploadAsWrittenTypeError | control_plane/api/routes/file.py:76-90 | as written, a non-empty upload with some node online fails with a 500 at the `replicate_chunk` call of the first chunk |
| FileUpload.UploadAsWrittenFails | control_plane/api/routes/file.py:76-90 | with every PUT accepted, the upload as written answers 500 for every non-empty input, where the intended upload completes |
| FileDownload.FindOwnedSpec | control_plane/api/routes/file.py:116-123 | the lookup finds a row exactly when one has this id and this owner |
| FileDownload.FileChunksSpec | control_plane/api/routes/file.py:127-132 | the chunk query returns exactly the file's chunk rows, ascending by index |
| FileDownload.FileChunksCounts | control_plane/api/routes/file.py:127-132 | the chunk query returns each of the file's chunk rows as often as the table holds it, and no row of another file |
| FileDownload.NodeByIdSpec | control_plane/api/routes/file.py:144 | the join on `node_id` finds the node with that id exactly when one is registered |
| FileDownload.OnlineReplicasSpec | control_plane/api/routes/file.py:142-150 | the replica query returns exactly the online registered nodes holding a location row for the chunk |
| FileDownload.OnlineReplicasCounts | control_plane/api/routes/file.py:142-150 | each registered node is returned as often as the chunk has location rows naming it when it is online, and never when it is offline |
| FileDownload.ReadReplica | control_plane/api/routes/file.py:161-179 | one attempt issues exactly one GET, to the node's chunk URL |
| FileDownload.Failover | control_plane/api/routes/file.py:158-179 | reference definition of the replica loop: attempts in order until the first complete 200; FileDownload.FailoverOutcome states its properties |
| FileDownload.FailoverOutcome | control_plane/api/routes/file.py:158-179 | replicas are tried in order until the first that answers 200 and streams to the end. A chunk is read exactly when some replica serves it. The output is what the tried replicas yielded, and every replica before the last one tried failed |
| FileDownload.AttemptUrls | control_plane/api/routes/file.py:160-165 | the j-th GET of a chunk goes to the chunk URL of the j-th online replica |
| FileDownload.PartialStreamRepeats | control_plane/api/routes/file.py:164-179 | a replica that yields part of the chunk and then drops the connection leaves those bytes in the download, ahead of the next replica's full copy |
| FileDownload.ReadChunk | control_plane/api/routes/file.py:140-185 | reference definition of one chunk of the generator: the replica query, the 503 when it is empty, else failover and the 502 when it fails; FileDownload.ReadChunkErrors states its outcomes |
| FileDownload.ReadChunkErrors | control_plane/api/routes/file.py:152-185 | the generator raises the 503 for a chunk exactly when no online replica holds it, and the 502 exactly when some do but none serves it; it raises nothing exactly when one serves it |
| FileDownload.StreamChunks | control_plane/api/routes/file.py:139-185 | reference definition of the generator: the chunk reads in order, up to the first raised error; FileDownload.StreamOutcome states its properties |
| FileDownload.StreamOutcome | control_plane/api/routes/file.py:139-185 | the stream ends without error exactly when every chunk is read; otherwise it ends at the first failing chunk with that chunk's error, after the bytes of every chunk before it and of that chunk's attempts |
| FileDownload.Download | control_plane/api/routes/file.py:110-192 | reference definition of `download_file`: the 404, the 500 for no chunks, or the streamed response; FileDownload.DownloadRefusals states its outcomes |
| FileDownload.DownloadRefusals | control_plane/api/routes/file.py:110-192 | 404 exactly when the caller owns no file with the id; 500 exactly when the file is owned but has no chunks. Otherwise the stream of its chunks, in index order, whose media type is the stored content type or `application/octet-stream` |
| FileDownload.StreamReplica | control_plane/api/routes/file.py:161-179 | streaming one replica yields the non-empty pieces of a 200 answer, after one GET, and counts as served only when the stream ran to its end |
| FileDownload.StreamCandidates | control_plane/api/routes/file.py:158-179 | the failover loop equals the reference failover over the replicas |
| FileDownload.StreamChunk | control_plane/api/routes/file.py:140-185 | one chunk of the generator raises the 503 or the 502, or yields the bytes, exactly as the reference read of that chunk |
| FileDownload.StreamFile | control_plane/api/routes/file.py:139-185 | the generator yields exactly the reference stream of the file's chunks |
| FileDownload.DownloadFile | control_plane/api/routes/file.py:110-192 | the route equals the reference download over the current tables |
| FileDownload.DownloadAsWritten | control_plane/api/routes/file.py:116-132 | the download as written: the 404 when not owned, otherwise the 500 of the `AttributeError` in the chunk query; FileDownload.DownloadAsWrittenFails states it |
| FileDownload.DownloadAsWrittenFails | control_plane/api/routes/file.py:116-132 | as written, the download answers 404 exactly when the caller owns no file with the id and 500 for every owned one; an owned file with chunk rows is streamed by the intended download |
| RoundTrip.ChunkStepPlaced | control_plane/services/storage_client.py:120-141 | a successfully placed chunk has at least one location, and every location names an online node that was sent the chunk's bytes |
| RoundTrip.ChunkRoundTrip | control_plane/api/routes/file.py:140-185 | after a successful upload to daemons that store what they are sent, each chunk reads back as exactly the bytes written for it |
| RoundTrip.UploadThenDownload | control_plane/api/routes/file.py:29-192 | with a replication factor of at least 1, a successful non-empty upload followed by a download of the new file streams, without error, exactly the uploaded chunks, which concatenate to the uploaded bytes |
| RoundTrip.UnreplicatedStep | control_plane/services/storage_client.py:65-90 | with a replication factor of 0 or less and some node online, a chunk's pass writes its row, sends no PUT, records no location and does not fail |
| RoundTrip.UnlocatedUnreadable | control_plane/api/routes/file.py:142-156 | the stream ends at a chunk without a location row, with the generator raising the 503 for that chunk |
| RoundTrip.UnreplicatedChunkUnreadable | control_plane/api/routes/file.py:76-156 | with a replication factor of 0 or less, a chunk uploaded without error is unreadable: a later download's stream ends there, with the generator raising the 503 for that chunk |
| Permissions.AllowedIsRankOrder | control_plane/services/permissions.py:8-12 | the role hierarchy is the order read < write < owner: a stored role meets a required role exactly when it ranks at least as high; only the three known roles have an entry |
| Permissions.AllowedMonotone | control_plane/services/permissions.py:8-12 | a role that meets a stronger requirement meets every weaker one |
| Permissions.UnknownRoleMeetsNothing | control_plane/services/permissions.py:8-12 | a stored role outside the three known ones meets no requirement |
| Permissions.FindPermission | control_plane/services/permissions.py:26-33 | the permission lookup finds a row exactly when one exists for this file and user |
| Permissions.GetFileForUser | control_plane/services/permissions.py:15-51 | reference definition of `get_file_for_user`, in the source's check order; Permissions.GetFileForUserSpec and PermissionsCheckedFirst state its outcomes |
| Permissions.GetFileForUserSpec | control_plane/services/permissions.py:15-51 | the 403 for no permission, the lookup failure for an unknown required role, the 403 for an insufficient role, the 404 for a missing file, and success, each exactly under its condition |
| Permissions.PermissionsCheckedFirst | control_plane/services/permissions.py:26-49 | every refusal except "file not found" is decided by the permission table alone, whatever the file table holds |
| Folders.OwnedBy | control_plane/api/routes/folders.py:28 | the owner filter keeps exactly the caller's folders |
| Folders.NewestFirstSorted | control_plane/api/routes/folders.py:26-33 | the ordered folders are a permutation of the caller's folders, latest creation time first |
| Folders.ListFolders | control_plane/api/routes/folders.py:17-34 | reference definition of `list_folders`: the 422 below page 1, else the page window of the caller's folders newest first; Folders.ListFoldersSpec and ListFoldersComplete state its properties |
| Folders.ListFoldersSpec | control_plane/api/routes/folders.py:17-34 | a page below 1 is refused with a 422; otherwise at most ten of the caller's folders, newest first, from offset (page-1)*10 of the ordering |
| Folders.ListFoldersComplete | control_plane/api/routes/folders.py:17-34 | every folder of the caller appears on the page that holds its position |
| Folders.FindByKey | control_plane/api/routes/folders.py:44-52 | the duplicate query finds a folder exactly when the caller has one with this name under this parent |
| Folders.CreateFolder | control_plane/api/routes/folders.py:37-64 | 400 when the key is taken; otherwise a new folder with the next id and creation time `now` is appended; nothing else changes and the database stays valid |
| Folders.FindOwnedFolder | control_plane/api/routes/folders.py:74-81 | the lookup finds a folder exactly when the caller owns one with this id |
| Folders.DeleteFolder | control_plane/api/routes/folders.py:67-106 | the 404, the 409 for files, the 409 for subfolders, and deletion, each exactly under its condition and in that order; deletion removes exactly the one folder |
| Nodes.FindByName | control_plane/api/routes/nodes.py:22 | the name query finds a node exactly when one has this name |
| Nodes.RegisterNode | control_plane/api/routes/nodes.py:15-35 | 400 when the name is taken; otherwise a node with the next id is appended, online unless the request says otherwise; the table stays in id order with unique names |
| Nodes.ListNodes | control_plane/api/routes/nodes.py:38-55 | reference definition of `list_nodes`: the 422 below page 1, else the page window of the nodes by id; Nodes.ListNodesSpec and ListNodesComplete state its properties |
| Nodes.ListNodesSpec | control_plane/api/routes/nodes.py:38-55 | a page below 1 is refused with a 422; otherwise at most ten registered nodes from offset (page-1)*10, strictly ascending by id |
| Nodes.ListNodesComplete | control_plane/api/routes/nodes.py:38-55 | every registered node appears on the page that holds its position |
| Nodes.FindNodeById | control_plane/api/routes/nodes.py:64 | the lookup succeeds exactly when a node has this id |
| Nodes.WithoutNodeKeepsOrder | control_plane/api/routes/nodes.py:72-73 | removing a node keeps the table in id order with unique names |
| Nodes.WithoutLocationsOnMembers | control_plane/models/node.py:16-20 | the cascade removes exactly the chunk locations on the deleted node |
| Nodes.DeleteNode | control_plane/api/routes/nodes.py:58-75 | 404 exactly when no node has the id; otherwise that node and every location on it are removed, and only those |
| StoragePlane.Health | storage_plane/main.py:16-18 | the health reply is the JSON object with the one field `status`, set to `ok` |
| StoragePlane.Serve | storage_plane/main.py:38-52 | 404 exactly when no blob has the id; otherwise 200 with the whole blob, streamed to the end |
| StoragePlane.Store | storage_plane/main.py:26-33 | the chunk directory after a PUT: the named file holds the concatenated request stream; StoragePlane.PutThenGet, StoreKeepsOthers and StoreOverwrites state its properties |
| StoragePlane.PutThenGet | storage_plane/main.py:21-52 | a chunk written whole is read back whole |
| StoragePlane.StoreKeepsOthers | storage_plane/main.py:26-33 | writing one chunk leaves every other chunk's answer unchanged |
| StoragePlane.StoreOverwrites | storage_plane/main.py:31 | opening with `wb` truncates, so a second write of a chunk replaces the first |
| StoragePlane.ChunkStore.PutChunk | storage_plane/main.py:21-35 | the chunk's file becomes the concatenation of the request stream, written from empty; the reply is 201 with the id, which the coordinator counts as stored |
| StoragePlane.ChunkStore.GetChunk | storage_plane/main.py:38-45 | the stored blob, or 404 "Chunk not found" exactly when the file is absent |

## Left out

- Database transactions are not modelled. Every `db.add` takes effect at once. So is the
  `flush`/`commit` of the upload route: on a failed chunk, the chunk row and the locations
  already added stay in the tables, together with the file row of size 0 committed at the
  start. A rollback of the uncommitted rows when the request fails is not modelled.
- The chunk rows are grouped under the file's id, as both call sites mean (see "## Findings").
  Versioning (`file_versions`, the `file_version_id` column) is not part of this model.
- Foreign keys are not modelled. An upload naming a folder id that does not exist, and
  `create_folder` with a parent id that does not exist, fail at commit with an integrity
  error in the database. The model accepts both.
- The SHA-256 of `_hash_key` is the parameter `h`. The model proves nothing that depends on
  its values.
- `uuid4` is the parameter `chunkIds`. The round-trip lemmas assume that the ids are fresh:
  distinct from each other and from ids already located (`FreshIds`). Elsewhere the model
  accepts colliding ids, where the `flush` of `replicate_chunk`
  (control_plane/services/storage_client.py:117) would fail on the chunk's primary key.
- The replication factor is the parameter `rf` (`setting` in `StorageClient`). It is
  `settings.REPLICATION_FACTOR`, 3 by default and read from the environment
  (control_plane/core/config.py:3-14). The round-trip lemmas require it to be at least 1.
  RoundTrip.UnreplicatedChunkUnreadable shows what a smaller one does.
- HTTP is the oracles `put` and `fetch`. Timeouts, the text of the exception in the 502
  detail and `resp.text` are not modelled. A PUT reply is either a transport error or a
  status code.
- FileUpload.UploadChunks and FileUpload.UploadFile require `chunkSize > 0`. The setting is
  1048576 (control_plane/core/config.py:9), and Python's `read(0)` or `read(-1)` are not
  modelled.
- Authentication (`get_current_user`), the auth routes, `register_node.py`, the Pydantic
  schemas and the URL normalisation of `base_url` by `HttpUrl` are not modelled. The caller is
  a user id, and the base address is the string stored.
- `ORDER BY` ties are resolved by a stable sort in table order (folders with equal
  `created_at`). SQL leaves that order unspecified. The replica query of the download
  (control_plane/api/routes/file.py:142-150) has no `ORDER BY` at all; the model tries
  the replicas in location-table order.
- `created_at` comes from the database server clock. The model takes it as the parameter
  `now`.
- `mimetypes.guess_type` on the daemon is not modelled. The coordinator does not use the
  daemon's media type.
- `FileResponse` is modelled as a single piece holding the whole file, and a streamed PUT
  body as a sequence of pieces. Chunked transfer boundaries, disk errors and directory
  creation are not modelled.
- The 503 and 502 of the download are raised inside the generator, after `StreamingResponse`
  (control_plane/api/routes/file.py:192) has sent status 200 and the headers. The client sees
  them as a 200 response whose body stops early, not as an error status. The model records
  the raised error as the stream's terminal error (`StreamOut.terminal`) and does not model
  how the server ends the connection.
- Concurrency is not modelled: two requests at once, or a node going offline during a
  request.
- The link between the coordinator's PUTs and the daemon's store is the predicate
  `ServesUploads`. It says that each node's chunk URL answers with the bytes last sent there.
  StoragePlane.PutThenGet shows that a daemon serves a blob in exactly that shape.
- The download keeps the bytes a replica yielded before it failed mid-stream, as the code does
  (FileDownload.PartialStreamRepeats). The design intent of "fail over to the next replica"
  would discard them. This is modelled as written, because the generator has already sent
  those bytes to the client.
- A required role that is not a key of the hierarchy makes the code raise `KeyError`. It is
  modelled as the error `UnknownRequiredRole`, which FastAPI answers with a 500.

## Findings

| source | as written | input that shows it | evidently intended | confidence | as-written member | corrected member |
|---|---|---|---|---|---|---|
| control_plane/api/routes/file.py:83-90 | `replicate_chunk(..., file_id=file_obj.id, ...)`, while the function (control_plane/services/storage_client.py:93-101) takes `file_version_id` and no `file_id`, so the call raises `TypeError` and the route answers 500, after the file row of size 0 is committed | any non-empty upload with one node online | the chunk is recorded under the new file and replicated | not executed | FileUpload.UploadAsWrittenFails | FileUpload.UploadFile |
| control_plane/api/routes/file.py:127-132 | the chunk query filters on `Chunk.file_id`, a column control_plane/models/chunk.py:21 has commented out, so building the query raises `AttributeError` and the route answers 500 after the ownership check | a download of any file the caller owns | the file's chunk rows in index order | not executed | FileDownload.DownloadAsWrittenFails | FileDownload.DownloadFile |
