/** The storage daemon: a flat key-value store of chunk blobs, one file per chunk id in
    its chunk directory, written by `PUT /chunks/{id}` and read by `GET /chunks/{id}`. */
module StoragePlane {
  import opened Wrappers
  import opened Seqs
  import opened Http
  import opened Schema
  import opened StorageClient
  import opened FileDownload

  /** The JSON body `/health` replies with: the one field `status`, set to `ok`. */
  function Health(): (reply: map<string, string>)
    ensures reply.Keys == {"status"} && reply["status"] == "ok"
  {
    map["status" := "ok"]
  }

  /** The chunk directory after writing `body` under `chunkId`: the file is opened for
      writing from empty and every piece of the request stream is appended to it. */
  function Store(blobs: map<string, Bytes>, chunkId: string, body: seq<Bytes>): map<string, Bytes> {
    blobs[chunkId := Flatten(body)]
  }

  /** What `GET /chunks/{id}` answers: 404 when no file has that name, otherwise the
      whole file with status 200, streamed to the end. */
  function Serve(blobs: map<string, Bytes>, chunkId: string): (reply: GetReply)
    ensures reply.GetAnswered? && reply.completed
    ensures reply.status == 404 <==> chunkId !in blobs
    ensures reply.status == 200 <==> chunkId in blobs
    ensures chunkId in blobs ==> Flatten(reply.pieces) == blobs[chunkId]
    ensures chunkId !in blobs ==> reply.pieces == []
  {
    if chunkId !in blobs then GetAnswered(ChunkNotFound.Status(), [], true)
    else
      FlattenSingle(blobs[chunkId]);
      GetAnswered(200, [blobs[chunkId]], true)
  }

  /** A chunk written whole is served back whole, in the single-piece shape the
      coordinator's upload sends, which is what a download of it reads. */
  lemma PutThenGet(blobs: map<string, Bytes>, chunkId: string, data: Bytes)
    ensures Serve(Store(blobs, chunkId, [data]), chunkId) == GetAnswered(200, [data], true)
  {
    FlattenSingle(data);
  }

  /** Writing one chunk leaves every other chunk's answer as it was. */
  lemma StoreKeepsOthers(blobs: map<string, Bytes>, chunkId: string, body: seq<Bytes>, other: string)
    requires other != chunkId
    ensures Serve(Store(blobs, chunkId, body), other) == Serve(blobs, other)
  {
  }

  /** Opening with `"wb"` truncates: a second write of a chunk replaces the first. */
  lemma StoreOverwrites(blobs: map<string, Bytes>, chunkId: string, first: seq<Bytes>, second: seq<Bytes>)
    ensures Store(Store(blobs, chunkId, first), chunkId, second) == Store(blobs, chunkId, second)
  {
  }

  /** The daemon's state: the blobs of its chunk directory by file name. */
  class ChunkStore {
    var blobs: map<string, Bytes>

    constructor ()
      ensures blobs == map[]
    {
      blobs := map[];
    }

    /** `put_chunk`: truncates the chunk's file, appends each piece of the request
        stream in order, and answers 201 with the id. A 201 is a reply the
        coordinator's replication counts as stored. */
    method PutChunk(chunkId: string, body: seq<Bytes>) returns (status: int, replyId: string)
      modifies this
      ensures blobs == Store(old(blobs), chunkId, body)
      ensures status == 201 && Accepted(PutAnswered(status))
      ensures replyId == chunkId
    {
      blobs := blobs[chunkId := []];
      var i := 0;
      while i < |body|
        invariant 0 <= i <= |body|
        invariant blobs == old(blobs)[chunkId := Flatten(body[..i])]
      {
        FlattenAppend(body[..i], [body[i]]);
        FlattenSingle(body[i]);
        assert body[..i + 1] == body[..i] + [body[i]];
        blobs := blobs[chunkId := blobs[chunkId] + body[i]];
        i := i + 1;
      }
      assert body[..i] == body;
      return 201, chunkId;
    }

    /** `get_chunk`: the stored blob, or 404 "Chunk not found" when there is none. */
    function GetChunk(chunkId: string): (r: Result<Bytes, HttpError>)
      reads this
      ensures r.Failure? <==> chunkId !in blobs
      ensures r.Failure? ==> r.error == ChunkNotFound && r.error.Status() == 404
      ensures r.Success? ==> r.value == blobs[chunkId] && Serve(blobs, chunkId).pieces == [r.value]
    {
      if chunkId !in blobs then Failure(ChunkNotFound) else Success(blobs[chunkId])
    }
  }
}
