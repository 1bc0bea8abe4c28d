/** The coordinator's metadata tables: one record type per table and the `Db` session
    object whose fields are the tables. Rows are kept in insertion order; ids come from
    per-table counters, as the database's auto-increment keys do. */
module Schema {
  import opened Wrappers
  import opened Seqs

  newtype byte = b: int | 0 <= b < 256
  type Bytes = seq<byte>

  datatype Node = Node(id: nat, name: string, baseUrl: string, isOnline: bool, capacityBytes: Option<int>)

  datatype FileRow = FileRow(id: nat, name: string, sizeBytes: nat, contentType: string,
                             ownerId: nat, folderId: Option<nat>)

  /** A chunk row; `fileId` is the owning file (see README on the version column). */
  datatype ChunkRow = ChunkRow(id: string, fileId: nat, index: nat, sizeBytes: nat)

  datatype LocationRow = LocationRow(chunkId: string, nodeId: nat)

  datatype Folder = Folder(id: nat, name: string, ownerId: nat, parentId: Option<nat>, createdAt: int)

  datatype Permission = Permission(fileId: nat, userId: nat, role: string)

  function NodeId(n: Node): int { n.id }

  /** The node table is held in primary-key order. */
  predicate NodeIdsAscending(nodes: seq<Node>) {
    StrictlyAscendingBy(nodes, NodeId)
  }

  /** The `unique=True` constraint on `Node.name`. */
  predicate NodeNamesUnique(nodes: seq<Node>) {
    forall i, j :: 0 <= i < j < |nodes| ==> nodes[i].name != nodes[j].name
  }

  predicate FolderIdsUnique(folders: seq<Folder>) {
    forall i, j :: 0 <= i < j < |folders| ==> folders[i].id != folders[j].id
  }

  /** No two folders share (owner, name, parent): what `create_folder` keeps. */
  predicate FolderKeysUnique(folders: seq<Folder>) {
    forall i, j :: 0 <= i < j < |folders| ==>
      !(folders[i].ownerId == folders[j].ownerId && folders[i].name == folders[j].name &&
        folders[i].parentId == folders[j].parentId)
  }

  /** What the database's keys and constraints guarantee of the tables: the node table in
      id order under unique names, folder ids and (owner, name, parent) keys unique,
      every id below its table's counter, and every chunk row's file id below the file
      counter (that file id names an existing file row is not part of it). */
  predicate Consistent(files: seq<FileRow>, chunks: seq<ChunkRow>, nodes: seq<Node>, folders: seq<Folder>,
                       nextFileId: nat, nextFolderId: nat, nextNodeId: nat) {
    && NodeIdsAscending(nodes)
    && NodeNamesUnique(nodes)
    && (forall n :: n in nodes ==> n.id < nextNodeId)
    && FolderIdsUnique(folders)
    && FolderKeysUnique(folders)
    && (forall f :: f in folders ==> f.id < nextFolderId)
    && (forall f :: f in files ==> f.id < nextFileId)
    && (forall c :: c in chunks ==> c.fileId < nextFileId)
  }

  class Db {
    var files: seq<FileRow>
    var chunks: seq<ChunkRow>
    var locations: seq<LocationRow>
    var nodes: seq<Node>
    var folders: seq<Folder>
    var permissions: seq<Permission>
    var nextFileId: nat
    var nextFolderId: nat
    var nextNodeId: nat

    ghost predicate Valid()
      reads this
    {
      Consistent(files, chunks, nodes, folders, nextFileId, nextFolderId, nextNodeId)
    }

    /** Every table and counter except the chunk and location tables: what placing and
        replicating chunks leaves alone. */
    ghost function Catalog(): (seq<FileRow>, seq<Node>, seq<Folder>, seq<Permission>, nat, nat, nat)
      reads this
    {
      (files, nodes, folders, permissions, nextFileId, nextFolderId, nextNodeId)
    }

    constructor ()
      ensures Valid()
      ensures files == [] && chunks == [] && locations == [] && nodes == []
      ensures folders == [] && permissions == []
      ensures nextFileId == 1 && nextFolderId == 1 && nextNodeId == 1
    {
      files, chunks, locations, nodes, folders, permissions := [], [], [], [], [], [];
      nextFileId, nextFolderId, nextNodeId := 1, 1, 1;
    }
  }
}
