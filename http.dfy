/** The HTTP errors the coordinator and the storage daemon raise (FastAPI `HTTPException`),
    each with its status code and its `detail` text. */
module Http {
  import opened Seqs

  datatype HttpError =
    | NoOnlineNodes                            // no node is flagged online
    | NodeUnreachable(nodeName: string)        // a chunk PUT raised a request error
    | NodeRejected(nodeName: string, code: int) // a chunk PUT answered outside {200, 201}
    | EmptyUpload                              // the uploaded body had no bytes
    | FileNotFound                             // no such file (for this owner)
    | NoChunks                                 // a file with no chunk rows
    | NoOnlineReplicas(chunkIndex: nat)        // a chunk with no location on an online node
    | AllReplicasFailed(chunkIndex: nat)       // every online location failed for a chunk
    | NoAccess                                 // no permission row for (file, user)
    | MissingRole(required: string)            // the stored role does not meet the required one
    | UnknownRequiredRole(required: string)    // the required role is not a key of the hierarchy
    | FolderExists                             // same (owner, name, parent) already present
    | FolderNotFound                           // no such folder for this owner
    | FolderHasFiles                           // some file references the folder
    | FolderHasSubfolders                      // some folder has it as parent
    | NodeNameTaken                            // a node with that name is registered
    | NodeNotFound                             // no node with that id
    | ChunkNotFound                            // the daemon holds no blob under that key
    | PageBelowOne                             // the `page` query parameter is below 1
    | ServerError                              // an exception the route does not catch
  {
    function Status(): int {
      match this
      case NoOnlineNodes => 503
      case NodeUnreachable(_) => 502
      case NodeRejected(_, _) => 502
      case EmptyUpload => 400
      case FileNotFound => 404
      case NoChunks => 500
      case NoOnlineReplicas(_) => 503
      case AllReplicasFailed(_) => 502
      case NoAccess => 403
      case MissingRole(_) => 403
      case UnknownRequiredRole(_) => 500
      case FolderExists => 400
      case FolderNotFound => 404
      case FolderHasFiles => 409
      case FolderHasSubfolders => 409
      case NodeNameTaken => 400
      case NodeNotFound => 404
      case ChunkNotFound => 404
      case PageBelowOne => 422
      case ServerError => 500
    }

    /** The `detail` text; the transport error text and response body that the source
        appends to the two PUT failures come from the network and are not modelled. */
    function Detail(): string {
      match this
      case NoOnlineNodes => "No online storage nodes available"
      case NodeUnreachable(name) => "Failed to reach storage node " + name
      case NodeRejected(name, code) => "Node " + name + " returned " + IntToString(code)
      case EmptyUpload => "Uploaded file is empty"
      case FileNotFound => "File not found"
      case NoChunks => "No chunks found for file"
      case NoOnlineReplicas(i) => "No online replicas available for chunk " + NatToString(i)
      case AllReplicasFailed(i) => "All replicas failed for chunk " + NatToString(i)
      case NoAccess => "You do not have access to this file"
      case MissingRole(role) => "Requires " + role + " permission"
      case UnknownRequiredRole(_) => "Internal Server Error"
      case FolderExists => "Folder with that name already exists here"
      case FolderNotFound => "Folder not found"
      case FolderHasFiles => "Folder is not empty. Move or delete files first."
      case FolderHasSubfolders => "Folder contains subfolders. Delete/move them first."
      case NodeNameTaken => "Node with that name already exists"
      case NodeNotFound => "Node not found"
      case ChunkNotFound => "Chunk not found"
      case PageBelowOne => "Input should be greater than or equal to 1"
      case ServerError => "Internal Server Error"
    }
  }
}
