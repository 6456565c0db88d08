/** The exit codes every stage of the pipeline returns (src/utils.h:33-35). */
module ChunkStatus {
  datatype Status = SUCCESS | EMPTY | FAILURE
}
