/** The kernel's sizes (param.h). */
module Params {
  const MAXOPBLOCKS: nat := 10     // blocks that any file-system operation writes
  const LOGSIZE: nat := 30         // data blocks in the log: MAXOPBLOCKS * 3
  const NBUF: nat := 30            // buffers of the block cache: MAXOPBLOCKS * 3
  const FSSIZE: nat := 1000        // blocks of the file system
}
