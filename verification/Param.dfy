/** Kernel configuration constants (kernel/param.h). */
module Param {

  /** Most processes. */
  const NPROC: nat := 64

  /** Most CPUs. */
  const NCPU: nat := 8

  /** The device number the file system lives on. */
  const ROOTDEV: nat := 1

  /** Most blocks one file-system operation may log. */
  const MAXOPBLOCKS: nat := 10

  /** Most data blocks the on-disk log holds. */
  const LOGSIZE: nat := MAXOPBLOCKS * 3

  /** Buffers in the disk block cache. */
  const NBUF: nat := MAXOPBLOCKS * 3
}
