/** The block interface. */
module Blkif {
  const MAX_SEGMENTS: nat := 11  // BLKIF_MAX_SEGMENTS_PER_REQUEST
  const OKAY: int := 0           // BLKIF_RSP_OKAY
  const ERROR: int := -1         // BLKIF_RSP_ERROR

  /** A run of sectors in one page frame; the sector numbers are bytes. */
  datatype Fragment = Fragment(pfn: int, start: int, last: int)
}
