/** Kernel limits (param.h, fs.h, mmu.h). */
module Params {
  const MAXOPBLOCKS := 10
  const LOGSIZE := MAXOPBLOCKS * 3

  const MAX_PSYC_PAGES := 16
  const MAX_TOTAL_PAGES := 32
}
