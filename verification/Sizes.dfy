/** The compressor's size constants. */
module Sizes {
  const BZ_MAX_ALPHA_SIZE := 258
  const BZ_N_GROUPS := 6
  const BZ_G_SIZE := 50
  const BZ_N_ITERS := 4
  const BZ_N_RADIX := 2
  const BZ_N_QSORT := 12
  const BZ_N_SHELL := 18
  const BZ_N_OVERSHOOT := BZ_N_RADIX + BZ_N_QSORT + BZ_N_SHELL + 2
  const BZ_MAX_SELECTORS := 2 + 900000 / BZ_G_SIZE
}
