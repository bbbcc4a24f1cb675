/** The types of a.out symbols. */
module AoutTypes {
  const N_UNDF: nat := 0
  const N_EXT: nat := 1
  const N_ABS: nat := 2
  const N_TEXT: nat := 4
  const N_DATA: nat := 6
  const N_BSS: nat := 8
  const N_INDR: nat := 0x0a
  const N_WEAKU: nat := 0x0d
  const N_WEAKA: nat := 0x0e
  const N_WEAKT: nat := 0x0f
  const N_WEAKD: nat := 0x10
  const N_WEAKB: nat := 0x11
  const N_SETA: nat := 0x14
  const N_SETT: nat := 0x16
  const N_SETD: nat := 0x18
  const N_SETB: nat := 0x1a
  const N_WARNING: nat := 0x1e

  /** The brackets around the symbols of a header file, and a reference to a header. */
  const N_BINCL: nat := 0x82
  const N_EINCL: nat := 0xa2
  const N_EXCL: nat := 0xc2
}
