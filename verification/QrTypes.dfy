/** The numbers that describe a QR symbol: its version, its error correction level and its mask. */
module QrTypes {
  type Version = v: nat | 1 <= v <= 40 witness 1

  type Level = l: nat | l < 4

  type MaskPattern = p: nat | p < 8
}
