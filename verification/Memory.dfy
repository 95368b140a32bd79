/**
 Eight bytes in memory as a 64-bit word.
 */
module Memory {

  /** The word with these bytes, from the least to the most significant. */
  function Wide(b0: bv8, b1: bv8, b2: bv8, b3: bv8, b4: bv8, b5: bv8, b6: bv8, b7: bv8): bv64 {
    (b0 as bv64) | ((b1 as bv64) << 8) | ((b2 as bv64) << 16) | ((b3 as bv64) << 24)
    | ((b4 as bv64) << 32) | ((b5 as bv64) << 40) | ((b6 as bv64) << 48) | ((b7 as bv64) << 56)
  }

  /** The eight bytes read as a little-endian word. */
  function LoadLittle(s: seq<bv8>): bv64
    requires |s| == 8
  {
    Wide(s[0], s[1], s[2], s[3], s[4], s[5], s[6], s[7])
  }

  /** The eight bytes read as a big-endian word. */
  function LoadBig(s: seq<bv8>): bv64
    requires |s| == 8
  {
    Wide(s[7], s[6], s[5], s[4], s[3], s[2], s[1], s[0])
  }

  /** Byte k of a word, counted from the least significant. */
  function ByteOf(w: bv64, k: nat): bv8
    requires k < 8
  {
    match k
    case 0 => (w & 0xff) as bv8
    case 1 => ((w >> 8) & 0xff) as bv8
    case 2 => ((w >> 16) & 0xff) as bv8
    case 3 => ((w >> 24) & 0xff) as bv8
    case 4 => ((w >> 32) & 0xff) as bv8
    case 5 => ((w >> 40) & 0xff) as bv8
    case 6 => ((w >> 48) & 0xff) as bv8
    case 7 => (w >> 56) as bv8
  }
}
