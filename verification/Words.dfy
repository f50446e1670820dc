// Fixed-width words as integers: wrap-around, truncation and sign extension written out.
module Words {
  type byte = x: int | 0 <= x < 0x100
  type u16 = x: int | 0 <= x < 0x1_0000
  type u32 = x: int | 0 <= x < 0x1_0000_0000
  type u64 = x: int | 0 <= x < 0x1_0000_0000_0000_0000

  const TWO32: int := 0x1_0000_0000
  const TWO64: int := 0x1_0000_0000_0000_0000

  function Wrap32(x: int): u32 { x % TWO32 }
  function Wrap64(x: int): u64 { x % TWO64 }

  // The value of a word read as a two's-complement number.
  function Signed16(h: u16): int { if h < 0x8000 then h else h - 0x1_0000 }
  function Signed32(w: u32): int { if w < 0x8000_0000 then w else w - TWO32 }
  function Signed64(v: u64): int { if v < 0x8000_0000_0000_0000 then v else v - TWO64 }

  function Low(v: u64): u32 { v % TWO32 }

  // Sign extension of a 32-bit word to 64 bits.
  function Sx(w: u32): u64 { Wrap64(Signed32(w)) }

  lemma WrapPlus(x: int, y: int)
    ensures Wrap32(Wrap32(x) + y) == Wrap32(x + y)
  {}

  lemma SxLow(w: u32)
    ensures Low(Sx(w)) == w && Signed64(Sx(w)) == Signed32(w)
  {}
}
