/**
 * Integer views of the Win32 message words the tray code masks and shifts.
 * Python's `&` and `>>` on a positive mask/shift agree with Dafny's Euclidean
 * `%` and `/` by a positive constant, even for negative operands.
 */
module Words {

  const WORD: int := 0x1_0000
  const DWORD: int := 0x1_0000_0000

  /** `v & 0xFFFFFFFF`: the value a 32-bit WPARAM/LPARAM carries. */
  function U32(v: int): (r: int)
    ensures 0 <= r < DWORD
    ensures (r - v) % DWORD == 0
    ensures 0 <= v < DWORD ==> r == v
  {
    v % DWORD
  }

  /** `v & 0xFFFF`. */
  function LowWord(v: int): (r: int)
    ensures 0 <= r < WORD
    ensures (r - v) % WORD == 0
  {
    v % WORD
  }

  /** `(v >> 16) & 0xFFFF`. */
  function HighWord(v: int): (r: int)
    ensures 0 <= r < WORD
  {
    (v / WORD) % WORD
  }

  /** `ctypes.c_short(v & 0xFFFF).value`: the low 16 bits read as a two's-complement short. */
  function Signed16(v: int): (r: int)
    ensures -0x8000 <= r < 0x8000
    ensures (r - v) % WORD == 0
  {
    var w := v % WORD;
    if w >= 0x8000 then w - WORD else w
  }

  function Abs(x: int): (r: int)
    ensures r >= 0 && (r == x || r == -x)
  {
    if x < 0 then -x else x
  }

  /** A short packed into a word and read back is unchanged. */
  lemma Signed16OfLowWord(s: int)
    requires -0x8000 <= s < 0x8000
    ensures Signed16(LowWord(s)) == s
  {
  }

  /** The high and low words of a 32-bit value reassemble it. */
  lemma {:induction false} WordsReassemble(v: int)
    requires 0 <= v < DWORD
    ensures HighWord(v) * WORD + LowWord(v) == v
  {
    assert v / WORD < WORD;
  }
}
