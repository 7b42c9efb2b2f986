/** Machine integers of the benchmark's data types (software/coremark_app/cmark.c:129-136), with wrap-around. */
module Words {
  type S16 = x: int | -0x8000 <= x < 0x8000
  type S32 = x: int | -0x8000_0000 <= x < 0x8000_0000

  function ToS16(x: int): (r: S16)
    ensures (x - r) % 0x1_0000 == 0
    ensures -0x8000 <= x < 0x8000 ==> r == x
  {
    (x + 0x8000) % 0x1_0000 - 0x8000
  }

  function ToS32(x: int): (r: S32)
    ensures (x - r) % 0x1_0000_0000 == 0
    ensures -0x8000_0000 <= x < 0x8000_0000 ==> r == x
  {
    (x + 0x8000_0000) % 0x1_0000_0000 - 0x8000_0000
  }

  // The bits of a 16-bit value: the word that is congruent to it modulo 2^16.
  function Bits16(x: S16): bv16 { (if x < 0 then x + 0x1_0000 else x) as bv16 }

  lemma Bits16Is(x: S16)
    ensures (Bits16(x) as int - x) % 0x1_0000 == 0
  {
    var u := if x < 0 then x + 0x1_0000 else x;
    WordBack(u);
  }

  lemma WordBack(u: nat)
    requires u < 0x1_0000
    ensures (u as bv16) as int == u
  {
    assert u % 0x1_0000 == u;
  }
}
