/** The carrier frequency register of the radio (firmware/components/radio/sx1262.c, set_rf_frequency). */
module Radio {
  import opened Bytes

  const F_XTAL := 32000000
  const STEPS := 0x200_0000

  /** The value before the cast to 32 bits, and after it. */
  function FullRegister(freqHz: u32): nat {
    freqHz * STEPS / F_XTAL
  }

  function Register(freqHz: u32): u32 {
    FullRegister(freqHz) % 0x1_0000_0000
  }

  /** Most significant byte first, by shifting and masking. */
  method RegisterBytes(freqHz: u32) returns (p: seq<byte>)
    ensures |p| == 4
    ensures p[0] as int * 16777216 + p[1] as int * 65536 + p[2] as int * 256 + p[3] as int == Register(freqHz)
  {
    var full: int := freqHz;
    var reg := full * 0x200_0000 / 32000000 % 0x1_0000_0000;
    p := [reg / 16777216 % 256, reg / 65536 % 256, reg / 256 % 256, reg % 256];
    var a, b, c := reg / 256, reg / 65536, reg / 16777216;
    assert b == a / 256 && c == b / 256;
    assert reg == 256 * a + reg % 256 && a == 256 * b + a % 256 && b == 256 * c + b % 256;
  }

  /**
   * The cast drops nothing exactly below 4.096 GHz; there the carrier the register stands for is the
   * requested one, less than one step of 32 MHz / 2^25 below it.
   */
  lemma RegisterIsExactIff(freqHz: u32)
    ensures Register(freqHz) == FullRegister(freqHz) <==> freqHz < 4096000000
    ensures FullRegister(freqHz) * F_XTAL <= freqHz * STEPS < (FullRegister(freqHz) + 1) * F_XTAL
  {
  }
}
