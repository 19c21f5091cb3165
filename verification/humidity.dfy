/** The humidity reading of `currentHumidity`: the sensor at bus address 0x40 is
    sent command 0xF5, and after a 0.3 s settle time two bytes are read, the high
    byte first. The bus traffic and the delay are outside the model; the two bytes
    it returns are the inputs here. */
module Humidity {

  type Byte = x: int | 0 <= x < 256

  /** Largest reading the formula can give: raw word 0xFFFF. */
  const MaxHumidity: real := 65535.0 * 125.0 / 65536.0 - 6.0

  /** The 16-bit word formed by the two bytes, first byte high. */
  function RawWord(hi: Byte, lo: Byte): (w: nat)
    ensures w < 65536
    ensures w / 256 == hi && w % 256 == lo
  {
    hi * 256 + lo
  }

  /** Relative humidity in percent for the byte pair. Python computes this in
      double precision, and exactly: the product is below 2^23, the division is by
      a power of two and the subtraction stays within 53 significant bits. */
  function CurrentHumidity(hi: Byte, lo: Byte): (h: real)
    ensures -6.0 <= h <= MaxHumidity
    ensures h == -6.0 <==> hi == 0 && lo == 0
    ensures h == MaxHumidity <==> hi == 255 && lo == 255
  {
    (RawWord(hi, lo) * 125) as real / 65536.0 - 6.0
  }

  /** Inverse of the conversion: the raw word a humidity value came from. */
  function RawFromHumidity(h: real): real {
    (h + 6.0) * 65536.0 / 125.0
  }

  /** The conversion loses nothing: the raw word is recovered from the reading. */
  lemma RawRecovered(hi: Byte, lo: Byte)
    ensures RawFromHumidity(CurrentHumidity(hi, lo)) == RawWord(hi, lo) as real
  {
  }

  /** Different byte pairs give different readings. */
  lemma HumidityInjective(hi1: Byte, lo1: Byte, hi2: Byte, lo2: Byte)
    requires CurrentHumidity(hi1, lo1) == CurrentHumidity(hi2, lo2)
    ensures hi1 == hi2 && lo1 == lo2
  {
  }

  /** The reading grows with the byte pair taken high byte first. */
  lemma HumidityMonotone(hi1: Byte, lo1: Byte, hi2: Byte, lo2: Byte)
    requires hi1 < hi2 || (hi1 == hi2 && lo1 <= lo2)
    ensures CurrentHumidity(hi1, lo1) <= CurrentHumidity(hi2, lo2)
  {
  }
}
