/** Small shared vocabulary: the firmware's fixed-width unsigned integers and an Option type. */
module Basics {

  /** uint8_t */
  type u8 = x: int | 0 <= x < 0x100

  /** uint16_t */
  type u16 = x: int | 0 <= x < 0x1_0000

  /** uint32_t, and `unsigned long` on the ESP8266 */
  type u32 = x: int | 0 <= x < 0x1_0000_0000

  datatype Option<+T> = None | Some(value: T)

  function Min(a: int, b: int): int
  {
    if a <= b then a else b
  }
}
