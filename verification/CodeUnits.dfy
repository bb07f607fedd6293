/** JavaScript strings where their length or their indices matter: sequences of UTF-16 code units. */
module CodeUnits {
  newtype CodeUnit = x: int | 0 <= x < 0x10000

  type JsString = seq<CodeUnit>
}
