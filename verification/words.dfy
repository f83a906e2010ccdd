/**
 * Machine words and small wrappers shared by the glue-layer model.
 *
 * The glue layer is C: `unsigned` is 32 bits, the frame-skip counter and
 * the per-frame sample count are `uint16_t`, audio samples are `int16_t`.
 * Values that are only compared and counted are modelled as bounded
 * integers; values that are combined bit by bit are modelled as `bv32`.
 */
module Words {

  /** A C `uint16_t`. */
  type U16 = x: int | 0 <= x < 0x1_0000

  /** A C `unsigned` (32 bits). */
  type U32 = x: int | 0 <= x < 0x1_0000_0000

  /** A C `int16_t` audio sample. */
  type I16 = x: int | -0x8000 <= x < 0x8000

  /** A value that may be absent. */
  datatype Option<+T> = None | Some(value: T)
}
