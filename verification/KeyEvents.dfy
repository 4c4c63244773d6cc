/** Macros as src/include/base.hpp declares them: sequences of timed key events. */
module KeyEvents {

  type Byte = x: int | 0 <= x < 0x100
  type UInt16 = x: int | 0 <= x < 0x1_0000

  /** Above this size, events that are not releases are ignored while recording. */
  const MACRO_T_KEYPRESS_MAX_SIZE: nat := 16

  /** Above this size, every event is ignored. */
  const MACRO_T_MAX_SIZE: nat := 24

  datatype EventValue = Release | Press | Unknown

  datatype KeyEvent = KeyEvent(code: Byte, event: EventValue, interval: UInt16)

  type Macro = seq<KeyEvent>

  /** G-keys are numbered from 1; 0 is the invalid one. */
  type GKey = x: int | 0 <= x <= 18

  const GKEY_INVALID: GKey := 0

  /** The banks of macros, one per M-key and one for none. */
  datatype MKeysID = MKEY_M0 | MKEY_M1 | MKEY_M2 | MKEY_M3
}
