/**
 * Types shared by the I2C driver and the filesystem manager: the machine's
 * 32-bit words and bytes, a nullable-value wrapper, and the kernel's error codes.
 */
module Common {

  const U32_MODULUS: int := 0x1_0000_0000

  /** A `BT_u32`. */
  type UInt32 = x: int | 0 <= x < U32_MODULUS

  /** A `BT_u8`. */
  type Byte = x: int | 0 <= x < 256

  /** A value that may be absent: the source's NULL pointers and optional resources. */
  datatype Option<T> = None | Some(value: T)

  /**
   * The `BT_ERROR` values this core produces: `BT_ERR_NONE`, `BT_ERR_GENERIC`,
   * `BT_ERR_NO_MEMORY`, and `(BT_ERROR) -1`, which the I2C driver returns for a
   * protocol failure and for an unsupported power state.
   */
  datatype BtError = ErrNone | ErrGeneric | ErrNoMemory | ErrFailed
}
