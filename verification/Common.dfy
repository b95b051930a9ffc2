/** Small value types shared by every module. */
module Common {

  datatype Option<+T> = None | Some(value: T)

  newtype byte = x: int | 0 <= x < 256

  /** Opaque octets: neither the queue nor the audit store looks inside them, only a worker decodes them. */
  type Bytes = seq<byte>

  /** Points in time and durations, in milliseconds. */
  type Time = int

  const MINUTE: Time := 60000
}
