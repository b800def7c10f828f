/** What several of the models share. */
module Common {
  datatype Option<T> = None | Some(value: T)

  newtype Byte = x: int | 0 <= x < 0x100
  type Bytes = seq<Byte>

  /** The parts of a sequence put together again. */
  function Concat<T>(parts: seq<seq<T>>): seq<T> {
    if parts == [] then [] else Concat(parts[..|parts| - 1]) + parts[|parts| - 1]
  }
}
