/** Machine words and the small value types shared by every model in this project. */
module Words {

  type uint8 = x: int | 0 <= x < 0x100

  type uint16 = x: int | 0 <= x < 0x1_0000

  datatype Option<+T> = None | Some(value: T)

  /** The concatenation of a sequence of sequences. */
  function Flatten<T>(parts: seq<seq<T>>): seq<T> {
    if parts == [] then [] else Flatten(parts[..|parts| - 1]) + parts[|parts| - 1]
  }

  function Min(a: int, b: int): int {
    if a <= b then a else b
  }
}
