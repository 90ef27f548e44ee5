/** Types and text functions shared by the models. */
module Basics {

  datatype Option<T> = None | Some(value: T)

  type Bytes = seq<int>

  /** What a replication hint carries: a missed write, a repair, or a delete marker. */
  datatype HintKind = PutHint | RepairHint | TombstoneHint

  /** The string without the leading characters that `drop` picks. */
  function TrimLeft(s: string, drop: char -> bool): string {
    if s != "" && drop(s[0]) then TrimLeft(s[1..], drop) else s
  }

  function TrimRight(s: string, drop: char -> bool): string {
    if s != "" && drop(s[|s| - 1]) then TrimRight(s[..|s| - 1], drop) else s
  }
}
