/** Keys with a payload, and word arrays that store one after the other. */
module Cells {

  datatype Cell = Cell(key: int, payload: int)

  /** Two words a cell. */
  ghost function CellsOf(words: seq<int>): (cs: seq<Cell>)
    requires |words| % 2 == 0
    ensures |cs| == |words| / 2
    ensures forall t: nat :: t < |cs| ==> cs[t] == Cell(words[2 * t], words[2 * t + 1])
  {
    seq(|words| / 2, t requires 0 <= t < |words| / 2 => Cell(words[2 * t], words[2 * t + 1]))
  }
}
