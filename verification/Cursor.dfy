/** List cursors: clamped and wrapping. */
module Cursor {
  function BoundedIndex(index: int, size: nat): int {
    if size == 0 then 0 else if index < 0 then 0 else if index >= size then size - 1 else index
  }

  function CycleIndex(index: int, size: nat): int {
    if size == 0 then 0 else index % size
  }
}
