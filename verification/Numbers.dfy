// Numbers that more than one component compares.

module Numbers {
  function Max(a: int, b: int): int {
    if a < b then b else a
  }
}
