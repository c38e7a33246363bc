/** What several parts of the system share: C's number types, the kernel's parameters, optional results. */
module Basics {
  /** One more than the largest 32-bit unsigned number. */
  const U32: nat := 0x1_0000_0000

  type byte = x: int | 0 <= x < 256

  /** How many blocks a file system call may log. */
  const MAXOPBLOCKS: nat := 10

  datatype Option<+T> = None | Some(value: T)

  predicate Distinct(s: seq<nat>) {
    forall i, j | 0 <= i < j < |s| :: s[i] != s[j]
  }
}
