/** The permission-bit tests readEFSDisk applies to an entry (efs.c), written
    with the same bitwise `&` against the EFSPermissions values. */
module Permissions {
  import opened EfsTypes

  /** `permissions & flag` is non-zero. */
  predicate HasFlag(permissions: uint32, flag: uint32)
  {
    (permissions as bv32) & (flag as bv32) != 0
  }

  predicate CanRead(permissions: uint32)
  {
    HasFlag(permissions, PermissionsRead)
  }

  predicate CanWrite(permissions: uint32)
  {
    HasFlag(permissions, PermissionsWrite)
  }

  predicate CanExecute(permissions: uint32)
  {
    HasFlag(permissions, PermissionsExecute)
  }

  /** A permissions word built the way the source builds one, by adding the
      enumeration values of the rights granted. */
  function Grant(read: bool, write: bool, execute: bool): (p: uint32)
    ensures p < 8
    ensures p == PermissionsNone <==> !read && !write && !execute
  {
    (if read then PermissionsRead else 0)
    + (if write then PermissionsWrite else 0)
    + (if execute then PermissionsExecute else 0)
  }

  /** Each test reads one binary digit: read is bit 2, write bit 1, execute bit 0. */
  lemma FlagsAreBinaryDigits(p: uint32)
    ensures CanRead(p) <==> (p / 4) % 2 == 1
    ensures CanWrite(p) <==> (p / 2) % 2 == 1
    ensures CanExecute(p) <==> p % 2 == 1
  {
  }

  /** The three tests determine the low three bits completely: granting what
      they report rebuilds `permissions & 7`. */
  lemma TestsDetermineLowBits(p: uint32)
    ensures Grant(CanRead(p), CanWrite(p), CanExecute(p)) == ((p as bv32) & 7) as int
  {
  }

  /** Testing a granted word reports exactly the rights that were granted. */
  lemma TestsRecoverGrant(read: bool, write: bool, execute: bool)
    ensures CanRead(Grant(read, write, execute)) == read
    ensures CanWrite(Grant(read, write, execute)) == write
    ensures CanExecute(Grant(read, write, execute)) == execute
  {
  }
}
