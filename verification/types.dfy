/** The in-memory records of an EFS image (efs.c: EFSHeader, EFSEntry,
    EFSPermissions, DiskType, struct FileSystem) and the failure kinds of the
    operations that build, write and load them. */
module EfsTypes {

  /** C fixed-width integers, kept as bounded mathematical integers. */
  type uint8 = x: int | 0 <= x < 0x100
  type uint32 = x: int | 0 <= x < 0x1_0000_0000
  type uint64 = x: int | 0 <= x < 0x1_0000_0000_0000_0000

  /** The three characters of `char magic[3]`. */
  type Magic = s: string | |s| == 3 witness "EFS"

  /** EFSHeader: geometry of the image, written once at its start. `magic` is
      the three-character array (no terminator). */
  datatype Header = Header(
    magic: Magic,
    sizeBloc: uint32,
    maxBlock: uint32,
    freeBlock: uint32,
    version: uint8)

  /** EFSEntry: one metadata record of the entry table. `name` is the text of
      the fixed 256-byte buffer up to its terminator. */
  datatype Entry = Entry(
    id: uint32,
    parentId: uint32,
    name: string,
    kind: uint32,
    permissions: uint32,
    creationTime: uint64,
    lastModificationTime: uint64,
    isDelete: uint8,
    minBlock: uint32,
    maxBlock: uint32)

  /** Values of the EFSPermissions enumeration. */
  const PermissionsNone: uint32 := 0
  const PermissionsExecute: uint32 := 1
  const PermissionsWrite: uint32 := 2
  const PermissionsRead: uint32 := 4

  /** Values of the DiskType enumeration (descriptive only). */
  datatype DiskType = DiskNone | DiskMbr | DiskGpt

  /** struct FileSystem: a header and the entry table it owns. */
  datatype FileSystem = FileSystem(header: Header, entries: seq<Entry>)

  /** The shape every loaded or freshly formatted file system has: the table
      holds exactly as many slots as the header declares. */
  predicate TableMatchesHeader(fs: FileSystem)
  {
    |fs.entries| == fs.header.maxBlock
  }

  /** Why an operation returned -1. The source collapses all of them into -1;
      `StatusCode` recovers that integer. */
  datatype IoError = OpenFailed | ShortWrite | ShortRead

  datatype Option<+T> = None | Some(value: T)

  datatype Result<+T> = Ok(value: T) | Err(error: IoError)

  datatype Outcome = Done | Failed(error: IoError)

  /** The int the C functions return: 0 on success, -1 on any failure. */
  function StatusCode(o: Outcome): int
  {
    if o.Done? then 0 else -1
  }
}
