/** formatEFSDisk (efs.c): build a fresh file system with the literal default
    geometry and a root directory in slot 0, then write it out. */
module Format {
  import opened EfsTypes
  import opened Storage
  import opened ImageIo
  import opened Permissions

  /** The literal header: magic "EFS", block size 255, 100 slots, 100 free, version 1. */
  const DefaultHeader: Header := Header("EFS", 255, 100, 100, 1)

  /** The root directory record. Fields the initializer does not name (the two
      timestamps) are zero, as in any C designated initializer. */
  const RootEntry: Entry := Entry(
    id := 0,
    parentId := 0,
    name := "root",
    kind := 0,
    permissions := PermissionsRead + PermissionsWrite,
    creationTime := 0,
    lastModificationTime := 0,
    isDelete := 0,
    minBlock := 0,
    maxBlock := 5)

  /** The in-memory file system formatEFSDisk assembles. The table comes from
      malloc and only slot 0 is assigned, so `uninitialised` stands for
      whatever slots 1 to 99 happen to hold. */
  function NewFileSystem(uninitialised: seq<Entry>): (fs: FileSystem)
    requires |uninitialised| == DefaultHeader.maxBlock - 1
    ensures TableMatchesHeader(fs)
    ensures fs.header == Header("EFS", 255, 100, 100, 1)
    ensures fs.entries[0] == RootEntry
    ensures fs.entries[1..] == uninitialised
  {
    FileSystem(DefaultHeader, [RootEntry] + uninitialised)
  }

  /** formatEFSDisk: write the new file system to the device. It succeeds
      exactly when the target opens and takes the header plus all 100
      entry records. */
  function FormatDisk(dev: Device, uninitialised: seq<Entry>): (w: Written)
    requires |uninitialised| == DefaultHeader.maxBlock - 1
    ensures w.outcome.Done? <==> dev.writable && 101 <= dev.capacity
    ensures !dev.writable ==> w.device == dev && w.outcome == Failed(OpenFailed)
    ensures w.outcome.Failed? && dev.writable ==> w.outcome.error == ShortWrite
    ensures w.device.readable == dev.readable && w.device.writable == dev.writable
    ensures w.device.capacity == dev.capacity
    ensures dev.writable ==> w.device.present
    ensures w.outcome.Done? ==>
      w.device.image == Stored(DefaultHeader, [RootEntry] + uninitialised)
  {
    WriteImage(dev, NewFileSystem(uninitialised))
  }

  /** Loading a freshly formatted device, including one whose file the format
      created, gives back the default header, a table of exactly 100 slots and
      the root directory in slot 0, whatever the uninitialised slots held; it
      fails to open only when the process may not read the file. */
  lemma FormatThenLoad(dev: Device, uninitialised: seq<Entry>)
    requires |uninitialised| == DefaultHeader.maxBlock - 1
    requires FormatDisk(dev, uninitialised).outcome.Done?
    ensures ReadImage(FormatDisk(dev, uninitialised).device).Ok? <==> dev.readable
    ensures !dev.readable ==> ReadImage(FormatDisk(dev, uninitialised).device) == Err(OpenFailed)
    ensures dev.readable ==>
      var fs := ReadImage(FormatDisk(dev, uninitialised).device).value;
      && fs.header == Header("EFS", 255, 100, 100, 1)
      && |fs.entries| == 100
      && fs.entries[0] == Entry(0, 0, "root", 0, 6, 0, 0, 0, 0, 5)
      && fs.entries[1..] == uninitialised
  {
  }

  /** The root directory is readable and writable but not executable. */
  lemma RootPermissions()
    ensures RootEntry.permissions == 6
    ensures CanRead(RootEntry.permissions)
    ensures CanWrite(RootEntry.permissions)
    ensures !CanExecute(RootEntry.permissions)
  {
  }
}
