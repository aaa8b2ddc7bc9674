/** readEFSDisk (efs.c): load the image and report its header and the
    permissions of the entry in slot 0. The printing itself is not modelled;
    the report is returned as a value. */
module Load {
  import opened EfsTypes
  import opened Storage
  import opened ImageIo
  import opened Permissions
  import opened Format

  /** What the loader reports about slot 0. */
  datatype RootView = RootView(name: string, read: bool, write: bool, execute: bool)

  /** What the loader reports about a loaded image. `root` is absent when the
      table has no slot 0. */
  datatype Summary = Summary(
    magic: Magic,
    version: uint8,
    blockSize: uint32,
    freeBlocks: uint32,
    totalBlocks: uint32,
    root: Option<RootView>)

  /** The report on slot 0 as the source builds it: it indexes entry[0]
      unconditionally, which is only defined when the table is not empty. */
  function RootViewAsWritten(fs: FileSystem): (v: RootView)
    requires |fs.entries| > 0
    ensures v.name == fs.entries[0].name
    ensures Grant(v.read, v.write, v.execute) == ((fs.entries[0].permissions as bv32) & 7) as int
  {
    var p := fs.entries[0].permissions;
    TestsDetermineLowBits(p);
    RootView(fs.entries[0].name, CanRead(p), CanWrite(p), CanExecute(p))
  }

  /** The loader accepts a header declaring zero slots, so the entry[0] read
      that follows a successful load can fall outside the table. */
  lemma EmptyTableLoads()
    ensures var dev := Device(true, true, true, 1, Stored(Header("EFS", 255, 0, 0, 1), []));
      && ReadImage(dev).Ok?
      && |ReadImage(dev).value.entries| == 0
  {
  }

  /** The report with the out-of-bounds read removed: slot 0 is described only
      when it exists. */
  function Summarise(fs: FileSystem): (s: Summary)
    ensures s.magic == fs.header.magic && s.version == fs.header.version
    ensures s.blockSize == fs.header.sizeBloc
    ensures s.freeBlocks == fs.header.freeBlock
    ensures s.totalBlocks == fs.header.maxBlock
    ensures s.root.Some? <==> |fs.entries| > 0
    ensures s.root.Some? ==> s.root.value == RootViewAsWritten(fs)
  {
    Summary(
      fs.header.magic, fs.header.version, fs.header.sizeBloc,
      fs.header.freeBlock, fs.header.maxBlock,
      if |fs.entries| > 0 then Some(RootViewAsWritten(fs)) else None)
  }

  /** readEFSDisk: fails exactly when the loader does, with the same error;
      the device is only read. */
  function LoadDisk(dev: Device): (r: Result<Summary>)
    ensures r.Ok? <==>
      OpensForReading(dev) && dev.image.Stored? && dev.image.header.maxBlock <= |dev.image.entries|
    ensures r.Err? ==> r.error == ReadImage(dev).error
    ensures r.Ok? ==> r.value.totalBlocks == dev.image.header.maxBlock
    ensures r.Ok? ==> (r.value.root.Some? <==> dev.image.header.maxBlock > 0)
    ensures r.Ok? ==>
      r.value == Summarise(FileSystem(dev.image.header, dev.image.entries[..dev.image.header.maxBlock]))
  {
    match ReadImage(dev)
    case Ok(fs) => Ok(Summarise(fs))
    case Err(e) => Err(e)
  }

  /** After a successful format, loading reports magic "EFS", version 1, block
      size 255, 100 free and 100 total blocks, and a root named "root" that is
      readable and writable but not executable. */
  lemma FormatThenReport(dev: Device, uninitialised: seq<Entry>)
    requires |uninitialised| == DefaultHeader.maxBlock - 1
    requires FormatDisk(dev, uninitialised).outcome.Done?
    ensures LoadDisk(FormatDisk(dev, uninitialised).device)
         == if dev.readable then Ok(Summary("EFS", 1, 255, 100, 100, Some(RootView("root", true, true, false))))
            else Err(OpenFailed)
  {
  }
}
