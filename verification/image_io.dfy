/** writeEFSHeader and readEFSHeader (efs.c): serialising a file system as one
    header record followed by `header.maxBlock` entry records, and loading it
    back. Both succeed only when every record count comes out whole. */
module ImageIo {
  import opened EfsTypes
  import opened Storage

  /** What a write leaves behind: the device afterwards and the outcome. */
  datatype Written = Written(device: Device, outcome: Outcome)

  /** writeEFSHeader. Opening the target creates it if missing and truncates
      it, so a short
      write still replaces the old content with whatever records fitted.
      The source hands fwrite `header.maxBlock` records from the table, so the
      table must hold at least that many. */
  function WriteImage(dev: Device, fs: FileSystem): (w: Written)
    requires fs.header.maxBlock <= |fs.entries|
    ensures w.device.readable == dev.readable && w.device.writable == dev.writable
    ensures w.device.capacity == dev.capacity
    ensures dev.writable ==> w.device.present
    ensures !dev.writable ==> w.device == dev && w.outcome == Failed(OpenFailed)
    ensures w.outcome.Done? <==> dev.writable && fs.header.maxBlock < dev.capacity
    ensures w.outcome.Done? ==>
      w.device.image == Stored(fs.header, fs.entries[..fs.header.maxBlock])
    ensures w.outcome.Failed? && dev.writable ==> w.outcome.error == ShortWrite
  {
    if !dev.writable then
      Written(dev, Failed(OpenFailed))
    else
      var headersWritten := |Transfer([fs.header], dev.capacity)|;
      if headersWritten != 1 then
        Written(dev.(present := true, image := Blank), Failed(ShortWrite))
      else
        var itemsWritten := Transfer(fs.entries[..fs.header.maxBlock], dev.capacity - 1);
        var dev' := dev.(present := true, image := Stored(fs.header, itemsWritten));
        if |itemsWritten| != fs.header.maxBlock then
          Written(dev', Failed(ShortWrite))
        else
          assert itemsWritten == fs.entries[..fs.header.maxBlock];
          Written(dev', Done)
  }

  /** readEFSHeader. One header record is requested, then as many entry
      records as that header's maxBlock says; nothing about the header's
      values is checked. */
  function ReadImage(dev: Device): (r: Result<FileSystem>)
    ensures !OpensForReading(dev) ==> r == Err(OpenFailed)
    ensures r.Ok? <==>
      OpensForReading(dev) && dev.image.Stored? && dev.image.header.maxBlock <= |dev.image.entries|
    ensures r.Ok? ==> TableMatchesHeader(r.value)
    ensures r.Ok? ==> r.value.header == dev.image.header
    ensures r.Ok? ==> r.value.entries <= dev.image.entries
    ensures r.Err? && OpensForReading(dev) ==> r.error == ShortRead
  {
    if !OpensForReading(dev) then
      Err(OpenFailed)
    else
      match dev.image
      case Blank =>
        Err(ShortRead)
      case Stored(header, entries) =>
        var itemsRead := Transfer(entries, header.maxBlock);
        if |itemsRead| != header.maxBlock then Err(ShortRead)
        else Ok(FileSystem(header, itemsRead))
  }

  /** Reading back what a successful write produced, whether or not the file
      existed before, yields the written header and exactly the first
      `maxBlock` slots of the table, in order; it can only fail to open when
      the process may not read the file. */
  lemma WriteThenRead(dev: Device, fs: FileSystem)
    requires fs.header.maxBlock <= |fs.entries|
    requires WriteImage(dev, fs).outcome.Done?
    ensures ReadImage(WriteImage(dev, fs).device)
         == if dev.readable then Ok(FileSystem(fs.header, fs.entries[..fs.header.maxBlock]))
            else Err(OpenFailed)
    ensures TableMatchesHeader(fs) && dev.readable ==> ReadImage(WriteImage(dev, fs).device) == Ok(fs)
  {
    var image := WriteImage(dev, fs).device.image;
    assert image.entries == fs.entries[..fs.header.maxBlock];
    if TableMatchesHeader(fs) {
      assert fs.entries[..fs.header.maxBlock] == fs.entries;
    }
  }

  /** A write that comes up short never leaves behind something that loads:
      the partial image is either headerless or missing entry records. */
  lemma ShortWriteDoesNotLoad(dev: Device, fs: FileSystem)
    requires fs.header.maxBlock <= |fs.entries|
    requires WriteImage(dev, fs).outcome == Failed(ShortWrite)
    ensures ReadImage(WriteImage(dev, fs).device).Err?
  {
  }

  /** An image holding a header but fewer entry records than that header
      declares fails to load with a short read. */
  lemma TruncatedImageFails(dev: Device)
    requires OpensForReading(dev) && dev.image.Stored?
    requires |dev.image.entries| < dev.image.header.maxBlock
    ensures ReadImage(dev) == Err(ShortRead)
  {
  }

  /** The loader accepts any header at all, magic and version included, as long
      as the records it declares are present; records past them are ignored. */
  lemma ReadAcceptsAnyHeader(dev: Device, header: Header, entries: seq<Entry>, extra: seq<Entry>)
    requires OpensForReading(dev) && dev.image == Stored(header, entries + extra)
    requires |entries| == header.maxBlock
    ensures ReadImage(dev) == Ok(FileSystem(header, entries))
  {
  }
}
