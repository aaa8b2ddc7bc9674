/** main (efs.c) after option parsing: settle the disk description, then
    either format or load it. The process-wide `disk` becomes a value passed
    along, and the file system behind a name is given by `resolve`. */
module Program {
  import opened EfsTypes
  import opened Storage
  import opened ImageIo
  import opened Format
  import opened Load
  import opened CommandLine

  /** The values of -d, -t and -f, or None for an option not given. */
  datatype Options = Options(diskName: Option<string>, diskType: Option<string>, format: Option<string>)

  /** disk_t: the disk name and its descriptive type. */
  datatype Disk = Disk(name: string, kind: DiskType)

  /** The disk description main settles on before dispatching. */
  function Configure(o: Options): (d: Disk)
    ensures o.diskName.None? ==> d.name == "efs.img"
    ensures o.diskName.Some? ==> d.name == o.diskName.value
    ensures d.kind == DiskGpt <==> o.diskType.Some? && SpellsIgnoringCase(o.diskType.value, "GPT")
    ensures d.kind == DiskMbr <==> o.diskType.Some? && SpellsIgnoringCase(o.diskType.value, "MBR")
  {
    var d := Disk(DiskName(o.diskName), SelectDiskType(o.diskType));
    match o.diskType
    case None => d
    case Some(v) => DiskTypeIgnoresCase(v); d
  }

  /** What a run leaves: main's return value, the device behind the disk
      name afterwards, and the report a successful load prints. */
  datatype RunResult = RunResult(status: int, device: Device, report: Option<Summary>)

  /** main's dispatch: format when -f says "true" in any case, otherwise load.
      It returns 0 on success and the failing operation's -1 otherwise;
      loading never changes the device. */
  function Run(o: Options, resolve: string -> Device, uninitialised: seq<Entry>): (r: RunResult)
    requires |uninitialised| == DefaultHeader.maxBlock - 1
    ensures r.status == 0 || r.status == -1
    ensures var dev := resolve(Configure(o).name);
      && (o.format.Some? && SpellsIgnoringCase(o.format.value, "TRUE") ==>
            && r.report.None?
            && r.device == FormatDisk(dev, uninitialised).device
            && (r.status == 0 <==> dev.writable && 101 <= dev.capacity))
      && (!(o.format.Some? && SpellsIgnoringCase(o.format.value, "TRUE")) ==>
            && r.device == dev
            && r.report == (if LoadDisk(dev).Ok? then Some(LoadDisk(dev).value) else None)
            && (r.status == 0 <==> r.report.Some?)
            && (r.status == 0 <==> LoadDisk(dev).Ok?))
  {
    FormatFlagIgnoresCase(o.format);
    var dev := resolve(Configure(o).name);
    if FormatRequested(o.format) then
      var w := FormatDisk(dev, uninitialised);
      RunResult(StatusCode(w.outcome), w.device, None)
    else
      match LoadDisk(dev)
      case Ok(summary) => RunResult(0, dev, Some(summary))
      case Err(e) => RunResult(StatusCode(Failed(e)), dev, None)
  }

  /** The first-run workflow: formatting a name whose file does not exist yet
      creates the image, and a later run without -f loads it and succeeds with
      the default report, as long as the process may read and write the file
      and it takes 101 records. */
  lemma FormatRunThenLoadRun(name: Option<string>, resolve: string -> Device, uninitialised: seq<Entry>)
    requires |uninitialised| == DefaultHeader.maxBlock - 1
    requires var dev := resolve(DiskName(name));
      dev.readable && dev.writable && 101 <= dev.capacity
    ensures var first := Run(Options(name, None, Some("true")), resolve, uninitialised);
      var after := (n: string) => if n == DiskName(name) then first.device else resolve(n);
      var second := Run(Options(name, None, None), after, uninitialised);
      && first.status == 0
      && second.status == 0
      && second.report == Some(Summary("EFS", 1, 255, 100, 100, Some(RootView("root", true, true, false))))
  {
    var dev := resolve(DiskName(name));
    FormatThenReport(dev, uninitialised);
    FormatFlagIgnoresCase(Some("true"));
  }
}
