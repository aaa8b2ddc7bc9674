/** The storage behind a disk name, reduced to whole records. A file written by
    the writer holds one header record followed by entry records; the byte
    layout of the records (raw struct dumps) is not modelled. */
module Storage {
  import opened EfsTypes

  /** The records a file holds: nothing at all, or a header record followed
      by entry records. */
  datatype Image = Blank | Stored(header: Header, entries: seq<Entry>)

  /** The file a disk name resolves to: whether a file of that name is present,
      whether the process may open it for reading and for writing ("wb" also
      creates a missing file), how many records a write can persist in total
      before it comes up short, and the records the file holds. */
  datatype Device = Device(present: bool, readable: bool, writable: bool, capacity: nat, image: Image)

  /** fopen(name, "rb") succeeds: the file is present and may be read. */
  predicate OpensForReading(dev: Device)
  {
    dev.present && dev.readable
  }

  function Min(a: nat, b: nat): nat
  {
    if a <= b then a else b
  }

  /** The records one fread or fwrite call of `n` items moves when `source`
      holds what is available (for a read) or what fits (for a write): the
      longest prefix of at most `n` records. */
  function Transfer<T>(source: seq<T>, n: nat): (moved: seq<T>)
    ensures moved <= source
    ensures |moved| <= n
    ensures |moved| == n || moved == source
  {
    source[..Min(n, |source|)]
  }
}
