# EFS image format, writer and loader

A Dafny model of the core of EuterpeFS (`efs.c`). That core is a toy filesystem
image made of one header record (magic, block size, slot count, free-block count,
version) followed by an entry table of exactly `max_block` metadata records.
`formatEFSDisk` builds a fresh image with literal defaults and a root directory in
slot 0, then writes it. `writeEFSHeader` and `readEFSHeader` serialise and load the
image, and succeed only when every record count is complete. `readEFSDisk` reports
the loaded header and the root entry's permission bits. `main` decides between
format and load from the case-insensitive `-f` value, and describes the disk from
`-d` and `-t`.

Storage is abstract. A file is an `Image`: either `Blank`, or a header record followed
by whole entry records. The target of a disk name is a `Device` with five parts:
- whether a file of that name is present;
- whether the process may open it for reading and for writing. Opening for reading ("rb") needs the file to be present. Opening for writing ("wb") creates it when it is missing;
- how many records a write can persist (its capacity);
- what it holds.

`fwrite`/`fread` keep their count semantics: a transfer of `n` records moves
`min(n, available)`. Opening for writing truncates the file, so a short write leaves
whatever fitted. The source returns -1 for every failure. The model names the kind:
`OpenFailed`, `ShortWrite` or `ShortRead`. `StatusCode` maps them back to -1.

Modules: `EfsTypes` (records, integer widths, results), `Storage`, `ImageIo`
(write/read), `Permissions`, `Format`, `Load`, `CommandLine`, `Program` (main's
dispatch).

The model follows the code, which is lax in two places:
- The loader validates neither magic, version nor `free_block <= max_block`. It
  accepts any header whose declared records are present (`ImageIo.ReadAcceptsAnyHeader`).
- Format does not zero slots 1..99. They are whatever `malloc` returned, and the
  model takes them as the parameter `uninitialised`.

## Model

| member | source | states |
|---|---|---|
| Storage.Transfer | efs.c:246-252 | one fread/fwrite of `n` records moves the longest prefix of at most `n` of what is available: all `n`, or everything there is |
| ImageIo.WriteImage | efs.c:205-233 | an unopenable target fails with OpenFailed and is untouched; otherwise the file is present afterwards (a missing one is created), and the write succeeds iff the header and all `max_block` entries fit, and then the image is exactly the header followed by the first `max_block` entries; any other failure is ShortWrite; access flags and capacity are unchanged |
| ImageIo.ReadImage | efs.c:237-262 | a missing file, or one the process may not read, fails with OpenFailed; the load succeeds iff a header is present and at least `max_block` entry records follow it; on success the table length equals the loaded `max_block`, the header is the stored one and the table is a prefix of the stored records; other failures are ShortRead |
| ImageIo.WriteThenRead | efs.c:205-262 | reading back a successful write, also when the write created the file, gives the written header and the first `max_block` entries in order, so a file system whose table matches its header comes back unchanged; it fails with OpenFailed only when the process may not read the file |
| ImageIo.ShortWriteDoesNotLoad | efs.c:206-259 | whatever a short write leaves on the device fails to load |
| ImageIo.TruncatedImageFails | efs.c:252-259 | a header followed by fewer entry records than it declares fails with ShortRead |
| ImageIo.ReadAcceptsAnyHeader | efs.c:246-261 | any header value whatsoever loads when its declared records are present, and records past them are ignored |
| Permissions.Grant | efs.c:34-39 | a word built by adding READ=4, WRITE=2, EXECUTE=1 is below 8 and equals NONE=0 exactly when nothing is granted |
| Permissions.FlagsAreBinaryDigits | efs.c:186-188 | the `& READ`, `& WRITE`, `& EXECUTE` tests read bits 2, 1 and 0 of the word |
| Permissions.TestsDetermineLowBits | efs.c:186-188 | granting what the three tests report rebuilds `permissions & 7`, the word's low three bits |
| Permissions.TestsRecoverGrant | efs.c:34-39 | testing a granted word reports exactly the rights granted |
| Format.NewFileSystem | efs.c:142-164 | the built file system has header magic "EFS", block size 255, 100 slots, 100 free, version 1, a table of exactly `max_block` slots, the root in slot 0 and arbitrary uninitialised content in the rest |
| Format.FormatDisk | efs.c:141-170 | format succeeds iff the target opens and takes 101 records, and then holds the default header, the root and the uninitialised slots; an unopenable target fails with OpenFailed and is untouched; an opened target is present afterwards; any other failure is ShortWrite; access flags and capacity are unchanged |
| Format.FormatThenLoad | efs.c:141-170 | loading a formatted device, including one whose file the format created, succeeds iff the process may read it (OpenFailed otherwise) and gives the default header, exactly 100 slots, the literal root `id=0, parent_id=0, name="root", type=0, permissions=6, is_delete=0, min_block=0, max_block=5` in slot 0, and the uninitialised slots unchanged |
| Format.RootPermissions | efs.c:159 | the root's permissions are READ+WRITE = 6: read and write tests hold, the execute test does not |
| Load.RootViewAsWritten | efs.c:184-188 | the slot-0 report carries its name and read/write/execute flags that rebuild its permission word's low three bits; it needs a non-empty table |
| Load.EmptyTableLoads | efs.c:249-256 | a header declaring zero slots loads successfully with an empty table, so the following `entry[0]` read is out of bounds |
| Load.Summarise | efs.c:177-188 | the report repeats magic, version, block size, free and total blocks, and describes slot 0 iff the table is non-empty |
| Load.LoadDisk | efs.c:172-193 | the load report succeeds iff the image loads, fails with the loader's error, and on success is exactly the summary of the stored header and its first `max_block` entries: magic, version, block size, free and total blocks, and slot 0's name and flags, with a root line iff that count is positive |
| Load.FormatThenReport | efs.c:172-193 | after a successful format, including one that created the file, the load fails with OpenFailed iff the process may not read the file, and otherwise reports "EFS", version 1, block size 255, 100 free, 100 total, root "root" readable, writable, not executable |
| CommandLine.ToUpperChar | efs.c:267 | the result is never an ASCII lower-case letter; it is the input or, for a lower-case letter, the letter 32 code points lower |
| CommandLine.Upper | efs.c:265-270 | upper keeps the length and maps every character through toupper |
| CommandLine.UpperIdempotent | efs.c:265-270 | upper-casing twice equals upper-casing once |
| CommandLine.UpperMatchesIgnoringCase | efs.c:110 | comparing the upper-cased value with a capitalised word holds iff the value spells that word in any mix of cases |
| CommandLine.DiskName | efs.c:101-104 | the disk name is "efs.img" without `-d`, otherwise `-d`'s value |
| CommandLine.SelectDiskType | efs.c:106-110 | no `-t` selects type none |
| CommandLine.DiskTypeIgnoresCase | efs.c:106-110 | `-t` selects GPT iff it spells "gpt" in any case, MBR iff it spells "mbr" in any case, none otherwise |
| CommandLine.FormatRequested | efs.c:114-122 | an absent `-f` does not request formatting |
| CommandLine.FormatFlagIgnoresCase | efs.c:114-122 | formatting is chosen iff `-f` is present and spells "true" in any case |
| Program.Configure | efs.c:101-112 | the disk description has the default or given name, and type GPT or MBR exactly when `-t` spells it in any case |
| Program.Run | efs.c:114-138 | main returns 0 or -1; with a "true" `-f` it formats, leaves the device exactly as the format does, and returns 0 iff the device opens and takes 101 records; otherwise it loads, leaves the device untouched, returns 0 iff the load succeeds, and produces exactly the load's report then |
| Program.FormatRunThenLoadRun | efs.c:114-138 | a run with a "true" `-f` on a name whose file does not exist yet returns 0; a following run without `-f` on the resulting device returns 0 with the default report, when the process may read and write the file and it takes 101 records |

## Left out

- Real `fopen`/`fread`/`fwrite`/`fclose`, `perror`/`printf`/`fprintf` output, `malloc`/`free`. They are replaced by the `Device`/`Image` record storage. Output is returned as a `Summary` value instead of being printed.
- The byte layout of the records. The source dumps raw structs, so the layout depends on compiler padding and native endianness. The model works on whole records, so there is no byte-level encode/decode round trip.
- Storage.Transfer: capacity and availability are counted in whole records, not bytes. A write or read that stops partway through a record is not modelled.
- A header read that fails (empty file) leaves `max_block` uninitialised, yet the source uses it to size an allocation and a second read. The model just returns ShortRead, because the outcome does not depend on that value.
- When the file cannot be opened, `readEFSDisk` frees an uninitialised pointer. This is undefined behaviour and is not reproduced.
- `malloc` failure is not checked by the source and is not modelled.
- The `getopt` loop, `-h`/`EFSHelp` and `exit`. Only the interpretation of the collected `-d`, `-t`, `-f` values is modelled. Absent options are `None`.
- The `printf("Type: %s")` echo of `-t` is not modelled.
- The conversion of main's -1 into the process exit status (255) is not modelled.
- The process-global `disk` is replaced by the `Disk` value from `Program.Configure`. The file behind a name is the `resolve` parameter of `Program.Run`.
- `upper` mutates the option string in place. The model returns a new string.
- `toupper` is the C-locale one. Characters outside ASCII are left unchanged.
- Entry names are the text of the 256-byte buffer up to its terminator. The 256-byte bound is not enforced.
- The magic is exactly three characters, as `char magic[3]` is. Its characters are not restricted to bytes.
- Load.LoadDisk: when the header declares 0 slots, the model reports no root line. The source reads `entry[0]` unconditionally (efs.c:184), which is undefined for an empty table. See "## Findings".
- Load.Summarise: reports the stored three-character magic. The source prints `magic` with `%s` (efs.c:177), but `char magic[3]` initialised with "EFS" has no terminator (efs.c:12, 145). That print reads on into padding and `size_bloc`, so what appears depends on the struct layout, which is not modelled. Load.FormatThenReport's "EFS" is the stored magic, not necessarily the printed text.
- ImageIo.WriteImage: counts a record as persisted once `fwrite` accepts it. The source ignores what `fclose` returns (efs.c:218, 225), so records that `fwrite` only buffered and that then fail to flush still give a return of 0. The success clause holds only under this abstraction.

## Findings

| source | as written | input that shows it | evidently intended | confidence | as-written member | corrected member |
|---|---|---|---|---|---|---|
| efs.c:184 | after any successful load, `readEFSDisk` reads `readFs.entry[0]`, but the loader accepts a header whose `max_block` is 0, and then the table is an empty allocation | an image whose header declares `max_block = 0` and holds no entry records | describe slot 0 only when the table has one | medium; not executed | Load.EmptyTableLoads | Load.Summarise |
