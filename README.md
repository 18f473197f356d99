# NextUI installer: drive discovery and archive extraction

This project is a Dafny model of the two parts of the NextUI installer that
hold its logic: finding the removable drives a release can be written to,
and unpacking a downloaded `.7z` release with the bundled 7-Zip tool.

- **Drive discovery** (`src/drives.rs`) has three backends that return the
  same `DriveInfo` record (name, device path, mount point, volume label,
  size in bytes):
  - **Windows** walks the 26 drive letters of the logical-drive mask and
    keeps those whose drive type is "removable"
    (`windows_drives.dfy`).
  - **Linux** walks `/sys/block`. It skips virtual devices, keeps devices
    flagged removable that have a non-zero size, and looks up each one's
    mount point in `/proc/mounts` and its label in `/dev/disk/by-label`
    (`linux_drives.dfy`).
  - **macOS** collects disk identifiers from
    `diskutil list -plist external`, then reads `diskutil info <id>` for
    each one (`macos_drives.dfy`).
- **Extraction** (`src/extract.rs`) reports progress on a channel, checks
  the archive, creates the destination, writes the tool to the temporary
  directory, runs it, removes it, and reports the outcome
  (`extract.dfy`).

The operating system is replaced by plain values:
- Windows: the logical-drive mask and the answers of the three volume
  queries.
- Linux: the directory listings and file contents read.
- macOS: the standard output of each `diskutil` run.
- Extraction: the outcome of every file-system step and of the child
  process.

Each loop of the source becomes a `method` with a loop, proved equal to a
specification function. The properties are lemmas about those functions.
The extraction call is a method of the class `Extract.Host`. Its ghost
fields record every effect in order (channel sends, directory creation,
tool write, attempt to start the tool, tool removal) and whether the tool file is
still present.

Two checks of the macOS backend do not do what the surrounding code means
them to do (see "## Findings"). Every macOS member takes a `Checks`
argument:
- `AsWritten` follows the code exactly, and lemmas show what goes wrong;
- `Corrected` repairs only those two checks, and lemmas prove the intended
  properties.

Shared support modules:
- `wrappers.dfy`: `Option`, `Result`, the u64 range.
- `text.dfy`: ASCII trimming, whitespace splitting, line splitting,
  substring search, replace-all, u64 parsing.
- `sequences.dfy`: filter-map, first and last match, order-preserving
  de-duplication.

## Model

| member | source | states |
|---|---|---|
| WindowsDrives.NulPosition | src/drives.rs:73 | Gives the index of the first NUL code unit of the label buffer, or the buffer length when there is none. No earlier unit is NUL. |
| WindowsDrives.GetRemovableDrives | src/drives.rs:33-105 | The loop over the 26 letters returns exactly `WindowsDrives(w)`. |
| WindowsDrives.WindowsDrivesExactly | src/drives.rs:45-99 | A drive is listed iff its letter's bit is set and its drive type is 2 (`DRIVE_REMOVABLE`). Entries come in strictly ascending letter order. |
| WindowsDrives.EntryShape | src/drives.rs:47-99 | An entry's name and device path are both "L:" and its mount path is "L:\". Its label and size are what the volume queries report for "L:\". |
| WindowsDrives.LabelStopsAtNul | src/drives.rs:62-80 | A failed volume query gives the label "". Otherwise the label is the converted buffer prefix that ends just before the first NUL. |
| WindowsDrives.ZeroSizeListed | src/drives.rs:82-99 | A removable drive that reports size 0 is still listed, with size 0: the size is not filtered. |
| WindowsDrives.OnlyRemovableListed | src/drives.rs:46-55 | A letter whose bit is clear, or whose drive type is not removable, has no entry. |
| LinuxDrives.SizeBytes | src/drives.rs:143-148 | The size is a multiple of 512 equal to 512 times the parsed sector count. It is 0 when the size file is unreadable or does not parse. |
| LinuxDrives.SizeBytesOfSysfsText | src/drives.rs:144-147 | The kernel's text "<n>\n" gives n * 512 bytes. |
| LinuxDrives.RemovableFlagExamples | src/drives.rs:134-136 | "1\n" marks a device removable. "0\n" and an unreadable file do not. |
| LinuxDrives.MountOfLine | src/drives.rs:180-186 | A mount-table line yields a mount point iff it has two fields and its first field starts with the device path or one of the two partition prefixes. The mount point is the second field. |
| LinuxDrives.MountFromTableFirstMatch | src/drives.rs:178-189 | No mount point iff no line matches. Otherwise the mount point is the second field of the first matching line. |
| LinuxDrives.PartitionPrefixesSubsumed | src/drives.rs:183 | With the device path "/dev/<name>", a line matches iff its first field starts with that path, so the `p` and `1` prefixes never add a match. |
| LinuxDrives.DecodeLabelRemovesEscapes | src/drives.rs:199 | A decoded label contains no `\x20`. |
| LinuxDrives.DecodeLabelUnchanged | src/drives.rs:199 | A label without `\x20` is returned unchanged. |
| LinuxDrives.DecodeLabelExample | src/drives.rs:199 | "MY\x20DISK" decodes to "MY DISK". |
| LinuxDrives.LabelOfLink | src/drives.rs:194-197 | A by-label link yields a label iff its target was read and contains the device name. The label is the decoded link name. |
| LinuxDrives.LabelFromLinksFirstMatch | src/drives.rs:192-204 | The label is "" when no link points at the device. Otherwise it is the decoded name of the first link that does. |
| LinuxDrives.FindLinuxMountInfo | src/drives.rs:173-207 | The two loops with `break` return the first-match mount point and label of the specification functions. An unreadable table or directory gives none or "". |
| LinuxDrives.DriveFor | src/drives.rs:120-166 | A device yields an entry iff its name is not a loop, ram, zram or dm- device, its flag reads "1" and its size is positive. The entry has name, "/dev/<name>", that size, and the looked-up mount point and label. |
| LinuxDrives.LinuxDrivesShape | src/drives.rs:112-170 | Every entry has a positive size, the device path "/dev/<name>", a non-virtual name, and a listed device of that name whose flag is "1". |
| LinuxDrives.LinuxDrivesExactly | src/drives.rs:120-167 | The entries are exactly those that the listed devices yield. |
| LinuxDrives.GetRemovableDrives | src/drives.rs:112-170 | The loop with `continue` returns exactly `LinuxDrives`: nothing when /sys/block cannot be read, otherwise each device's entry in listing order. |
| MacDrives.CutId | src/drives.rs:241-243 | A cut-out identifier starts with "disk" and contains no '<'. |
| MacDrives.CutIdOfElement | src/drives.rs:241-243 | From the element `<string>id</string>`, the whole identifier is cut out. |
| MacDrives.ScanDiskIds | src/drives.rs:236-250 | The scan that pushes only identifiers not yet present returns exactly `DiskIds`: each identifier a line yields, once, in order of first appearance. |
| MacDrives.CandidateAsWrittenNone | src/drives.rs:239 | As written, no listing line yields an identifier, because "<string>disk" itself contains an 's'. |
| MacDrives.DiskIdsAsWrittenEmpty | src/drives.rs:237-250 | As written, every listing gives an empty identifier list. |
| MacDrives.IdsOfLinesCorrected | src/drives.rs:237-250 | Corrected, the identifiers are pairwise distinct, and an identifier is collected iff some line yields it. |
| MacDrives.DiskIdsCorrected | src/drives.rs:233-250 | The same for the lines of the listing text: distinct, and complete both ways. |
| MacDrives.DiskIdsWholeDisks | src/drives.rs:239-243 | Corrected, every collected identifier names a whole disk: "disk", no 's' after it, no '<'. |
| MacDrives.WholeDiskElement | src/drives.rs:239-243 | Corrected, the element of a whole disk such as "disk4" yields that identifier. |
| MacDrives.SliceElement | src/drives.rs:239-243 | Corrected, the element of a slice such as "disk4s1" yields nothing. |
| MacDrives.ReadReportLine | src/drives.rs:283-311 | One pass of the report loop over a trimmed line updates exactly the variable its label names, as `ReadLine` says. |
| MacDrives.GetMacosDiskInfo | src/drives.rs:263-326 | The loop over the report lines, followed by the removable-and-sized check, returns exactly `DiskInfo`. It returns None when `diskutil info` fails. |
| MacDrives.ReadAllKeepsLast | src/drives.rs:277-312 | After the loop, size, label and mount point each hold the value from the last line that sets them, or 0, "" or None. The removable flag is set iff some line marks the disk, so no later line clears it. |
| MacDrives.DiskInfoShape | src/drives.rs:285-325 | A reported disk has name `id`, device path "/dev/<id>" and a positive size from the last "Disk Size:" line that parses. A failed report, or a report where no line marks the disk, gives None. |
| MacDrives.VolumeNameOfLabel | src/drives.rs:294-298 | "Volume Name: v" sets label v. The no-file-system sentinel sets "". |
| MacDrives.MountPointOfPath | src/drives.rs:299-303 | "Mount Point: v" sets mount point v. The sentinel sets nothing. |
| MacDrives.RemovableMediaAlwaysMarks | src/drives.rs:304-305 | As written, every "Removable Media:" line marks the disk removable, whatever its value. |
| MacDrives.FixedMediaExample | src/drives.rs:304-305 | "Removable Media: Fixed" marks the disk as written, but not once corrected. |
| MacDrives.CheckedAlike | src/drives.rs:285-311 | Both versions read size, label and mount point alike. Any line that marks the disk corrected also marks it as written. |
| MacDrives.CorrectedOnlyDrops | src/drives.rs:304-325 | Any disk the corrected check reports is reported identically as written. |
| MacDrives.GetRemovableDrives | src/drives.rs:214-260 | The scan, followed by the info loop, returns exactly `MacDrives`: nothing when the listing fails, otherwise the reported disks in identifier order. |
| MacDrives.MacDrivesAsWrittenEmpty | src/drives.rs:239-257 | As written, the macOS backend never reports a disk. |
| MacDrives.DiskInfoNamed | src/drives.rs:315-322 | A kept report has name `id`, device path "/dev/<id>" and a positive size. |
| MacDrives.MacDrivesCorrectedShape | src/drives.rs:253-257 | Corrected, every reported disk is a listed whole disk with device path "/dev/<name>" and a positive size. |
| MacDrives.MacDrivesCorrectedDistinct | src/drives.rs:244-257 | Corrected, no disk is reported twice. |
| MacDrives.MacDrivesComplete | src/drives.rs:253-257 | Every listed identifier whose report describes a removable disk with a size appears in the result. |
| Extract.Host.Extract7z | src/extract.rs:23-104 | The early-return code appends exactly the effects of `ExtractRun` to the trace and returns its result. The tool file's state afterwards follows `ToolLeft`. Once the tool is written, the file is gone iff `remove_file` succeeds. A failed write keeps any earlier copy and adds any partial file it left. A call that stops earlier leaves the directory as it was. |
| Extract.Host.Extract7zWithProgress | src/extract.rs:106-113 | The alias has the same trace, result and tool-file state as `Extract7z`, including a partial file left by a failed write. |
| Extract.ToolStateFollowsEffects | src/extract.rs:44-79 | The tool file after the call is decided by the recorded effects. A `RemoveTool` effect leaves it iff removal failed. Without one, a `WriteTool` effect keeps any earlier copy and adds any partial file. Without either, nothing changes. |
| Extract.FailedWriteLeavesFile | src/extract.rs:48-49 | A write that fails after creating the file leaves it in the temporary directory, because the error return skips `remove_file`. |
| Extract.EarlyStopKeepsTool | src/extract.rs:31-39 | A call that stops before the write neither writes nor removes the tool, so a copy left by an earlier call stays. |
| Extract.ProgressEvents | src/extract.rs:28-103 | `Started` is always first. A missing archive or a failed directory creation leaves `[Started]`. A failed tool write leaves `[Started, Extracting]`. Otherwise the events are `[Started, Extracting, Completed]` on `Ok` and `[Started, Extracting, Error(m)]` on `Err(m)`. |
| Extract.WroteEvents | src/extract.rs:41-103 | Once the tool is written, the events are `Started`, `Extracting` and the final send. |
| Extract.LastSend | src/extract.rs:81-103 | The final send is `Completed` when the call returns `Ok`, and `Error(m)` when it returns `Err(m)`. |
| Extract.OkIffCompleted | src/extract.rs:81-103 | The call returns `Ok` iff `Completed` was sent. |
| Extract.AtMostOneTerminal | src/extract.rs:28-103 | At most one `Completed` or `Error` is sent. It is the third and last event, after `Started` and `Extracting`. |
| Extract.ArchiveMissing | src/extract.rs:28-33 | A missing archive gives the effects `[Send(Started)]` only, with no directory or tool, and the result `Err("Archive not found: \"<path>\"")`. |
| Extract.CreateDirFailure | src/extract.rs:36-39 | A failed directory creation gives the effects `[Send(Started), CreateDir(dest)]`, with no `Error` event, and the result `Err("Failed to create destination directory: " + reason)`. |
| Extract.CreatesDestinationOnlyWhenMissing | src/extract.rs:31-39 | The destination is created iff the archive exists and the destination does not. No other directory is created. |
| Extract.WriteFailure | src/extract.rs:44-49 | A failed tool write returns `Err("Failed to extract 7z tool: " + reason)`. Nothing runs and nothing is removed. |
| Extract.ToolRunThenRemoved | src/extract.rs:48-103 | Starting the tool is attempted iff it was written, and then exactly once, with the arguments `["x", archive, "-o" + dest, "-y"]` in that order. The tool's removal follows right after the attempt, whether the tool started or not and whatever its exit status, and before the outcome is sent. |
| Extract.RunOutcome | src/extract.rs:81-103 | A successful exit gives `Ok`. A failed exit gives "7z extraction failed:\n" + trimmed stdout + "\n" + trimmed stderr. A process that cannot start gives "Failed to run 7z: " + reason. |

## Left out

- System calls and commands are inputs, not behaviour:
  - `GetLogicalDrives`, `GetDriveTypeW`, `GetVolumeInformationW` and `GetDiskFreeSpaceExW`;
  - `read_dir`, `read_link` and `read_to_string`;
  - the `diskutil` runs;
  - `exists`, `create_dir_all`, `fs::write`, the child process and `remove_file`.

  The model takes what they return as given values.
- `read_dir` on `/sys/block` and `/dev/disk/by-label`: an entry that fails to read (dropped by `flatten`) is not in the listing. An unreadable link target is `None`.
- Text handling is simplified:
  - Trimming and whitespace splitting use ASCII whitespace only, not Unicode `trim`/`split_whitespace`.
  - Strings are sequences of characters, not UTF-8 bytes.
  - Lossy UTF-8 and UTF-16 conversions are the identity (on macOS and Linux), or the parameter `fromWide` (the Windows label).
- `Text.Lines`: `str::lines` is modelled as splitting at '\n' and dropping one '\r' before it. A lone '\r' at the very end of the text is kept.
- DriveModel.DisplayName: the size in GB (f64 division and one-decimal rounding) is the parameter `gbText`. The function follows the two format branches, but no property is stated about it beyond the examples in `DisplayNameExamples`.
- LinuxDrives.GetRemovableDrives: `sectors * 512` can overflow a u64 in the source. The model requires that it does not, through `SizesFit`, instead of modelling the overflow.
- MacDrives.GetMacosDiskInfo: on a "Disk Size:" line whose " Bytes" comes before its '(', the source panics on the slice. The methods require that no such line occurs (`ReportSafe`). The function `ByteCount` reads such a line as no number.
- Extract.ArchiveMissing: `{:?}` formatting of the path is modelled as surrounding double quotes. Escaping of quotes and backslashes inside the path is not modelled.
- The destination is passed as the text that `display()` renders, and the archive path as text.
- Extraction leaves out:
  - the async runtime and the unbounded channel (send results are ignored by the source, and a send is recorded whether or not it is received);
  - the temporary directory's location, and races between concurrent calls on its fixed file name `7zr_spruce.exe`;
  - the embedded tool bytes, the Windows `CREATE_NO_WINDOW` flag and archive decoding.
- The fallback backend for other platforms (`src/drives.rs:332-336`) returns an empty list after a warning on stderr. It is not modelled separately.
- `src/main.rs` (privilege relaunch and window setup) is not part of this model.

## Findings

| source | as written | input that shows it | evidently intended | confidence | as-written member | corrected member |
|---|---|---|---|---|---|---|
| src/drives.rs:239 | A listing line is used only if it contains "<string>disk" and contains no "s" at all. "<string>disk" itself contains an "s", so no line passes and no identifier is ever collected: the macOS backend always returns no drives. | `<string>disk4</string>` in the `diskutil list -plist external` output | Reject slice identifiers such as "disk4s1" by testing for "s" only after the identifier's "disk", and keep whole disks such as "disk4". | high (not executed) | MacDrives.DiskIdsAsWrittenEmpty | MacDrives.DiskIdsWholeDisks |
| src/drives.rs:304-305 | On a line starting with "Removable Media:", the flag is set to `line.contains("Removable")`, which is always true on such a line, so every disk with that line counts as removable. | `Removable Media: Fixed` with a non-zero "Disk Size:" line | Mark the disk only when the value after the label says "Removable". A USB "Protocol:" line still marks it, and no line clears the mark. | high (not executed) | MacDrives.RemovableMediaAlwaysMarks | MacDrives.CorrectedOnlyDrops |
