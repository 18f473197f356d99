/**
 * The diskutil backend of drive discovery. The two commands it runs are
 * parameters: the standard output of `diskutil list -plist external`, and
 * for every disk identifier the standard output of `diskutil info <id>`.
 * `None` stands for a command that could not be started or exited with a
 * failure status.
 *
 * Two checks of the backend do not do what their comments say (see the
 * README's findings). Every operation takes a `Checks` argument: `AsWritten`
 * follows the code exactly, `Corrected` repairs the two checks and changes
 * nothing else.
 */
module MacDrives {
  import opened Wrappers
  import opened Text
  import opened Sequences
  import opened DriveModel

  /** Which version of the identifier filter and of the "Removable Media" reading to use. */
  datatype Checks = AsWritten | Corrected

  // ---------------------------------------------------------------------------
  // Disk identifiers in the `diskutil list -plist external` listing
  // ---------------------------------------------------------------------------

  const DISK_STRING := "<string>disk"
  const DISK := "disk"

  /** The identifier of a listing line starts with "disk" and ends before the next '<'. */
  lemma IdStartsWithDisk(t: string, end: nat)
    requires StartsWith(t, DISK) && Find(t, "<") == Some(end)
    ensures end >= |DISK| && StartsWith(t[..end], DISK)
    ensures '<' !in t[..end]
  {
    FindIsFirst(t, "<");
    assert t[end..][..1] == "<";
    assert t[end] == '<' by { assert t[end..][..1][0] == t[end]; }
    assert t[..|DISK|] == DISK;
    forall j | 0 <= j < end ensures t[j] != '<' {
      assert !StartsWith(t[j..], "<");
      assert t[j..][..1] == [t[j]];
    }
  }

  /** The identifier cut out of a listing line: from its first "disk" to the next '<'. */
  function CutId(line: string): (r: Option<string>)
    ensures r.Some? ==> StartsWith(r.value, DISK) && '<' !in r.value
  {
    match Find(line, DISK)
    case None => None
    case Some(start) =>
      var t := line[start..];
      match Find(t, "<")
      case None => None
      case Some(end) =>
        IdStartsWithDisk(t, end);
        Some(t[..end])
  }

  /**
   * The identifier one listing line yields, if any: the trimmed line must hold
   * "<string>disk" and the identifier is cut out of it. As written, the line
   * must also hold no 's' at all; corrected, only the identifier after its
   * "disk" must hold no 's' (it names a whole disk, not a slice such as
   * "disk4s1").
   */
  function Candidate(raw: string, checks: Checks): Option<string> {
    var line := Trim(raw);
    if !Contains(line, DISK_STRING) then None
    else if checks.AsWritten? && Contains(line, "s") then None
    else
      match CutId(line)
      case None => None
      case Some(id) => if checks.Corrected? && Contains(id[|DISK|..], "s") then None else Some(id)
  }

  /** An identifier a line yields starts with "disk" and holds no '<'; corrected, it names a whole disk. */
  lemma CandidateShape(raw: string, checks: Checks)
    ensures Candidate(raw, checks).Some? ==> StartsWith(Candidate(raw, checks).value, DISK) && '<' !in Candidate(raw, checks).value
    ensures Candidate(raw, checks).Some? && checks.Corrected? ==> !Contains(Candidate(raw, checks).value[|DISK|..], "s")
  {
  }

  function CandidateMatcher(checks: Checks): string -> Option<string> {
    raw => Candidate(raw, checks)
  }

  /** The identifiers the lines yield, each once, in the order they first appear. */
  function IdsOfLines(lines: seq<string>, checks: Checks): seq<string> {
    Dedup(FilterMap(lines, CandidateMatcher(checks)))
  }

  /** The identifiers of the listing. */
  function DiskIds(stdout: string, checks: Checks): seq<string> {
    IdsOfLines(Lines(stdout), checks)
  }

  /**
   * The identifier scan of `get_removable_drives`: one pass over the lines,
   * pushing each identifier a line yields unless it was pushed already.
   */
  method ScanDiskIds(stdout: string, checks: Checks) returns (ids: seq<string>)
    ensures ids == DiskIds(stdout, checks)
  {
    ids := PushNewEntries(Lines(stdout), CandidateMatcher(checks));
  }

  /** "<string>disk" holds an 's', so the as-written filter turns every line away. */
  lemma CandidateAsWrittenNone(raw: string)
    ensures Candidate(raw, AsWritten) == None
  {
    var line := Trim(raw);
    if Contains(line, DISK_STRING) {
      ContainsAt(DISK_STRING, "s", 1);
      ContainsTransitive(line, DISK_STRING, "s");
    }
  }

  /** As written, the scan finds no identifier in any listing. */
  lemma DiskIdsAsWrittenEmpty(stdout: string)
    ensures DiskIds(stdout, AsWritten) == []
  {
    var lines := Lines(stdout);
    var f := CandidateMatcher(AsWritten);
    FilterMapSound(lines, f);
    forall i | 0 <= i < |lines| ensures f(lines[i]) == None {
      CandidateAsWrittenNone(lines[i]);
    }
  }

  /** A whole-disk identifier: "disk", then no 's' (so no slice suffix), and no '<'. */
  predicate WholeDiskId(id: string) {
    StartsWith(id, DISK) && !Contains(id[|DISK|..], "s") && '<' !in id
  }

  /** Corrected, the identifiers are distinct, and an identifier is found exactly when some line yields it. */
  lemma {:induction false} IdsOfLinesCorrected(lines: seq<string>)
    ensures forall i, j | 0 <= i < j < |IdsOfLines(lines, Corrected)| :: IdsOfLines(lines, Corrected)[i] != IdsOfLines(lines, Corrected)[j]
    ensures forall id :: id in IdsOfLines(lines, Corrected) <==>
      exists i | 0 <= i < |lines| :: Candidate(lines[i], Corrected) == Some(id)
  {
    DedupFilterMap(lines, CandidateMatcher(Corrected));
  }

  /** Corrected, the identifiers of a listing are distinct, and an identifier is found exactly when some line of it yields it. */
  lemma {:induction false} DiskIdsCorrected(stdout: string)
    ensures forall i, j | 0 <= i < j < |DiskIds(stdout, Corrected)| :: DiskIds(stdout, Corrected)[i] != DiskIds(stdout, Corrected)[j]
    ensures forall id :: id in DiskIds(stdout, Corrected) <==>
      exists i | 0 <= i < |Lines(stdout)| :: Candidate(Lines(stdout)[i], Corrected) == Some(id)
  {
    IdsOfLinesCorrected(Lines(stdout));
  }

  /** Corrected, every identifier found names a whole disk. */
  lemma {:induction false} DiskIdsWholeDisks(stdout: string)
    ensures forall id | id in DiskIds(stdout, Corrected) :: WholeDiskId(id)
  {
    var lines := Lines(stdout);
    var f := CandidateMatcher(Corrected);
    forall i | 0 <= i < |lines| && f(lines[i]).Some? ensures WholeDiskId(f(lines[i]).value) {
      CandidateShape(lines[i], Corrected);
    }
    DedupFilterMapAll(lines, f, WholeDiskId);
  }

  /** The element `<string>id</string>` of a listing: the identifier is cut out whole. */
  lemma CutIdOfElement(id: string)
    requires StartsWith(id, DISK) && '<' !in id
    ensures CutId("<string>" + id + "</string>") == Some(id)
  {
    var line := "<string>" + id + "</string>";
    var t := line[8..];
    assert t == id + "</string>";
    assert line[8..][..4] == id[..4];
    forall j | 0 <= j < 8 ensures !StartsWith(line[j..], DISK) {
      assert line[j..][0] == line[j] == "<string>"[j];
    }
    FindAt(line, DISK, 8);
    assert t[|id|..] == "</string>";
    forall j | 0 <= j < |id| ensures !StartsWith(t[j..], "<") {
      assert t[j..][0] == t[j] == id[j];
    }
    FindAt(t, "<", |id|);
    assert t[..|id|] == id;
  }

  /** Corrected, the element `<string>id</string>` yields `id` unless a slice number follows its "disk". */
  lemma CandidateOfLine(id: string)
    requires StartsWith(id, DISK) && '<' !in id
    ensures Candidate("<string>" + id + "</string>", Corrected) ==
      if Contains(id[|DISK|..], "s") then None else Some(id)
  {
    var line := "<string>" + id + "</string>";
    TrimUnchanged(line);
    assert line[0..][..|DISK_STRING|] == DISK_STRING;
    ContainsAt(line, DISK_STRING, 0);
    CutIdOfElement(id);
  }

  /** Corrected, the element of a whole disk, "disk" and then a unit number such as "disk4", yields its identifier. */
  lemma WholeDiskElement(id: string)
    requires StartsWith(id, DISK) && |id| > |DISK| && AllDigits(id[|DISK|..])
    ensures Candidate("<string>" + id + "</string>", Corrected) == Some(id)
  {
    var unit := id[|DISK|..];
    forall i | 0 <= i < |id| ensures id[i] != '<' {
      if i >= |DISK| {
        assert id[i] == unit[i - |DISK|];
      } else {
        assert id[i] == DISK[i];
      }
    }
    assert 's' !in unit;
    ContainsChar(unit, 's');
    CandidateOfLine(id);
  }

  /** Corrected, the element of a slice, a unit number, 's' and a slice number such as "disk4s1", yields nothing. */
  lemma SliceElement(id: string, k: nat)
    requires StartsWith(id, DISK) && |DISK| < k < |id| && id[k] == 's'
    requires AllDigits(id[|DISK|..k]) && AllDigits(id[k + 1..])
    ensures Candidate("<string>" + id + "</string>", Corrected) == None
  {
    forall i | 0 <= i < |id| ensures id[i] != '<' {
      if i < |DISK| {
        assert id[i] == DISK[i];
      } else if i < k {
        assert id[i] == id[|DISK|..k][i - |DISK|];
      } else if i > k {
        assert id[i] == id[k + 1..][i - k - 1];
      }
    }
    assert id[|DISK|..][k - |DISK|..][..1] == "s";
    ContainsAt(id[|DISK|..], "s", k - |DISK|);
    CandidateOfLine(id);
  }

  // ---------------------------------------------------------------------------
  // The `diskutil info <id>` report
  // ---------------------------------------------------------------------------

  const DISK_SIZE := "Disk Size:"
  const VOLUME_NAME := "Volume Name:"
  const MOUNT_POINT := "Mount Point:"
  const REMOVABLE_MEDIA := "Removable Media:"
  const PROTOCOL := "Protocol:"
  const NO_FILE_SYSTEM := "Not applicable (no file system)"

  /** The five labels start with five different letters, so a line starts with at most one of them. */
  lemma KeyFirstChars(line: string)
    ensures StartsWith(line, DISK_SIZE) ==> line != [] && line[0] == 'D'
    ensures StartsWith(line, VOLUME_NAME) ==> line != [] && line[0] == 'V'
    ensures StartsWith(line, MOUNT_POINT) ==> line != [] && line[0] == 'M'
    ensures StartsWith(line, REMOVABLE_MEDIA) ==> line != [] && line[0] == 'R'
    ensures StartsWith(line, PROTOCOL) ==> line != [] && line[0] == 'P'
  {
    if line != [] {
      assert StartsWith(line, DISK_SIZE) ==> line[..|DISK_SIZE|][0] == line[0];
    }
  }

  /**
   * What one report line means to the loop, decided by the first label its
   * trimmed text starts with, in the order the code tries them.
   */
  datatype LineValue =
    | SizeValue(bytes: Option<U64>)       // "Disk Size:", with the byte count if it reads as one
    | NameValue(volume: string)           // "Volume Name:", with the label to set
    | MountValue(mount: Option<string>)   // "Mount Point:", with the mount point to set, if any
    | RemovableValue(says: bool)          // "Removable Media:", with whether it says removable
    | ProtocolValue(usb: bool)            // "Protocol:", with whether it names USB
    | OtherValue

  /**
   * The byte count of a "Disk Size:" line: the text between the first '(' and
   * the first " Bytes", trimmed, as a u64. A line whose " Bytes" comes before
   * its '(' is one on which the code panics; it reads as nothing here.
   */
  function ByteCount(line: string): Option<U64> {
    match Find(line, "(")
    case None => None
    case Some(start) =>
      match Find(line, " Bytes")
      case None => None
      case Some(end) => if start + 1 <= end then ParseU64(Trim(line[start + 1..end])) else None
  }

  /** `line.replace(key, "").trim()` */
  function FieldValue(line: string, key: string): string
    requires key != []
  {
    Trim(ReplaceAll(line, key, ""))
  }

  /**
   * The value of one report line. A "Removable Media:" line says removable:
   * as written whenever the line contains "Removable", which every such line
   * does; corrected only when the text after the label contains it.
   */
  function Classify(raw: string, checks: Checks): LineValue {
    var line := Trim(raw);
    if StartsWith(line, DISK_SIZE) then SizeValue(ByteCount(line))
    else if StartsWith(line, VOLUME_NAME) then
      var v := FieldValue(line, VOLUME_NAME);
      NameValue(if v == NO_FILE_SYSTEM then "" else v)
    else if StartsWith(line, MOUNT_POINT) then
      var v := FieldValue(line, MOUNT_POINT);
      MountValue(if v != [] && v != NO_FILE_SYSTEM then Some(v) else None)
    else if StartsWith(line, REMOVABLE_MEDIA) then
      RemovableValue(if checks.AsWritten? then Contains(line, "Removable") else Contains(line[|REMOVABLE_MEDIA|..], "Removable"))
    else if StartsWith(line, PROTOCOL) then ProtocolValue(Contains(line, "USB"))
    else OtherValue
  }

  /** The values of the report lines, one per line. */
  function Classified(lines: seq<string>, checks: Checks): (vs: seq<LineValue>)
    ensures |vs| == |lines| && forall i | 0 <= i < |lines| :: vs[i] == Classify(lines[i], checks)
  {
    seq(|lines|, i requires 0 <= i < |lines| => Classify(lines[i], checks))
  }

  /** The size a line sets. */
  function SizeSet(v: LineValue): Option<U64> {
    if v.SizeValue? then v.bytes else None
  }

  /** The label a line sets. */
  function LabelSet(v: LineValue): Option<string> {
    if v.NameValue? then Some(v.volume) else None
  }

  /** The mount point a line sets. */
  function MountSet(v: LineValue): Option<string> {
    if v.MountValue? then v.mount else None
  }

  /** The line marks the disk removable: a "Removable Media:" line that says so, or a "Protocol:" line naming USB. */
  predicate Marks(v: LineValue) {
    (v.RemovableValue? && v.says) || (v.ProtocolValue? && v.usb)
  }

  /**
   * What `get_macos_disk_info` returns, field by field: size, label and mount
   * point are those of the last line that sets them (0, "" and none
   * otherwise), and the disk is reported when some line marks it removable
   * and its size is not 0. `None` for a report that could not be obtained.
   */
  function DiskInfo(diskId: string, info: Option<string>, checks: Checks): Option<DriveInfo> {
    if info.None? then None
    else
      var vs := Classified(Lines(info.value), checks);
      var size := UnwrapOr(LastSome(vs, SizeSet), 0);
      if (exists j | 0 <= j < |vs| :: Marks(vs[j])) && size > 0 then
        Some(DriveInfo(diskId, "/dev/" + diskId, LastSome(vs, MountSet), UnwrapOr(LastSome(vs, LabelSet), ""), size))
      else None
  }

  /** The four variables the report loop updates. */
  datatype Report = Report(sizeBytes: U64, volumeLabel: string, mountPoint: Option<string>, isRemovable: bool)

  /** One pass of the report loop over a line of value `v`. */
  function ReadLine(st: Report, v: LineValue): Report {
    match v
    case SizeValue(b) => if b.Some? then st.(sizeBytes := b.value) else st
    case NameValue(l) => st.(volumeLabel := l)
    case MountValue(m) => if m.Some? then st.(mountPoint := m) else st
    case RemovableValue(says) => if says then st.(isRemovable := true) else st
    case ProtocolValue(usb) => if usb then st.(isRemovable := true) else st
    case OtherValue => st
  }

  /** The variables after the loop has read lines of values `vs`, from size 0, label "", no mount point, not removable. */
  function ReadAll(vs: seq<LineValue>): Report {
    if vs == [] then Report(0, "", None, false)
    else ReadLine(ReadAll(vs[..|vs| - 1]), vs[|vs| - 1])
  }

  /**
   * After the loop every variable holds what the last line setting it gave
   * (or its initial value), and the flag is set exactly when some line marks
   * the disk removable: no later line clears it.
   */
  lemma {:induction false} ReadAllKeepsLast(vs: seq<LineValue>)
    ensures ReadAll(vs).sizeBytes == UnwrapOr(LastSome(vs, SizeSet), 0)
    ensures ReadAll(vs).volumeLabel == UnwrapOr(LastSome(vs, LabelSet), "")
    ensures ReadAll(vs).mountPoint == LastSome(vs, MountSet)
    ensures ReadAll(vs).isRemovable <==> exists j | 0 <= j < |vs| :: Marks(vs[j])
  {
    if vs != [] {
      var n := |vs| - 1;
      var init := vs[..n];
      ReadAllKeepsLast(init);
      LastSomeStep(vs, n, SizeSet);
      LastSomeStep(vs, n, LabelSet);
      LastSomeStep(vs, n, MountSet);
      assert vs[..n + 1] == vs;
      if ReadAll(vs).isRemovable && !Marks(vs[n]) {
        var j :| 0 <= j < n && Marks(init[j]);
        assert vs[j] == init[j];
      }
      if Marks(vs[n]) {
        assert ReadAll(vs).isRemovable;
      }
      if exists j | 0 <= j < n :: Marks(vs[j]) {
        var j :| 0 <= j < n && Marks(vs[j]);
        assert init[j] == vs[j];
      }
    }
  }

  /** A "Removable Media:" line contains "Removable", whatever its value. */
  lemma RemovableMediaSaysRemovable(line: string)
    requires StartsWith(line, REMOVABLE_MEDIA)
    ensures Contains(line, "Removable")
  {
    assert line[0..] == line;
    assert line[..9] == REMOVABLE_MEDIA[..9];
    ContainsAt(line, "Removable", 0);
  }

  /** As written, every "Removable Media:" line marks the disk removable, whatever it says. */
  lemma RemovableMediaAlwaysMarks(raw: string)
    requires Classify(raw, AsWritten).RemovableValue?
    ensures Marks(Classify(raw, AsWritten))
  {
    KeyFirstChars(Trim(raw));
    RemovableMediaSaysRemovable(Trim(raw));
  }

  /** The slice between '(' and " Bytes" of a "Disk Size:" line is in order, so the code does not panic on it. */
  predicate SizeLineSafe(line: string) {
    StartsWith(line, DISK_SIZE) && Find(line, "(").Some? && Find(line, " Bytes").Some? ==>
      Find(line, "(").value + 1 <= Find(line, " Bytes").value
  }

  /** No "Disk Size:" line of the report makes the code panic. */
  predicate ReportSafe(info: Option<string>) {
    info.Some? ==> forall raw | raw in Lines(info.value) :: SizeLineSafe(Trim(raw))
  }

  /** One pass of the loop of `get_macos_disk_info`: the trimmed line updates the variable its label names. */
  method ReadReportLine(raw: string, checks: Checks, st: Report) returns (next: Report)
    requires SizeLineSafe(Trim(raw))
    ensures next == ReadLine(st, Classify(raw, checks))
  {
    var sizeBytes, volumeLabel, mountPoint, isRemovable := st.sizeBytes, st.volumeLabel, st.mountPoint, st.isRemovable;
    var line := Trim(raw);
    KeyFirstChars(line);

    if StartsWith(line, DISK_SIZE) {
      var start := Find(line, "(");
      if start.Some? {
        var end := Find(line, " Bytes");
        if end.Some? {
          var parsed := ParseU64(Trim(line[start.value + 1..end.value]));
          if parsed.Some? {
            sizeBytes := parsed.value;
          }
        }
      }
    } else if StartsWith(line, VOLUME_NAME) {
      volumeLabel := Trim(ReplaceAll(line, VOLUME_NAME, ""));
      if volumeLabel == NO_FILE_SYSTEM {
        volumeLabel := "";
      }
    } else if StartsWith(line, MOUNT_POINT) {
      var mp := Trim(ReplaceAll(line, MOUNT_POINT, ""));
      if mp != [] && mp != NO_FILE_SYSTEM {
        mountPoint := Some(mp);
      }
    } else if StartsWith(line, REMOVABLE_MEDIA) {
      match checks
      case AsWritten =>
        RemovableMediaSaysRemovable(line);
        isRemovable := Contains(line, "Removable");
      case Corrected =>
        isRemovable := isRemovable || Contains(line[|REMOVABLE_MEDIA|..], "Removable");
    } else if StartsWith(line, PROTOCOL) {
      if Contains(line, "USB") {
        isRemovable := true;
      }
    }
    next := Report(sizeBytes, volumeLabel, mountPoint, isRemovable);
  }

  /** `get_macos_disk_info`: one pass over the report lines updating four variables, then the removable-and-sized check. */
  method GetMacosDiskInfo(diskId: string, info: Option<string>, checks: Checks) returns (r: Option<DriveInfo>)
    requires ReportSafe(info)
    ensures r == DiskInfo(diskId, info, checks)
  {
    if info.None? {
      return None;
    }
    var lines := Lines(info.value);
    ghost var vs := Classified(lines, checks);
    var st := Report(0, "", None, false);

    for i := 0 to |lines|
      invariant st == ReadAll(vs[..i])
    {
      assert vs[..i + 1][..i] == vs[..i];
      assert lines[i] in lines;
      st := ReadReportLine(lines[i], checks, st);
    }
    assert vs[..|lines|] == vs;
    ReadAllKeepsLast(vs);

    if st.isRemovable && st.sizeBytes > 0 {
      r := Some(DriveInfo(diskId, "/dev/" + diskId, st.mountPoint, st.volumeLabel, st.sizeBytes));
    } else {
      r := None;
    }
  }

  /** "Removable Media: Fixed" marks a disk removable as written, and not once corrected. */
  lemma FixedMediaExample()
    ensures Classify("Removable Media: Fixed", AsWritten) == RemovableValue(true)
    ensures Classify("Removable Media: Fixed", Corrected) == RemovableValue(false)
  {
    var line := "Removable Media: Fixed";
    TrimUnchanged(line);
    KeyFirstChars(line);
    assert line[..|REMOVABLE_MEDIA|] == REMOVABLE_MEDIA;
    RemovableMediaSaysRemovable(line);
    assert line[|REMOVABLE_MEDIA|..] == " Fixed";
    FindIsFirst(" Fixed", "Removable");
  }

  /**
   * A reported disk is named by its identifier, lives at "/dev/<id>", and has
   * the size of the last "Disk Size:" line that reads as a number, which is
   * not 0; a disk no line marks removable, or whose report cannot be read, is
   * not reported.
   */
  lemma DiskInfoShape(diskId: string, info: Option<string>, checks: Checks)
    ensures info.None? ==> DiskInfo(diskId, info, checks).None?
    ensures info.Some? && (forall i | 0 <= i < |Lines(info.value)| :: !Marks(Classify(Lines(info.value)[i], checks))) ==>
      DiskInfo(diskId, info, checks).None?
    ensures DiskInfo(diskId, info, checks).Some? ==>
      && DiskInfo(diskId, info, checks).value.name == diskId
      && DiskInfo(diskId, info, checks).value.devicePath == "/dev/" + diskId
      && DiskInfo(diskId, info, checks).value.sizeBytes > 0
      && exists i | 0 <= i < |Lines(info.value)| ::
           && SizeSet(Classify(Lines(info.value)[i], checks)) == Some(DiskInfo(diskId, info, checks).value.sizeBytes)
           && forall j | i < j < |Lines(info.value)| :: SizeSet(Classify(Lines(info.value)[j], checks)).None?
  {
    if DiskInfo(diskId, info, checks).Some? {
      var lines := Lines(info.value);
      var vs := Classified(lines, checks);
      LastSomeIsLast(vs, SizeSet);
      var i :| 0 <= i < |vs| && SizeSet(vs[i]) == LastSome(vs, SizeSet) && forall j | i < j < |vs| :: SizeSet(vs[j]).None?;
      assert SizeSet(Classify(lines[i], checks)) == Some(DiskInfo(diskId, info, checks).value.sizeBytes);
    }
  }

  /** The correction only drops disks: what it still reports is reported as written too, unchanged. */
  lemma CorrectedOnlyDrops(diskId: string, info: Option<string>)
    ensures DiskInfo(diskId, info, Corrected).Some? ==> DiskInfo(diskId, info, AsWritten) == DiskInfo(diskId, info, Corrected)
  {
    if info.Some? {
      var lines := Lines(info.value);
      var cs, ws := Classified(lines, Corrected), Classified(lines, AsWritten);
      forall i | 0 <= i < |lines|
        ensures SizeSet(cs[i]) == SizeSet(ws[i]) && LabelSet(cs[i]) == LabelSet(ws[i]) && MountSet(cs[i]) == MountSet(ws[i])
        ensures Marks(cs[i]) ==> Marks(ws[i])
      {
        CheckedAlike(lines[i]);
      }
      LastSomeAlike(cs, ws, SizeSet);
      LastSomeAlike(cs, ws, LabelSet);
      LastSomeAlike(cs, ws, MountSet);
      if DiskInfo(diskId, info, Corrected).Some? {
        var i :| 0 <= i < |cs| && Marks(cs[i]);
        assert Marks(ws[i]);
      }
    }
  }

  /** The two versions read a line alike, except that as written a "Removable Media:" line always marks the disk. */
  lemma CheckedAlike(raw: string)
    ensures SizeSet(Classify(raw, Corrected)) == SizeSet(Classify(raw, AsWritten))
    ensures LabelSet(Classify(raw, Corrected)) == LabelSet(Classify(raw, AsWritten))
    ensures MountSet(Classify(raw, Corrected)) == MountSet(Classify(raw, AsWritten))
    ensures Marks(Classify(raw, Corrected)) ==> Marks(Classify(raw, AsWritten))
  {
    KeyFirstChars(Trim(raw));
    if Classify(raw, AsWritten).RemovableValue? {
      RemovableMediaAlwaysMarks(raw);
    }
  }

  /** Two sequences of line values that set the same field line by line end with the same last value. */
  lemma {:induction false} LastSomeAlike<U>(xs: seq<LineValue>, ys: seq<LineValue>, f: LineValue -> Option<U>)
    requires |xs| == |ys| && forall i | 0 <= i < |xs| :: f(xs[i]) == f(ys[i])
    ensures LastSome(xs, f) == LastSome(ys, f)
  {
    if xs != [] {
      var n := |xs| - 1;
      LastSomeAlike(xs[..n], ys[..n], f);
    }
  }

  /** A "Volume Name:" line with a plain label sets that label; "Not applicable (no file system)" sets "". */
  lemma VolumeNameOfLabel(v: string, checks: Checks)
    requires v != [] && !IsWhitespace(v[0]) && !IsWhitespace(v[|v| - 1]) && !Contains(v, VOLUME_NAME)
    ensures Classify(VOLUME_NAME + " " + v, checks) == NameValue(if v == NO_FILE_SYSTEM then "" else v)
  {
    var line := VOLUME_NAME + " " + v;
    TrimUnchanged(line);
    KeyFirstChars(line);
    assert line[0] == 'V';
    assert line[..|VOLUME_NAME|] == VOLUME_NAME;
    ReplaceAllAfterPrefix(VOLUME_NAME, v);
  }

  /** A "Mount Point:" line with a plain path sets that path; "Not applicable (no file system)" sets nothing. */
  lemma MountPointOfPath(v: string, checks: Checks)
    requires v != [] && !IsWhitespace(v[0]) && !IsWhitespace(v[|v| - 1]) && !Contains(v, MOUNT_POINT)
    ensures Classify(MOUNT_POINT + " " + v, checks) == MountValue(if v == NO_FILE_SYSTEM then None else Some(v))
  {
    var line := MOUNT_POINT + " " + v;
    TrimUnchanged(line);
    KeyFirstChars(line);
    assert line[0] == 'M';
    assert line[..|MOUNT_POINT|] == MOUNT_POINT;
    ReplaceAllAfterPrefix(MOUNT_POINT, v);
  }

  /** Removing the label `pat` from "<pat> <v>" leaves " <v>", which trims to `v`. */
  lemma ReplaceAllAfterPrefix(pat: string, v: string)
    requires pat != [] && pat[0] != ' ' && !Contains(v, pat)
    requires v != [] && !IsWhitespace(v[0]) && !IsWhitespace(v[|v| - 1])
    ensures Trim(ReplaceAll(pat + " " + v, pat, "")) == v
  {
    var line := pat + " " + v;
    assert line[..|pat|] == pat;
    assert line[|pat|..] == " " + v;
    ContainsCons(' ', v, pat);
    ReplaceAllAbsent(" " + v, pat, "");
    assert ReplaceAll(line, pat, "") == " " + v;
    assert TrimStart(" " + v) == TrimStart(v);
  }

  // ---------------------------------------------------------------------------
  // Enumeration
  // ---------------------------------------------------------------------------

  function InfoMatcher(infos: string -> Option<string>, checks: Checks): string -> Option<DriveInfo> {
    id => DiskInfo(id, infos(id), checks)
  }

  /** What the backend returns: the reported disks among the listed identifiers, in listing order. */
  function MacDrives(listing: Option<string>, infos: string -> Option<string>, checks: Checks): seq<DriveInfo> {
    if listing.None? then [] else FilterMap(DiskIds(listing.value, checks), InfoMatcher(infos, checks))
  }

  /** `get_removable_drives` on macOS: scan the listing, then ask `diskutil info` about each identifier. */
  method GetRemovableDrives(listing: Option<string>, infos: string -> Option<string>, checks: Checks)
    returns (drives: seq<DriveInfo>)
    requires listing.Some? ==> forall id | id in DiskIds(listing.value, checks) :: ReportSafe(infos(id))
    ensures drives == MacDrives(listing, infos, checks)
  {
    drives := [];
    if listing.None? {
      return;
    }
    var ids := ScanDiskIds(listing.value, checks);
    ghost var f := InfoMatcher(infos, checks);
    for i := 0 to |ids|
      invariant drives == FilterMap(ids[..i], f)
    {
      FilterMapStep(ids, i, f);
      assert ids[i] in ids;
      var driveInfo := GetMacosDiskInfo(ids[i], infos(ids[i]), checks);
      if driveInfo.Some? {
        drives := drives + [driveInfo.value];
      }
    }
    assert ids[..|ids|] == ids;
  }

  /** As written, the backend never reports a disk. */
  lemma MacDrivesAsWrittenEmpty(listing: Option<string>, infos: string -> Option<string>)
    ensures MacDrives(listing, infos, AsWritten) == []
  {
    if listing.Some? {
      DiskIdsAsWrittenEmpty(listing.value);
    }
  }

  /** A report the backend keeps describes the disk it was asked about and has a size. */
  lemma DiskInfoNamed(diskId: string, info: Option<string>, checks: Checks)
    ensures DiskInfo(diskId, info, checks).Some? ==>
      && DiskInfo(diskId, info, checks).value.name == diskId
      && DiskInfo(diskId, info, checks).value.devicePath == "/dev/" + diskId
      && DiskInfo(diskId, info, checks).value.sizeBytes > 0
  {
  }

  /** Corrected, every reported disk is a listed whole disk, named after its identifier, with a size. */
  lemma MacDrivesCorrectedShape(listing: string, infos: string -> Option<string>)
    ensures forall d | d in MacDrives(Some(listing), infos, Corrected) ::
      && d.name in DiskIds(listing, Corrected) && WholeDiskId(d.name)
      && d.devicePath == "/dev/" + d.name && d.sizeBytes > 0
  {
    var ids := DiskIds(listing, Corrected);
    var f := InfoMatcher(infos, Corrected);
    DiskIdsWholeDisks(listing);
    FilterMapSound(ids, f);
    forall d | d in MacDrives(Some(listing), infos, Corrected)
      ensures d.name in ids && d.devicePath == "/dev/" + d.name && d.sizeBytes > 0
    {
      var k :| 0 <= k < |FilterMap(ids, f)| && FilterMap(ids, f)[k] == d;
      var i :| 0 <= i < |ids| && f(ids[i]) == Some(d);
      DiskInfoNamed(ids[i], infos(ids[i]), Corrected);
    }
  }

  /** Corrected, no disk is reported twice. */
  lemma MacDrivesCorrectedDistinct(listing: string, infos: string -> Option<string>)
    ensures var ds := MacDrives(Some(listing), infos, Corrected);
      forall k, l | 0 <= k < l < |ds| :: ds[k].name != ds[l].name
  {
    var ids := DiskIds(listing, Corrected);
    var f := InfoMatcher(infos, Corrected);
    DiskIdsCorrected(listing);
    forall i | 0 <= i < |ids| && f(ids[i]).Some?
      ensures f(ids[i]).value.name == ids[i]
    {
      DiskInfoNamed(ids[i], infos(ids[i]), Corrected);
    }
    FilterMapDistinctBy(ids, f, (d: DriveInfo) => d.name);
  }

  /** Every listed identifier whose report describes a removable disk with a size is reported. */
  lemma MacDrivesComplete(listing: string, infos: string -> Option<string>, checks: Checks)
    ensures forall id | id in DiskIds(listing, checks) && DiskInfo(id, infos(id), checks).Some? ::
      DiskInfo(id, infos(id), checks).value in MacDrives(Some(listing), infos, checks)
  {
    var ids := DiskIds(listing, checks);
    FilterMapComplete(ids, InfoMatcher(infos, checks));
  }
}
