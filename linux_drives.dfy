/**
 * The sysfs backend of drive discovery. The directory listings and file
 * contents it reads are parameters: the entries of /sys/block with the text
 * of their `removable` and `size` files, the text of /proc/mounts, and the
 * entries of /dev/disk/by-label with their symlink targets. `None` stands for
 * a directory or file that could not be read.
 */
module LinuxDrives {
  import opened Wrappers
  import opened Text
  import opened DriveModel
  import opened Sequences

  /** An entry of /sys/block: its name and the text of its `removable` and `size` files. */
  datatype BlockDevice = BlockDevice(name: string, removable: Option<string>, size: Option<string>)

  /** An entry of /dev/disk/by-label: its (escaped) file name and its symlink target. */
  datatype LabelLink = LabelLink(name: string, target: Option<string>)

  const SECTOR_SIZE: nat := 512

  /** Loopback, RAM-backed, compressed-RAM and device-mapper devices are never candidates. */
  predicate IsVirtualDevice(name: string) {
    StartsWith(name, "loop") || StartsWith(name, "ram") || StartsWith(name, "zram") || StartsWith(name, "dm-")
  }

  /** The `removable` file reads "1" once trimmed; an unreadable file means not removable. */
  predicate IsRemovableFlag(text: Option<string>) {
    text.Some? && Trim(text.value) == "1"
  }

  /** The sector count of the `size` file, if it is readable and parses as a u64. */
  function Sectors(text: Option<string>): Option<U64> {
    if text.None? then None else ParseU64(Trim(text.value))
  }

  /** The byte count `sectors * 512` does not overflow a u64. */
  predicate SizeFits(text: Option<string>) {
    Sectors(text).None? || Sectors(text).value * SECTOR_SIZE < U64_LIMIT
  }

  /** The capacity in bytes: 512 bytes per sector, or 0 when the size file is unreadable or does not parse. */
  function SizeBytes(text: Option<string>): (r: U64)
    requires SizeFits(text)
    ensures r % SECTOR_SIZE == 0
    ensures Sectors(text).None? ==> r == 0
    ensures Sectors(text).Some? ==> r / SECTOR_SIZE == Sectors(text).value
  {
    match Sectors(text)
    case Some(n) => n * SECTOR_SIZE
    case None => 0
  }

  /** The kernel writes the sector count in decimal followed by a line feed; that text gives 512 bytes per sector. */
  lemma {:induction false} SizeBytesOfSysfsText(n: nat)
    requires n * SECTOR_SIZE < U64_LIMIT
    ensures SizeFits(Some(Decimal(n) + "\n"))
    ensures SizeBytes(Some(Decimal(n) + "\n")) == n * SECTOR_SIZE
  {
    var d := Decimal(n);
    TrimLineFeed(d);
    ParseU64Decimal(n);
    assert Sectors(Some(d + "\n")) == Some(n);
  }

  /** A line of digits ended by a line feed trims to the digits. */
  lemma TrimLineFeed(d: string)
    requires d != [] && AllDigits(d)
    ensures Trim(d + "\n") == d
  {
    var text := d + "\n";
    assert IsDigit(text[0]) && IsDigit(d[|d| - 1]);
    assert TrimStart(text) == text;
    assert text[..|text| - 1] == d;
    assert TrimEnd(text) == TrimEnd(d);
  }

  /** The flag text "1\n" marks a removable device; "0\n" does not. */
  lemma RemovableFlagExamples()
    ensures IsRemovableFlag(Some("1\n"))
    ensures !IsRemovableFlag(Some("0\n"))
    ensures !IsRemovableFlag(None)
  {
    assert TrimEnd("1\n") == "1";
    assert TrimEnd("0\n") == "0";
  }

  // ---------------------------------------------------------------------------
  // Mount point lookup in /proc/mounts
  // ---------------------------------------------------------------------------

  /** A mount-table line (split into fields) mounts the device or a partition of it. */
  predicate MountLineMatches(parts: seq<string>, devicePath: string, deviceName: string) {
    |parts| >= 2 &&
    (StartsWith(parts[0], devicePath) ||
     StartsWith(parts[0], "/dev/" + deviceName + "p") ||
     StartsWith(parts[0], "/dev/" + deviceName + "1"))
  }

  /** The mount-table line `line` mounts the device or a partition of it. */
  predicate MountsDevice(line: string, devicePath: string, deviceName: string) {
    MountLineMatches(Fields(line), devicePath, deviceName)
  }

  /** The mount point a mount-table line gives for the device: its second field, if it mounts the device. */
  function MountOfLine(line: string, devicePath: string, deviceName: string): (r: Option<string>)
    ensures r.Some? <==> MountsDevice(line, devicePath, deviceName)
    ensures r.Some? ==> r.value == Fields(line)[1]
  {
    var parts := Fields(line);
    if MountLineMatches(parts, devicePath, deviceName) then Some(parts[1]) else None
  }

  function MountMatcher(devicePath: string, deviceName: string): string -> Option<string> {
    line => MountOfLine(line, devicePath, deviceName)
  }

  /** The mount point of the first line that mounts the device. */
  function MountFromTable(lines: seq<string>, devicePath: string, deviceName: string): Option<string> {
    FirstSome(lines, MountMatcher(devicePath, deviceName))
  }

  /**
   * The lookup finds a mount point exactly when some line mounts the device,
   * and then it is the second field of the first such line.
   */
  lemma MountFromTableFirstMatch(lines: seq<string>, devicePath: string, deviceName: string)
    ensures MountFromTable(lines, devicePath, deviceName).None? <==>
      forall i | 0 <= i < |lines| :: !MountsDevice(lines[i], devicePath, deviceName)
    ensures MountFromTable(lines, devicePath, deviceName).Some? ==> exists i | 0 <= i < |lines| ::
      && MountsDevice(lines[i], devicePath, deviceName)
      && MountFromTable(lines, devicePath, deviceName).value == Fields(lines[i])[1]
      && forall j | 0 <= j < i :: !MountsDevice(lines[j], devicePath, deviceName)
  {
    var f := MountMatcher(devicePath, deviceName);
    FirstSomeIsFirst(lines, f);
    assert forall i | 0 <= i < |lines| :: f(lines[i]) == MountOfLine(lines[i], devicePath, deviceName);
  }

  /** The mount point found in /proc/mounts, None when the table is unreadable. */
  function MountPoint(mounts: Option<string>, devicePath: string, deviceName: string): Option<string> {
    if mounts.None? then None else MountFromTable(Lines(mounts.value), devicePath, deviceName)
  }

  /**
   * With the device path "/dev/<name>" the `p` and `1` partition prefixes
   * are already covered: a line matches exactly when its source starts with
   * the device path.
   */
  lemma PartitionPrefixesSubsumed(parts: seq<string>, name: string)
    ensures MountLineMatches(parts, "/dev/" + name, name) <==>
      |parts| >= 2 && StartsWith(parts[0], "/dev/" + name)
  {
    var dp := "/dev/" + name;
    if |parts| >= 2 {
      var f := parts[0];
      if StartsWith(f, dp + "p") {
        assert f[..|dp|] == (dp + "p")[..|dp|];
      }
      if StartsWith(f, dp + "1") {
        assert f[..|dp|] == (dp + "1")[..|dp|];
      }
      assert "/dev/" + name + "p" == dp + "p";
      assert "/dev/" + name + "1" == dp + "1";
    }
  }

  // ---------------------------------------------------------------------------
  // Label lookup in /dev/disk/by-label
  // ---------------------------------------------------------------------------

  /** by-label file names encode a space as the four characters `\x20`. */
  function DecodeLabel(name: string): string {
    ReplaceAll(name, "\\x20", " ")
  }

  /** A decoded label holds no `\x20` any more. */
  lemma DecodeLabelRemovesEscapes(name: string)
    ensures !Contains(DecodeLabel(name), "\\x20")
  {
    ReplaceAllRemoves(name, "\\x20", ' ');
  }

  /** A label without `\x20` is returned as it is. */
  lemma DecodeLabelUnchanged(name: string)
    requires !Contains(name, "\\x20")
    ensures DecodeLabel(name) == name
  {
    ReplaceAllAbsent(name, "\\x20", " ");
  }

  /** "MY\x20DISK" decodes to "MY DISK". */
  lemma DecodeLabelExample()
    ensures DecodeLabel("MY\\x20DISK") == "MY DISK"
  {
    var s := "MY\\x20DISK";
    var pat := "\\x20";
    assert s[..4][0] != pat[0];
    assert s[1..][..4][0] != pat[0];
    assert s[2..][..4] == pat;
    assert s[6..] == "DISK";
    assert "DISK"[..4][0] != pat[0];
  }

  /** A by-label link whose target could be read and contains the device name. */
  predicate LinksTo(link: LabelLink, deviceName: string) {
    link.target.Some? && Contains(link.target.value, deviceName)
  }

  /** The label a by-label link gives for the device: its decoded name, if it points at the device. */
  function LabelOfLink(link: LabelLink, deviceName: string): (r: Option<string>)
    ensures r.Some? <==> LinksTo(link, deviceName)
    ensures r.Some? ==> r.value == DecodeLabel(link.name)
  {
    if LinksTo(link, deviceName) then Some(DecodeLabel(link.name)) else None
  }

  function LabelMatcher(deviceName: string): LabelLink -> Option<string> {
    link => LabelOfLink(link, deviceName)
  }

  /** The decoded name of the first link pointing at the device, "" when none does. */
  function LabelFromLinks(links: seq<LabelLink>, deviceName: string): string {
    match FirstSome(links, LabelMatcher(deviceName))
    case Some(l) => l
    case None => ""
  }

  /** The label is "" when no link points at the device, and the decoded name of the first link that does otherwise. */
  lemma LabelFromLinksFirstMatch(links: seq<LabelLink>, deviceName: string)
    ensures (forall i | 0 <= i < |links| :: !LinksTo(links[i], deviceName)) ==> LabelFromLinks(links, deviceName) == ""
    ensures (exists i | 0 <= i < |links| :: LinksTo(links[i], deviceName)) ==>
      exists i | 0 <= i < |links| ::
        && LinksTo(links[i], deviceName)
        && LabelFromLinks(links, deviceName) == DecodeLabel(links[i].name)
        && forall j | 0 <= j < i :: !LinksTo(links[j], deviceName)
  {
    var f := LabelMatcher(deviceName);
    FirstSomeIsFirst(links, f);
    assert forall i | 0 <= i < |links| :: f(links[i]) == LabelOfLink(links[i], deviceName);
  }

  /** The label found in /dev/disk/by-label, "" when the directory is unreadable. */
  function LabelOf(byLabel: Option<seq<LabelLink>>, deviceName: string): string {
    if byLabel.None? then "" else LabelFromLinks(byLabel.value, deviceName)
  }

  /** `find_linux_mount_info`: the first matching mount-table line, then the first by-label link to the device. */
  method FindLinuxMountInfo(devicePath: string, deviceName: string,
                            mounts: Option<string>, byLabel: Option<seq<LabelLink>>)
    returns (mountPath: Option<string>, volumeLabel: string)
    ensures mountPath == MountPoint(mounts, devicePath, deviceName)
    ensures volumeLabel == LabelOf(byLabel, deviceName)
  {
    mountPath := None;
    volumeLabel := "";

    if mounts.Some? {
      var lines := Lines(mounts.value);
      var i := 0;
      while i < |lines|
        invariant 0 <= i <= |lines|
        invariant mountPath == None
        invariant MountFromTable(lines[i..], devicePath, deviceName) == MountFromTable(lines, devicePath, deviceName)
      {
        FirstSomeSkip(lines, i, MountMatcher(devicePath, deviceName));
        var parts := Fields(lines[i]);
        if |parts| >= 2 {
          if StartsWith(parts[0], devicePath) ||
             StartsWith(parts[0], "/dev/" + deviceName + "p") ||
             StartsWith(parts[0], "/dev/" + deviceName + "1") {
            mountPath := Some(parts[1]);
            break;
          }
        }
        i := i + 1;
      }
    }

    if byLabel.Some? {
      var entries := byLabel.value;
      var i := 0;
      while i < |entries|
        invariant 0 <= i <= |entries|
        invariant volumeLabel == ""
        invariant FirstSome(entries[i..], LabelMatcher(deviceName)) == FirstSome(entries, LabelMatcher(deviceName))
      {
        FirstSomeSkip(entries, i, LabelMatcher(deviceName));
        match entries[i].target {
          case Some(target) =>
            if Contains(target, deviceName) {
              volumeLabel := entries[i].name;
              volumeLabel := ReplaceAll(volumeLabel, "\\x20", " ");
              break;
            }
          case None =>
        }
        i := i + 1;
      }
    }
  }

  // ---------------------------------------------------------------------------
  // Enumeration of /sys/block
  // ---------------------------------------------------------------------------

  /** The device survives the name filter and the removable check, so its size file is converted. */
  predicate ReachesSize(dev: BlockDevice) {
    !IsVirtualDevice(dev.name) && IsRemovableFlag(dev.removable)
  }

  /** No device that reaches the size conversion overflows it. */
  predicate SizesFit(devs: seq<BlockDevice>) {
    forall dev | dev in devs :: ReachesSize(dev) ==> SizeFits(dev.size)
  }

  /** The entry one /sys/block device contributes, if any. */
  function DriveFor(dev: BlockDevice, mounts: Option<string>, byLabel: Option<seq<LabelLink>>): (r: Option<DriveInfo>)
    requires ReachesSize(dev) ==> SizeFits(dev.size)
    ensures r.Some? <==> ReachesSize(dev) && SizeBytes(dev.size) > 0
    ensures r.Some? ==>
      && r.value.name == dev.name
      && r.value.devicePath == "/dev/" + dev.name
      && r.value.sizeBytes == SizeBytes(dev.size)
      && r.value.mountPath == MountPoint(mounts, "/dev/" + dev.name, dev.name)
      && r.value.volumeLabel == LabelOf(byLabel, dev.name)
  {
    if IsVirtualDevice(dev.name) then None
    else if !IsRemovableFlag(dev.removable) then None
    else
      var size := SizeBytes(dev.size);
      if size == 0 then None
      else
        var devicePath := "/dev/" + dev.name;
        Some(DriveInfo(dev.name, devicePath, MountPoint(mounts, devicePath, dev.name), LabelOf(byLabel, dev.name), size))
  }

  function DriveMatcher(mounts: Option<string>, byLabel: Option<seq<LabelLink>>): BlockDevice --> Option<DriveInfo> {
    dev requires ReachesSize(dev) ==> SizeFits(dev.size) => DriveFor(dev, mounts, byLabel)
  }

  /** The entries of the listed devices, in listing order. */
  function DrivesFrom(devs: seq<BlockDevice>, mounts: Option<string>, byLabel: Option<seq<LabelLink>>): seq<DriveInfo>
    requires SizesFit(devs)
  {
    FilterMap(devs, DriveMatcher(mounts, byLabel))
  }

  /** What the backend returns: nothing when /sys/block cannot be listed. */
  function LinuxDrives(sysBlock: Option<seq<BlockDevice>>, mounts: Option<string>, byLabel: Option<seq<LabelLink>>): seq<DriveInfo>
    requires sysBlock.Some? ==> SizesFit(sysBlock.value)
  {
    if sysBlock.None? then [] else DrivesFrom(sysBlock.value, mounts, byLabel)
  }

  /**
   * Every Linux entry has a positive size, the device path "/dev/<name>",
   * a name that is not a virtual device, and a removable flag file reading "1".
   */
  lemma LinuxDrivesShape(sysBlock: Option<seq<BlockDevice>>, mounts: Option<string>, byLabel: Option<seq<LabelLink>>)
    requires sysBlock.Some? ==> SizesFit(sysBlock.value)
    ensures forall d | d in LinuxDrives(sysBlock, mounts, byLabel) ::
      && d.sizeBytes > 0
      && d.devicePath == "/dev/" + d.name
      && !IsVirtualDevice(d.name)
      && exists i | 0 <= i < |sysBlock.value| :: sysBlock.value[i].name == d.name && IsRemovableFlag(sysBlock.value[i].removable)
  {
    if sysBlock.Some? {
      var devs, f := sysBlock.value, DriveMatcher(mounts, byLabel);
      FilterMapSound(devs, f);
      forall d | d in LinuxDrives(sysBlock, mounts, byLabel)
        ensures d.sizeBytes > 0 && d.devicePath == "/dev/" + d.name && !IsVirtualDevice(d.name)
        ensures exists i | 0 <= i < |devs| :: devs[i].name == d.name && IsRemovableFlag(devs[i].removable)
      {
        var k :| 0 <= k < |FilterMap(devs, f)| && FilterMap(devs, f)[k] == d;
        var i :| 0 <= i < |devs| && f(devs[i]) == Some(d);
        assert DriveFor(devs[i], mounts, byLabel) == Some(d);
      }
    }
  }

  /**
   * The entries are exactly those of the listed devices that contribute one,
   * and by `DriveFor` a device contributes exactly when its name is not
   * virtual, its flag reads "1" and its size is positive.
   */
  lemma {:induction false} LinuxDrivesExactly(sysBlock: Option<seq<BlockDevice>>, mounts: Option<string>, byLabel: Option<seq<LabelLink>>)
    requires sysBlock.Some? && SizesFit(sysBlock.value)
    ensures forall d :: d in LinuxDrives(sysBlock, mounts, byLabel) <==>
      exists i | 0 <= i < |sysBlock.value| :: DriveFor(sysBlock.value[i], mounts, byLabel) == Some(d)
  {
    var devs, f := sysBlock.value, DriveMatcher(mounts, byLabel);
    FilterMapMembers(devs, f);
    forall i | 0 <= i < |devs| ensures f(devs[i]) == DriveFor(devs[i], mounts, byLabel) {
      assert devs[i] in devs;
    }
  }

  /** `get_removable_drives` on Linux. */
  method GetRemovableDrives(sysBlock: Option<seq<BlockDevice>>, mounts: Option<string>, byLabel: Option<seq<LabelLink>>)
    returns (drives: seq<DriveInfo>)
    requires sysBlock.Some? ==> SizesFit(sysBlock.value)
    ensures drives == LinuxDrives(sysBlock, mounts, byLabel)
  {
    drives := [];
    if sysBlock.None? {
      return;
    }
    var entries := sysBlock.value;

    for i := 0 to |entries|
      invariant drives == DrivesFrom(entries[..i], mounts, byLabel)
    {
      FilterMapStep(entries, i, DriveMatcher(mounts, byLabel));
      assert entries[i] in entries;
      ghost var entry := DriveFor(entries[i], mounts, byLabel);
      assert DriveMatcher(mounts, byLabel)(entries[i]) == entry;
      var name := entries[i].name;

      if StartsWith(name, "loop") || StartsWith(name, "ram") || StartsWith(name, "zram") || StartsWith(name, "dm-") {
        assert entry == None;
        continue;
      }

      var isRemovable := false;
      if entries[i].removable.Some? {
        isRemovable := Trim(entries[i].removable.value) == "1";
      }
      if !isRemovable {
        assert entry == None;
        continue;
      }

      assert SizeFits(entries[i].size);
      var sizeBytes: U64 := 0;
      if entries[i].size.Some? {
        var sectors := ParseU64(Trim(entries[i].size.value));
        if sectors.Some? {
          sizeBytes := sectors.value * 512;
        }
      }
      assert sizeBytes == SizeBytes(entries[i].size);
      if sizeBytes == 0 {
        assert entry == None;
        continue;
      }

      var devicePath := "/dev/" + name;
      var mountPath, volumeLabel := FindLinuxMountInfo(devicePath, name, mounts, byLabel);

      drives := drives + [DriveInfo(name, devicePath, mountPath, volumeLabel, sizeBytes)];
      assert entry == Some(DriveInfo(name, devicePath, mountPath, volumeLabel, sizeBytes));
    }
    assert entries[..|entries|] == entries;
  }
}
