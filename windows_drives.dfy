/**
 * The Windows backend of `get_removable_drives`: every drive letter whose bit
 * is set in the logical-drive mask and whose drive type is "removable"
 * becomes an entry. The four Win32 queries are inputs.
 */
module WindowsDrives {
  import opened Wrappers
  import opened Text
  import opened Sequences
  import opened DriveModel

  /** `DRIVE_REMOVABLE`, the drive type of removable media. */
  const DRIVE_REMOVABLE: nat := 2

  /** The letters 'A'..'Z' the loop walks through. */
  const LETTER_COUNT: nat := 26

  /**
   * What the operating system answers, per root path such as "E:\":
   * `GetLogicalDrives` (bit i set when letter 'A'+i exists), `GetDriveTypeW`,
   * `GetVolumeInformationW` (the UTF-16 label buffer when the call succeeds)
   * and `GetDiskFreeSpaceExW` (the total size it leaves in `total_bytes`, 0
   * when it fails). `fromWide` is the UTF-16 to `String` conversion.
   */
  datatype Win32 = Win32(
    logicalDrives: bv32,
    driveType: string -> nat,
    volumeInformation: string -> Option<seq<bv16>>,
    totalBytes: string -> U64,
    fromWide: seq<bv16> -> string)

  /** The letter of bit `i`, `(b'A' + i) as char`. */
  function Letter(i: nat): (c: char)
    requires i < LETTER_COUNT
    ensures 'A' <= c <= 'Z' && c as int - 'A' as int == i
  {
    ('A' as int + i) as char
  }

  /** The root path "L:\". */
  function RootPath(letter: char): string {
    [letter, ':', '\\']
  }

  /** The drive name and device path "L:". */
  function DriveName(letter: char): string {
    [letter, ':']
  }

  /** `(drive_bits >> i) & 1 == 1` */
  predicate BitSet(bits: bv32, i: nat)
    requires i < LETTER_COUNT
  {
    (bits >> i) & 1 == 1
  }

  /** The position of the first NUL code unit of `buf`, or its length when it has none. */
  function NulPosition(buf: seq<bv16>): (k: nat)
    ensures k <= |buf| && (k < |buf| ==> buf[k] == 0)
    ensures forall j | 0 <= j < k :: buf[j] != 0
  {
    if buf == [] then 0
    else if buf[0] == 0 then 0
    else 1 + NulPosition(buf[1..])
  }

  /** The label: the buffer up to its first NUL when the volume query succeeds, "" when it fails. */
  function Label(w: Win32, root: string): string {
    match w.volumeInformation(root)
    case Some(buf) => w.fromWide(buf[..NulPosition(buf)])
    case None => ""
  }

  /** Bit `i` names a removable drive. */
  predicate Qualifies(w: Win32, i: nat)
    requires i < LETTER_COUNT
  {
    BitSet(w.logicalDrives, i) && w.driveType(RootPath(Letter(i))) == DRIVE_REMOVABLE
  }

  /** The entry pushed for letter `i`. */
  function EntryFor(w: Win32, i: nat): DriveInfo
    requires i < LETTER_COUNT
  {
    var letter := Letter(i);
    var root := RootPath(letter);
    DriveInfo(DriveName(letter), DriveName(letter), Some(root), Label(w, root), w.totalBytes(root))
  }

  /** The entries for the first `n` letters, in letter order. */
  function DrivesUpTo(w: Win32, n: nat): seq<DriveInfo>
    requires n <= LETTER_COUNT
  {
    if n == 0 then []
    else DrivesUpTo(w, n - 1) + (if Qualifies(w, n - 1) then [EntryFor(w, n - 1)] else [])
  }

  /** What the backend returns. */
  function WindowsDrives(w: Win32): seq<DriveInfo> {
    DrivesUpTo(w, LETTER_COUNT)
  }

  /** `get_removable_drives` on Windows: one pass over the 26 letters. */
  method GetRemovableDrives(w: Win32) returns (drives: seq<DriveInfo>)
    ensures drives == WindowsDrives(w)
  {
    drives := [];
    for i := 0 to LETTER_COUNT
      invariant drives == DrivesUpTo(w, i)
    {
      if BitSet(w.logicalDrives, i) {
        var letter := Letter(i);
        var rootPath := RootPath(letter);
        var driveType := w.driveType(rootPath);
        if driveType == DRIVE_REMOVABLE {
          var volumeLabel := "";
          var labelBuf := w.volumeInformation(rootPath);
          if labelBuf.Some? {
            var len := NulPosition(labelBuf.value);
            volumeLabel := w.fromWide(labelBuf.value[..len]);
          }
          var totalBytes := w.totalBytes(rootPath);
          drives := drives + [DriveInfo(DriveName(letter), DriveName(letter), Some(rootPath), volumeLabel, totalBytes)];
        }
      }
    }
  }

  /** Every entry for the first `n` letters is the entry of a removable drive among them, and every such drive has one. */
  lemma {:induction false} DrivesUpToMembers(w: Win32, n: nat)
    requires n <= LETTER_COUNT
    ensures forall d :: d in DrivesUpTo(w, n) <==> exists i | 0 <= i < n :: Qualifies(w, i) && d == EntryFor(w, i)
  {
    if n > 0 {
      DrivesUpToMembers(w, n - 1);
    }
  }

  /** The letters of the entries for the first `n` letters lie below the n-th one. */
  lemma {:induction false} DrivesUpToBelow(w: Win32, n: nat)
    requires n <= LETTER_COUNT
    ensures forall d | d in DrivesUpTo(w, n) :: |d.name| == 2 && d.name[0] as int < 'A' as int + n
  {
    if n > 0 {
      DrivesUpToBelow(w, n - 1);
    }
  }

  /** The entries for the first `n` letters come in strictly ascending letter order. */
  lemma {:induction false} DrivesUpToOrdered(w: Win32, n: nat)
    requires n <= LETTER_COUNT
    ensures forall k, l | 0 <= k < l < |DrivesUpTo(w, n)| ::
      |DrivesUpTo(w, n)[k].name| == 2 && |DrivesUpTo(w, n)[l].name| == 2 &&
      DrivesUpTo(w, n)[k].name[0] < DrivesUpTo(w, n)[l].name[0]
  {
    if n > 0 {
      DrivesUpToOrdered(w, n - 1);
      DrivesUpToBelow(w, n - 1);
      var prev := DrivesUpTo(w, n - 1);
      var ds := DrivesUpTo(w, n);
      forall k, l | 0 <= k < l < |ds|
        ensures |ds[k].name| == 2 && |ds[l].name| == 2 && ds[k].name[0] < ds[l].name[0]
      {
        assert ds[k] == prev[k];
        if l >= |prev| {
          assert prev[k] in prev;
          assert ds[l] == EntryFor(w, n - 1);
        } else {
          assert ds[l] == prev[l];
        }
      }
    }
  }


  /**
   * The entries are exactly those of the letters whose bit is set and whose
   * drive type is removable, in ascending letter order; each is named "L:",
   * lives at "L:" and is mounted at "L:\"; its label and size are what the
   * volume queries report.
   */
  lemma WindowsDrivesExactly(w: Win32)
    ensures forall d :: d in WindowsDrives(w) <==>
      exists i | 0 <= i < LETTER_COUNT :: Qualifies(w, i) && d == EntryFor(w, i)
    ensures forall k, l | 0 <= k < l < |WindowsDrives(w)| ::
      |WindowsDrives(w)[k].name| == 2 && |WindowsDrives(w)[l].name| == 2 &&
      WindowsDrives(w)[k].name[0] < WindowsDrives(w)[l].name[0]
  {
    DrivesUpToMembers(w, LETTER_COUNT);
    DrivesUpToOrdered(w, LETTER_COUNT);
    var ds := DrivesUpTo(w, LETTER_COUNT);
    assert WindowsDrives(w) == ds;
    forall k, l | 0 <= k < l < |WindowsDrives(w)|
      ensures |WindowsDrives(w)[k].name| == 2 && |WindowsDrives(w)[l].name| == 2 &&
        WindowsDrives(w)[k].name[0] < WindowsDrives(w)[l].name[0]
    {
      assert |ds[k].name| == 2 && |ds[l].name| == 2 && ds[k].name[0] < ds[l].name[0];
    }
  }

  /** Each entry is named after its letter, with the device path equal to the name and the root path as mount point. */
  lemma EntryShape(w: Win32, i: nat)
    requires i < LETTER_COUNT
    ensures var d := EntryFor(w, i);
      && d.name == d.devicePath == [Letter(i), ':']
      && d.mountPath == Some(d.name + "\\")
      && d.volumeLabel == Label(w, d.name + "\\")
      && d.sizeBytes == w.totalBytes(d.name + "\\")
  {
    assert DriveName(Letter(i)) + "\\" == RootPath(Letter(i));
  }

  /** The label is read from the part of the buffer before its first NUL; a failed query gives "". */
  lemma LabelStopsAtNul(w: Win32, root: string)
    ensures w.volumeInformation(root).None? ==> Label(w, root) == ""
    ensures w.volumeInformation(root).Some? ==>
      var buf := w.volumeInformation(root).value;
      exists k | 0 <= k <= |buf| ::
        && Label(w, root) == w.fromWide(buf[..k])
        && (k < |buf| ==> buf[k] == 0)
        && forall j | 0 <= j < k :: buf[j] != 0
  {
    if w.volumeInformation(root).Some? {
      var buf := w.volumeInformation(root).value;
      var k := NulPosition(buf);
      assert Label(w, root) == w.fromWide(buf[..k]);
    }
  }

  /** Size is not filtered: a removable drive that reports no size is still listed, with size 0. */
  lemma ZeroSizeListed(w: Win32, i: nat)
    requires i < LETTER_COUNT && Qualifies(w, i) && w.totalBytes(RootPath(Letter(i))) == 0
    ensures exists d | d in WindowsDrives(w) :: d.sizeBytes == 0 && d.name == [Letter(i), ':']
  {
    DrivesUpToMembers(w, LETTER_COUNT);
    assert EntryFor(w, i) in WindowsDrives(w);
  }

  /** A letter whose bit is clear, or whose drive is not removable, has no entry. */
  lemma OnlyRemovableListed(w: Win32, i: nat)
    requires i < LETTER_COUNT && !Qualifies(w, i)
    ensures forall d | d in WindowsDrives(w) :: d.name != [Letter(i), ':']
  {
    DrivesUpToMembers(w, LETTER_COUNT);
    forall d | d in WindowsDrives(w) ensures d.name != [Letter(i), ':'] {
      var j :| 0 <= j < LETTER_COUNT && Qualifies(w, j) && d == EntryFor(w, j);
      assert d.name[0] == Letter(j);
    }
  }
}
