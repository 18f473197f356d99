/** The record every discovery backend returns, one per removable volume. */
module DriveModel {
  import opened Wrappers

  /**
   * `DriveInfo`: a short platform name ("E:", "sdb", "disk2"), the raw device
   * path, the mount point if mounted, the volume label ("" when none) and the
   * capacity in bytes.
   */
  datatype DriveInfo = DriveInfo(
    name: string,
    devicePath: string,
    mountPath: Option<string>,
    volumeLabel: string,
    sizeBytes: U64)

  /**
   * `display_name`: "<name> (<gb> GB)" without a label and
   * "<name> - <label> (<gb> GB)" with one. `gbText` is the one-decimal
   * rendering of sizeBytes / 2^30, which is not modelled.
   */
  function DisplayName(d: DriveInfo, gbText: string): string {
    if d.volumeLabel == [] then d.name + " (" + gbText + " GB)"
    else d.name + " - " + d.volumeLabel + " (" + gbText + " GB)"
  }

  /** The unlabelled drive E: of exactly 1 GiB reads "E: (1.0 GB)"; labelled DATA it reads "E: - DATA (1.0 GB)". */
  lemma DisplayNameExamples()
    ensures DisplayName(DriveInfo("E:", "E:", None, "", 1073741824), "1.0") == "E: (1.0 GB)"
    ensures DisplayName(DriveInfo("E:", "E:", None, "DATA", 1073741824), "1.0") == "E: - DATA (1.0 GB)"
  {
  }
}
