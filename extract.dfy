/**
 * `extract_7z`: report progress on a channel, check the archive, make sure
 * the destination exists, drop the embedded 7-Zip tool into the temporary
 * directory, run it on the archive, remove it again and report the outcome.
 * The file system and the child process are replaced by their outcomes; the
 * channel and the files the call touches are a ghost record of effects.
 */
module Extract {
  import opened Wrappers
  import opened Text

  /** `ExtractProgress`, the events sent on the progress channel. */
  datatype ExtractProgress = Started | Extracting | Completed | Error(msg: string)

  /** The file name of the tool in the temporary directory. */
  const TOOL_FILE := "7zr_spruce.exe"

  /** The beginnings of the error messages, one per way the call can fail. */
  const NOT_FOUND: string := "Archive not found: "
  const CREATE_FAILED: string := "Failed to create destination directory: "
  const WRITE_FAILED: string := "Failed to extract 7z tool: "
  const EXIT_FAILED: string := "7z extraction failed:\n"
  const SPAWN_FAILED: string := "Failed to run 7z: "

  /** What the finished child process reports: whether its exit status is success, and its two outputs. */
  datatype Output = Output(success: bool, stdout: string, stderr: string)

  /**
   * The answers of the operating system during one call: whether the
   * archive and the destination exist, what `create_dir_all`, `fs::write`
   * of the tool and the child process return (an error carries its
   * message), whether a failed `fs::write` left a partly written tool file
   * behind (it creates the file before it writes to it), and whether
   * `remove_file` succeeds.
   */
  datatype Outcomes = Outcomes(
    archiveExists: bool,
    destExists: bool,
    createDir: Result<()>,
    writeTool: Result<()>,
    writeLeftFile: bool,
    run: Result<Output>,
    removeSucceeds: bool)

  /** One thing the call does to the world outside it. */
  datatype Effect =
    | Send(event: ExtractProgress)   // a progress event sent on the channel
    | CreateDir(path: string)        // `create_dir_all` of the destination
    | WriteTool                      // the tool written to the temporary directory
    | Spawn(args: seq<string>)       // an attempt to start the tool with these arguments
    | RemoveTool                     // `remove_file` of the tool

  /** A path as `{:?}` renders it: in double quotes. */
  function DebugPath(path: string): string {
    "\"" + path + "\""
  }

  /** The arguments the tool runs with: extract with full paths, the archive, the output directory, yes to all prompts. */
  function ToolArgs(archive: string, dest: string): (args: seq<string>)
    ensures |args| == 4
  {
    ["x", archive, "-o" + dest, "-y"]
  }

  /** The message of a run that exits with failure: a heading, then both outputs trimmed, one per line. */
  function FailureMessage(out: Output): string {
    EXIT_FAILED + Trim(out.stdout) + "\n" + Trim(out.stderr)
  }

  /** What one call does, in order, and what it returns. */
  datatype Run = Run(effects: seq<Effect>, result: Result<()>)

  /** The effects and the result of `extract_7z(archive, dest, tx)` when the world answers `o`. */
  function ExtractRun(archive: string, dest: string, o: Outcomes): Run {
    if !o.archiveExists then
      Run([Send(Started)], Err(NOT_FOUND + DebugPath(archive)))
    else
      var made := if o.destExists then [] else [CreateDir(dest)];
      if !o.destExists && o.createDir.Err? then
        Run([Send(Started)] + made, Err(CREATE_FAILED + o.createDir.msg))
      else
        var written := [Send(Started)] + made + [Send(Extracting), WriteTool];
        if o.writeTool.Err? then
          Run(written, Err(WRITE_FAILED + o.writeTool.msg))
        else
          var ran := written + [Spawn(ToolArgs(archive, dest)), RemoveTool];
          match o.run
          case Ok(out) =>
            if out.success then Run(ran + [Send(Completed)], Ok(()))
            else Run(ran + [Send(Error(FailureMessage(out)))], Err(FailureMessage(out)))
          case Err(e) =>
            Run(ran + [Send(Error(SPAWN_FAILED + e))], Err(SPAWN_FAILED + e))
  }

  /** The events among the effects, in the order they were sent. */
  function Events(effects: seq<Effect>): seq<ExtractProgress> {
    if effects == [] then []
    else Events(effects[..|effects| - 1]) + (if effects[|effects| - 1].Send? then [effects[|effects| - 1].event] else [])
  }

  /** `Completed` and `Error` end a run. */
  predicate Terminal(e: ExtractProgress) {
    e.Completed? || e.Error?
  }

  /** The call gets as far as writing the tool: the archive exists and the destination exists or was made. */
  predicate ReachesWrite(o: Outcomes) {
    o.archiveExists && (o.destExists || o.createDir.Ok?)
  }

  /** The tool was written, so the call goes on to run it. */
  predicate Wrote(o: Outcomes) {
    ReachesWrite(o) && o.writeTool.Ok?
  }

  /**
   * Whether a tool file is in the temporary directory after the call, given
   * whether one was there before: once written, the tool is gone exactly
   * when `remove_file` succeeds; a failed write returns without removing
   * anything, so what it left stays; a call that stops earlier leaves the
   * directory as it was.
   */
  function ToolLeft(o: Outcomes, before: bool): bool {
    if Wrote(o) then !o.removeSucceeds
    else if ReachesWrite(o) then before || o.writeLeftFile
    else before
  }

  /** An effect that is not a send adds no event. */
  lemma EventsSilent(a: seq<Effect>, e: Effect)
    requires !e.Send?
    ensures Events(a + [e]) == Events(a)
  {
    assert (a + [e])[..|a + [e]| - 1] == a;
  }

  /** A send adds its event at the end. */
  lemma EventsSent(a: seq<Effect>, p: ExtractProgress)
    ensures Events(a + [Send(p)]) == Events(a) + [p]
  {
    assert (a + [Send(p)])[..|a + [Send(p)]| - 1] == a;
  }

  /** The events up to and including the write of the tool: `Started`, then `Extracting`. */
  lemma {:induction false} WrittenEvents(dest: string, o: Outcomes)
    requires ReachesWrite(o)
    ensures Events([Send(Started)] + (if o.destExists then [] else [CreateDir(dest)]) + [Send(Extracting), WriteTool]) == [Started, Extracting]
  {
    var made: seq<Effect> := if o.destExists then [] else [CreateDir(dest)];
    var start: seq<Effect> := [Send(Started)];
    assert Events(start) == [Started] by { EventsSent([], Started); assert [] + [Send(Started)] == start; }
    assert Events(start + made) == [Started] by {
      if !o.destExists { EventsSilent(start, CreateDir(dest)); }
      else { assert start + made == start; }
    }
    EventsSent(start + made, Extracting);
    EventsSilent(start + made + [Send(Extracting)], WriteTool);
    assert start + made + [Send(Extracting), WriteTool] == start + made + [Send(Extracting)] + [WriteTool];
  }

  /** The archive check or the directory creation ends the call with `Started` as its only event. */
  lemma EarlyStopEvents(archive: string, dest: string, o: Outcomes)
    requires !ReachesWrite(o)
    ensures Events(ExtractRun(archive, dest, o).effects) == [Started]
  {
    EventsSent([], Started);
    assert [] + [Send(Started)] == [Send(Started)];
    if o.archiveExists {
      EventsSilent([Send(Started)], CreateDir(dest));
    }
  }

  /** A failed write of the tool ends the call with `Started, Extracting`. */
  lemma WriteFailedEvents(archive: string, dest: string, o: Outcomes)
    requires ReachesWrite(o) && !Wrote(o)
    ensures Events(ExtractRun(archive, dest, o).effects) == [Started, Extracting]
  {
    WrittenEvents(dest, o);
  }

  /** Running and removing the tool send nothing; the send after them adds its event. */
  lemma TailEvents(written: seq<Effect>, args: seq<string>, p: ExtractProgress)
    ensures Events(written + [Spawn(args), RemoveTool, Send(p)]) == Events(written) + [p]
  {
    EventsSilent(written, Spawn(args));
    EventsSilent(written + [Spawn(args)], RemoveTool);
    EventsSent(written + [Spawn(args)] + [RemoveTool], p);
    assert written + [Spawn(args)] + [RemoveTool] + [Send(p)] == written + [Spawn(args), RemoveTool, Send(p)];
  }

  /** Once the tool is written, the events are `Started, Extracting` and the send that ends the call. */
  lemma {:induction false} WroteEvents(archive: string, dest: string, o: Outcomes)
    requires Wrote(o)
    ensures ExtractRun(archive, dest, o).effects[|ExtractRun(archive, dest, o).effects| - 1].Send?
    ensures Events(ExtractRun(archive, dest, o).effects) ==
      [Started, Extracting, ExtractRun(archive, dest, o).effects[|ExtractRun(archive, dest, o).effects| - 1].event]
  {
    var effects := ExtractRun(archive, dest, o).effects;
    var made: seq<Effect> := if o.destExists then [] else [CreateDir(dest)];
    var written := [Send(Started)] + made + [Send(Extracting), WriteTool];
    var last := effects[|effects| - 1];
    assert effects == written + [Spawn(ToolArgs(archive, dest)), RemoveTool, last];
    WrittenEvents(dest, o);
    TailEvents(written, ToolArgs(archive, dest), last.event);
  }

  /** The send that ends a call that wrote the tool is `Completed` when it returns `Ok`, and `Error(m)` when it returns `Err(m)`. */
  lemma LastSend(archive: string, dest: string, o: Outcomes)
    requires Wrote(o)
    ensures ExtractRun(archive, dest, o).effects[|ExtractRun(archive, dest, o).effects| - 1] ==
      match ExtractRun(archive, dest, o).result
      case Ok(_) => Send(Completed)
      case Err(m) => Send(Error(m))
  {
  }

  /**
   * The progress events of every call: `Started` always comes first; the
   * archive check and the directory creation end the call with `Started`
   * alone; a failed write of the tool leaves `Started, Extracting`; once the
   * tool is written exactly one of `Completed` or `Error` follows, and
   * `Completed` is sent exactly when the call returns `Ok`, `Error(m)` exactly
   * when it returns `Err(m)`.
   */
  lemma ProgressEvents(archive: string, dest: string, o: Outcomes)
    ensures !ReachesWrite(o) ==> Events(ExtractRun(archive, dest, o).effects) == [Started]
    ensures ReachesWrite(o) && !Wrote(o) ==> Events(ExtractRun(archive, dest, o).effects) == [Started, Extracting]
    ensures Wrote(o) ==>
      Events(ExtractRun(archive, dest, o).effects) ==
        match ExtractRun(archive, dest, o).result
        case Ok(_) => [Started, Extracting, Completed]
        case Err(m) => [Started, Extracting, Error(m)]
  {
    if !ReachesWrite(o) {
      EarlyStopEvents(archive, dest, o);
    } else if !Wrote(o) {
      WriteFailedEvents(archive, dest, o);
    } else {
      WroteEvents(archive, dest, o);
      LastSend(archive, dest, o);
    }
  }

  /** Ok exactly when `Completed` was sent. */
  lemma OkIffCompleted(archive: string, dest: string, o: Outcomes)
    ensures ExtractRun(archive, dest, o).result.Ok? <==> Completed in Events(ExtractRun(archive, dest, o).effects)
  {
    ProgressEvents(archive, dest, o);
    var ev := Events(ExtractRun(archive, dest, o).effects);
    if Wrote(o) {
      assert ev == ev[..2] + [ev[2]];
    }
  }

  /** At most one `Completed` or `Error` is sent, and it is the last event. */
  lemma AtMostOneTerminal(archive: string, dest: string, o: Outcomes)
    ensures forall k | 0 <= k < |Events(ExtractRun(archive, dest, o).effects)| ::
      Terminal(Events(ExtractRun(archive, dest, o).effects)[k]) ==> k == 2 == |Events(ExtractRun(archive, dest, o).effects)| - 1
  {
    ProgressEvents(archive, dest, o);
    var ev := Events(ExtractRun(archive, dest, o).effects);
    if Wrote(o) {
      assert ev[0] == ev[..2][0] && ev[1] == ev[..2][1];
    }
  }

  /** A missing archive stops the call before it touches the file system, with `Started` sent and the path in the error. */
  lemma ArchiveMissing(archive: string, dest: string, o: Outcomes)
    requires !o.archiveExists
    ensures ExtractRun(archive, dest, o).effects == [Send(Started)]
    ensures ExtractRun(archive, dest, o).result == Err(NOT_FOUND + DebugPath(archive))
  {
  }

  /** A failed `create_dir_all` stops the call after `Started`, with the reason in the error and no `Error` event. */
  lemma CreateDirFailure(archive: string, dest: string, o: Outcomes)
    requires o.archiveExists && !o.destExists && o.createDir.Err?
    ensures ExtractRun(archive, dest, o).effects == [Send(Started), CreateDir(dest)]
    ensures ExtractRun(archive, dest, o).result == Err(CREATE_FAILED + o.createDir.msg)
  {
  }

  /** The destination is created exactly when the archive exists and the destination does not; nothing else is created. */
  lemma CreatesDestinationOnlyWhenMissing(archive: string, dest: string, o: Outcomes)
    ensures CreateDir(dest) in ExtractRun(archive, dest, o).effects <==> o.archiveExists && !o.destExists
    ensures forall e | e in ExtractRun(archive, dest, o).effects :: e.CreateDir? ==> e == CreateDir(dest)
  {
    var effects := ExtractRun(archive, dest, o).effects;
    if ReachesWrite(o) {
      var made: seq<Effect> := if o.destExists then [] else [CreateDir(dest)];
      var rest := [Send(Extracting), WriteTool] + if o.writeTool.Err? then [] else [Spawn(ToolArgs(archive, dest)), RemoveTool, effects[|effects| - 1]];
      assert effects == [Send(Started)] + made + rest;
      assert forall e | e in rest :: !e.CreateDir?;
    }
  }

  /** A failed write of the tool stops the call after `Extracting`, with the reason in the error: nothing runs and nothing is removed. */
  lemma WriteFailure(archive: string, dest: string, o: Outcomes)
    requires ReachesWrite(o) && o.writeTool.Err?
    ensures ExtractRun(archive, dest, o).result == Err(WRITE_FAILED + o.writeTool.msg)
    ensures forall e | e in ExtractRun(archive, dest, o).effects :: !e.Spawn? && !e.RemoveTool?
  {
  }

  /**
   * Starting the tool is attempted exactly when it was written, and then
   * exactly once, with the arguments `x`, the archive, `-o<dest>` and `-y`
   * in that order; its removal follows right after, whatever the outcome of
   * the attempt, and before the outcome is reported.
   */
  lemma {:induction false} ToolRunThenRemoved(archive: string, dest: string, o: Outcomes)
    ensures Wrote(o) <==> exists e | e in ExtractRun(archive, dest, o).effects :: e.Spawn?
    ensures Wrote(o) ==>
      && |ExtractRun(archive, dest, o).effects| >= 3
      && ExtractRun(archive, dest, o).effects[|ExtractRun(archive, dest, o).effects| - 3] == Spawn(["x", archive, "-o" + dest, "-y"])
      && ExtractRun(archive, dest, o).effects[|ExtractRun(archive, dest, o).effects| - 2] == RemoveTool
      && ExtractRun(archive, dest, o).effects[|ExtractRun(archive, dest, o).effects| - 1].Send?
    ensures forall k | 0 <= k < |ExtractRun(archive, dest, o).effects| ::
      ExtractRun(archive, dest, o).effects[k].Spawn? ==> k == |ExtractRun(archive, dest, o).effects| - 3
  {
    var effects := ExtractRun(archive, dest, o).effects;
    if Wrote(o) {
      var made: seq<Effect> := if o.destExists then [] else [CreateDir(dest)];
      var written := [Send(Started)] + made + [Send(Extracting), WriteTool];
      assert forall e | e in written :: !e.Spawn?;
      assert effects == written + [Spawn(ToolArgs(archive, dest)), RemoveTool, effects[|effects| - 1]];
      assert effects[|effects| - 3] in effects;
    } else if ReachesWrite(o) {
      WriteFailure(archive, dest, o);
    }
  }

  /**
   * How the run of the tool decides the result: an exit with success gives
   * `Ok`; an exit with failure gives the failure message built from both
   * outputs; a process that cannot be started gives "Failed to run 7z: "
   * and the reason. The event sent carries the same message.
   */
  lemma RunOutcome(archive: string, dest: string, o: Outcomes)
    requires Wrote(o)
    ensures o.run.Ok? && o.run.value.success ==> ExtractRun(archive, dest, o).result == Ok(())
    ensures o.run.Ok? && !o.run.value.success ==> ExtractRun(archive, dest, o).result == Err(FailureMessage(o.run.value))
    ensures o.run.Err? ==> ExtractRun(archive, dest, o).result == Err(SPAWN_FAILED + o.run.msg)
  {
  }

  /**
   * The tool file left after the call follows from the effects: a removal
   * decides it; without one, a write that was attempted adds what it left
   * to what was there before; without either, nothing changes.
   */
  lemma {:induction false} ToolStateFollowsEffects(archive: string, dest: string, o: Outcomes, before: bool)
    ensures ToolLeft(o, before) ==
      if RemoveTool in ExtractRun(archive, dest, o).effects then !o.removeSucceeds
      else if WriteTool in ExtractRun(archive, dest, o).effects then before || o.writeLeftFile
      else before
  {
    var effects := ExtractRun(archive, dest, o).effects;
    var made: seq<Effect> := if o.destExists then [] else [CreateDir(dest)];
    var written := [Send(Started)] + made + [Send(Extracting), WriteTool];
    if Wrote(o) {
      assert effects == written + [Spawn(ToolArgs(archive, dest)), RemoveTool, effects[|effects| - 1]];
      assert effects[|effects| - 2] == RemoveTool;
    } else if ReachesWrite(o) {
      assert effects == written;
      assert written[|written| - 1] == WriteTool;
      assert forall e | e in written :: !e.RemoveTool?;
    } else {
      assert forall e | e in effects :: e == Send(Started) || e == CreateDir(dest);
    }
  }

  /**
   * A write of the tool that fails after creating the file leaves a partial
   * tool file behind: the error return skips the removal.
   */
  lemma FailedWriteLeavesFile(archive: string, dest: string, o: Outcomes)
    requires ReachesWrite(o) && o.writeTool.Err? && o.writeLeftFile
    ensures ToolLeft(o, false)
    ensures RemoveTool !in ExtractRun(archive, dest, o).effects
  {
    WriteFailure(archive, dest, o);
  }

  /** A call that stops before the write leaves a tool file of an earlier call where it is. */
  lemma EarlyStopKeepsTool(archive: string, dest: string, o: Outcomes)
    requires !ReachesWrite(o)
    ensures ToolLeft(o, true)
    ensures forall e | e in ExtractRun(archive, dest, o).effects :: !e.WriteTool? && !e.RemoveTool?
  {
  }

  /**
   * The channel, the file system and the process table as seen by
   * `extract_7z`: the effects so far and whether the tool file is present.
   */
  class Host {
    ghost var trace: seq<Effect>
    ghost var toolPresent: bool

    constructor ()
      ensures trace == [] && !toolPresent
    {
      trace := [];
      toolPresent := false;
    }

    /**
     * `extract_7z`: the steps in the order the code takes them, with its
     * early returns. Each send appends an event whether or not anyone
     * receives it (the code ignores the send result); each file-system or
     * process step appends its effect and takes its outcome from `o`.
     */
    method Extract7z(archive: string, dest: string, o: Outcomes) returns (r: Result<()>)
      modifies this
      ensures trace == old(trace) + ExtractRun(archive, dest, o).effects
      ensures r == ExtractRun(archive, dest, o).result
      ensures toolPresent == ToolLeft(o, old(toolPresent))
    {
      if !o.archiveExists {
        trace := trace + [Send(Started)];
        return Err(NOT_FOUND + DebugPath(archive));
      }
      var made: seq<Effect> := [];
      if !o.destExists {
        made := [CreateDir(dest)];
        if o.createDir.Err? {
          trace := trace + ([Send(Started)] + made);
          return Err(CREATE_FAILED + o.createDir.msg);
        }
      }
      var written := [Send(Started)] + made + [Send(Extracting), WriteTool];
      if o.writeTool.Err? {
        if o.writeLeftFile {
          toolPresent := true;
        }
        trace := trace + written;
        return Err(WRITE_FAILED + o.writeTool.msg);
      }
      toolPresent := true;
      var outputArg := "-o" + dest;
      var result := o.run;
      var ran := written + [Spawn(["x", archive, outputArg, "-y"]), RemoveTool];
      if o.removeSucceeds {
        toolPresent := false;
      }
      var last: Effect;
      match result {
        case Ok(output) =>
          if output.success {
            last := Send(Completed);
            r := Ok(());
          } else {
            var errMsg := FailureMessage(output);
            last := Send(Error(errMsg));
            r := Err(errMsg);
          }
        case Err(e) =>
          var errMsg := SPAWN_FAILED + e;
          last := Send(Error(errMsg));
          r := Err(errMsg);
      }
      trace := trace + (ran + [last]);
    }

    /** `extract_7z_with_progress`, kept for older callers: the same call. */
    method Extract7zWithProgress(archive: string, dest: string, o: Outcomes) returns (r: Result<()>)
      modifies this
      ensures trace == old(trace) + ExtractRun(archive, dest, o).effects
      ensures r == ExtractRun(archive, dest, o).result
      ensures toolPresent == ToolLeft(o, old(toolPresent))
    {
      r := Extract7z(archive, dest, o);
    }
  }
}
