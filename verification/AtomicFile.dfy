/** The write-to-temp, sync, rename idiom that the checkpoint store and the
    cutover phase both use to replace a file.

    A directory is two maps: the named files that anything may read, and the
    temporary files that only the writer knows about. A rename of content that
    was never fully written, or never flushed, leaves a torn file in place; the
    point of the idiom is that this cannot happen. */
module AtomicFile {
  import opened Prelude

  /** A named file is either whole or torn (truncated, or lost by a crash
      because it was renamed before it was flushed). */
  datatype File<+T> = Intact(value: T) | Torn

  /** A temporary file: what has been written to it, and whether it was flushed. */
  datatype Temp<+T> = Temp(written: Option<T>, synced: bool)

  /** The system calls of one atomic write, in order. */
  datatype Stage = CreateTemp | Write | Sync | Close | Rename

  /** What the environment does to one atomic write: nothing, fail one call,
      kill the process just before one call, or kill it just after the rename. */
  datatype Fault = NoFault | FailAt(stage: Stage) | KillAt(stage: Stage) | KillAfterRename

  datatype WriteResult = Written | WriteError | Killed

  /** Whether the new content ends up under the target name. */
  predicate Lands(fault: Fault) {
    fault.NoFault? || fault.KillAfterRename?
  }

  function ResultOf(fault: Fault): WriteResult {
    match fault
    case NoFault => Written
    case FailAt(_) => WriteError
    case KillAt(_) => Killed
    case KillAfterRename => Killed
  }

  class Dir<T(!new)> {
    var files: map<string, File<T>>
    var temps: map<string, Temp<T>>

    constructor ()
      ensures files == map[] && temps == map[]
    {
      files := map[];
      temps := map[];
    }

    /** Moves a temporary file over a name. */
    method RenameTemp(temp: string, path: string)
      requires temp in temps
      modifies this
      ensures temps == old(temps) - {temp}
      ensures files == old(files)[path := if old(temps)[temp].written.Some? && old(temps)[temp].synced
                                          then Intact(old(temps)[temp].written.value) else Torn]
    {
      var t := temps[temp];
      files := files[path := if t.written.Some? && t.synced then Intact(t.written.value) else Torn];
      temps := temps - {temp};
    }

    /** Replaces path by data through the temporary file temp, whose name
        os.CreateTemp guarantees to be unused. Whatever call fails and wherever
        the process dies, path holds its old content or all of the new one; an
        error means the old one. */
    method WriteAtomic(path: string, temp: string, data: T, fault: Fault) returns (r: WriteResult)
      requires temp !in temps
      modifies this
      ensures r == ResultOf(fault)
      ensures files == if Lands(fault) then old(files)[path := Intact(data)] else old(files)
      ensures r != Killed ==> temps == old(temps)
    {
      assert fault.FailAt? || fault.KillAt? ==>
          var s := fault.stage;
          s.CreateTemp? || s.Write? || s.Sync? || s.Close? || s.Rename?;
      if fault == KillAt(CreateTemp) { return Killed; }
      if fault == FailAt(CreateTemp) { return WriteError; }
      temps := temps[temp := Temp(None, false)];

      if fault == KillAt(Write) { return Killed; }
      if fault == FailAt(Write) {
        temps := temps - {temp};
        return WriteError;
      }
      temps := temps[temp := Temp(Some(data), false)];

      if fault == KillAt(Sync) { return Killed; }
      if fault == FailAt(Sync) {
        temps := temps - {temp};
        return WriteError;
      }
      temps := temps[temp := temps[temp].(synced := true)];

      if fault == KillAt(Close) { return Killed; }
      if fault == FailAt(Close) {
        temps := temps - {temp};
        return WriteError;
      }

      if fault == KillAt(Rename) { return Killed; }
      if fault == FailAt(Rename) {
        temps := temps - {temp};
        return WriteError;
      }
      RenameTemp(temp, path);
      if fault == KillAfterRename { return Killed; }
      return Written;
    }
  }
}
