/** Replacing a file by writing a temporary file beside it and renaming (storage.go). */
module Storage {
  import opened Options

  /** A file holds a whole document or only the beginning of one. */
  datatype Content<+T> = Partial | Whole(value: T)

  /** The system calls of the write, in the order they are made. */
  datatype Step =
    | MakeDirectory | CreateTemp | SetMode | WriteData | SyncFile | CloseFile | Rename
    | OpenDirectory | SyncDirectory | CloseDirectory

  datatype WriteOutcome = Written | FailedBeforeRename | FailedAfterRename

  /** The call that fails, if any, and whether removing the temporary file fails after it. */
  datatype Fault = Fault(call: Option<Step>, leftover: bool)

  /** What a caller is left with. */
  function OutcomeOf(fault: Fault): WriteOutcome {
    match fault.call
    case None => Written
    case Some(step) =>
      match step
      case OpenDirectory | SyncDirectory | CloseDirectory => FailedAfterRename
      case _ => FailedBeforeRename
  }

  function Held<T>(files: map<string, Content<T>>, path: string): Option<Content<T>> {
    if path in files then Some(files[path]) else None
  }

  class Directory<T> {
    var files: map<string, Content<T>>

    constructor (initial: map<string, Content<T>>)
      ensures files == initial
    {
      files := initial;
    }

    /** `history` lists the directory after every system call, so also what a crash there
        would leave behind. The destination never holds anything but its old or its new
        content and no third file is touched. The temporary file stays only when the write
        fails before the rename and its removal, whose result nobody looks at, fails too. */
    method WriteFileAtomic(path: string, data: T, temp: string, fault: Fault)
      returns (ok: bool, ghost history: seq<map<string, Content<T>>>)
      requires temp !in files && temp != path
      modifies this
      ensures (ok <==> fault.call.None?) && (ok <==> OutcomeOf(fault).Written?)
      ensures files - {temp} ==
                if OutcomeOf(fault).FailedBeforeRename? then old(files) else old(files)[path := Whole(data)]
      ensures temp in files ==> OutcomeOf(fault).FailedBeforeRename? && fault.leftover
      ensures if OutcomeOf(fault).FailedBeforeRename? then Held(files, path) == old(Held(files, path))
              else Held(files, path) == Some(Whole(data))
      ensures forall h | h in history ::
                h - {temp} == old(files) - {temp} || h - {temp} == old(files)[path := Whole(data)] - {temp}
    {
      var call := fault.call;
      history := [files];
      if call == Some(MakeDirectory) || call == Some(CreateTemp) {
        assert files - {temp} == files;
        return false, history;
      }
      files := files[temp := Partial];
      history := history + [files];
      if call == Some(SetMode) || call == Some(WriteData) {
        RemoveTemp(temp, fault.leftover);
        return false, history + [files];
      }
      files := files[temp := Whole(data)];
      history := history + [files];
      if call == Some(SyncFile) || call == Some(CloseFile) || call == Some(Rename) {
        RemoveTemp(temp, fault.leftover);
        return false, history + [files];
      }
      files := files[path := files[temp]] - {temp};
      assert files == old(files)[path := Whole(data)];
      history := history + [files];
      return call.None?, history;
    }

    /** Tries to remove the temporary file; a failure is ignored. */
    method RemoveTemp(temp: string, leftover: bool)
      modifies this
      ensures files - {temp} == old(files) - {temp}
      ensures temp in files ==> leftover
    {
      if !leftover { files := files - {temp}; }
    }
  }
}
