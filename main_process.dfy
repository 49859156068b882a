/**
 * The main process's IPC handlers: `read-proc-file`, `write-sys-param` and
 * `get-param-paths`. Their replies are the plain objects sent back to the
 * renderer.
 */
module MainProcess {
  import opened Wrappers
  import opened FsOracle
  import opened StatusParser
  import opened ParamValidator

  const ProcFilePath := "/proc/avionics_status"
  const SysParamBasePath := "/sys/module/avionics_sim/parameters"
  const WorkloadPath := SysParamBasePath + "/simulated_workload_ms"
  const PeriodPath := SysParamBasePath + "/task_period_ms"
  const DeadlinePath := SysParamBasePath + "/task_deadline_ms"

  datatype ParamPaths = ParamPaths(workload: string, period: string, deadline: string)

  /** `{ success: true, data }` or `{ success: false, error, code }` */
  datatype ReadReply = ReadOk(data: map<string, string>) | ReadErr(error: string, code: Option<string>)

  /** `{ success: true, message }` or `{ success: false, error, code }` */
  datatype WriteReply = WriteOk(message: string) | WriteErr(error: string, code: Option<string>)

  /** `get-param-paths`: three distinct parameter files under the module's parameter directory. */
  function GetParamPaths(): (paths: ParamPaths)
    ensures paths.workload != paths.period && paths.period != paths.deadline
    ensures paths.workload != paths.deadline
    ensures paths.workload != [] && paths.period != [] && paths.deadline != []
  {
    ParamPaths(WorkloadPath, PeriodPath, DeadlinePath)
  }

  function InvalidValueError(paramName: string): string {
    paramName + " must be a positive integer."
  }

  function SetMessage(paramName: string, value: string): string {
    paramName + " set to " + value + " ms."
  }

  /**
   * `read-proc-file`: one read of the status file; its text is parsed, or the
   * error's message and code are passed back.
   */
  method ReadProcFile(fs: FileSystem) returns (reply: ReadReply)
    modifies fs
    ensures fs.writeLog == old(fs.writeLog)
    ensures |fs.readLog| == |old(fs.readLog)| + 1 && fs.readLog[..|old(fs.readLog)|] == old(fs.readLog)
    ensures fs.LastRead().path == ProcFilePath
    ensures reply == match fs.LastRead().outcome
                     case Contents(text) => ReadOk(StatusMap(text))
                     case ReadFailed(e) => ReadErr(e.message, e.code)
  {
    var outcome := fs.ReadFile(ProcFilePath);
    match outcome
    case Contents(text) =>
      var procData := ParseStatusText(text);
      reply := ReadOk(procData);
    case ReadFailed(e) =>
      reply := ReadErr(e.message, e.code);
  }

  /**
   * `write-sys-param`: a value the validator rejects is never written; an
   * accepted one is written once, unchanged, to `path`.
   */
  method WriteSysParam(fs: FileSystem, path: string, value: string, paramName: string) returns (reply: WriteReply)
    modifies fs
    ensures fs.readLog == old(fs.readLog)
    ensures !IsPositiveIntegerText(value) ==>
              fs.writeLog == old(fs.writeLog) && reply == WriteErr(InvalidValueError(paramName), None)
    ensures IsPositiveIntegerText(value) ==>
              && |fs.writeLog| == |old(fs.writeLog)| + 1
              && fs.writeLog[..|old(fs.writeLog)|] == old(fs.writeLog)
              && fs.LastWrite().path == path && fs.LastWrite().data == value
              && reply == match fs.LastWrite().outcome
                          case None => WriteOk(SetMessage(paramName, value))
                          case Some(e) => WriteErr(e.message, e.code)
  {
    if !IsPositiveIntegerText(value) {
      reply := WriteErr(InvalidValueError(paramName), None);
      return;
    }
    var outcome := fs.WriteFile(path, value);
    match outcome
    case None =>
      reply := WriteOk(SetMessage(paramName, value));
    case Some(e) =>
      reply := WriteErr(e.message, e.code);
  }
}
