/**
 * The renderer's state and event handlers: the three parameter inputs, the
 * status panel, the status message line, and the paths fetched at start-up.
 * The main process is reached through the handlers of `MainProcess`, which
 * act on the shared file-system oracle.
 */
module Renderer {
  import opened Wrappers
  import opened FsOracle
  import opened ParamValidator
  import opened MainProcess
  import opened StatusDisplay

  datatype MessageKind = Info | Success | Error

  /** The status message line: its text and its style. */
  datatype StatusMessage = StatusMessage(text: string, kind: MessageKind)

  /** The status area: the "could not load status data" notice, or the rows. */
  datatype StatusPanel = Unavailable | Rows(rows: seq<Row>)

  datatype ParamKind = Workload | Period | Deadline

  const ReadNotFoundText := "Error: /proc/avionics_status not found." + " Is the kernel module loaded?"

  /** The message for a failed read of the status file. */
  function ReadErrorText(error: string, code: Option<string>): string {
    if code == Some("ENOENT") then ReadNotFoundText
    else "Error reading /proc/avionics_status: " + error + "."
  }

  /** The explanation shown for a failed parameter write. */
  function WriteErrorDetail(error: string, code: Option<string>, path: string): string {
    if code == Some("ENOENT") then
      "Parameter file not found. Is the kernel module loaded? (Path: " + path + ")"
    else if code == Some("EACCES") then
      "Permission denied. Try running with sudo/administrator privileges. (Path: " + path + ")"
    else error
  }

  function WriteErrorText(paramName: string, path: string, error: string, code: Option<string>): string {
    "Error setting " + paramName + ": " + WriteErrorDetail(error, code, path)
  }

  /** The not-found text is shown exactly for ENOENT, whatever the error's message. */
  lemma ReadErrorTextIdentifiesNotFound(error: string, code: Option<string>)
    ensures ReadErrorText(error, code) == ReadNotFoundText <==> code == Some("ENOENT")
  {
    if code != Some("ENOENT") {
      var head := "Error reading /proc/avionics_status: ";
      assert ReadErrorText(error, code) == head + (error + ".");
      assert (head + (error + "."))[5] == head[5] == ' ';
      assert ReadNotFoundText[5] == ':';
    }
  }

  /** The not-found and permission hints are told apart, for every path. */
  lemma WriteErrorHintsDiffer(error: string, path: string)
    ensures WriteErrorDetail(error, Some("ENOENT"), path) != WriteErrorDetail(error, Some("EACCES"), path)
  {
    var notFound := "Parameter file not found. Is the kernel module loaded? (Path: ";
    var denied := "Permission denied. Try running with sudo/administrator privileges. (Path: ";
    assert WriteErrorDetail(error, Some("ENOENT"), path) == notFound + (path + ")");
    assert WriteErrorDetail(error, Some("EACCES"), path) == denied + (path + ")");
    assert |notFound| != |denied|;
  }

  /** The message of the renderer's own check, made before anything is sent. */
  function PreCheckError(paramName: string): string {
    "Error: " + paramName + " must be a positive number."
  }

  /** The name each button passes for its parameter. */
  function ParamLabel(kind: ParamKind): string {
    match kind
    case Workload => "Simulated Workload"
    case Period => "Task Period"
    case Deadline => "Task Deadline"
  }

  function NotLoadedText(kind: ParamKind): string {
    match kind
    case Workload => "Workload path not loaded."
    case Period => "Period path not loaded."
    case Deadline => "Deadline path not loaded."
  }

  /** The path a button writes to, if the paths have been fetched. */
  function PathFor(paths: Option<ParamPaths>, kind: ParamKind): Option<string> {
    match paths
    case None => None
    case Some(p) =>
      Some(match kind
           case Workload => p.workload
           case Period => p.period
           case Deadline => p.deadline)
  }

  /** The display raises exactly when some line of the status text is keyed `hasOwnProperty`. */
  lemma DisplayRaisesIff(text: string, lines: seq<string>)
    requires lines == JsString.Split(text, '\n')
    ensures HasOwnPropertyKey in StatusParser.StatusMap(text) <==>
            exists j :: 0 <= j < |lines| && StatusParser.KeyedBy(lines[j], HasOwnPropertyKey)
  {
    assert HasOwnPropertyKey != StatusParser.ProtoKey by {
      assert HasOwnPropertyKey[0] == 'h' != StatusParser.ProtoKey[0];
    }
    StatusParser.ParsedKeys(lines, HasOwnPropertyKey);
    assert StatusParser.StatusMap(text) == StatusParser.ParseLines(lines);
  }

  /** The message `updateData` shows for an exception it caught. */
  function IpcReadErrorText(error: string): string {
    "IPC Error reading proc file: " + error
  }

  class StatusView {
    const fs: FileSystem
    var paramPaths: Option<ParamPaths>
    var workloadInput: string
    var periodInput: string
    var deadlineInput: string
    var panel: StatusPanel
    var message: StatusMessage

    constructor (fs: FileSystem)
      ensures this.fs == fs && paramPaths == None
      ensures workloadInput == [] && periodInput == [] && deadlineInput == []
      ensures panel == Rows([]) && message == StatusMessage([], Info)
    {
      this.fs := fs;
      paramPaths := None;
      workloadInput, periodInput, deadlineInput := [], [], [];
      panel := Rows([]);
      message := StatusMessage([], Info);
    }

    function InputOf(kind: ParamKind): string
      reads this
    {
      match kind
      case Workload => workloadInput
      case Period => periodInput
      case Deadline => deadlineInput
    }

    /** The inputs that were empty are filled from `data`. */
    ghost predicate InputsFilled(data: map<string, string>, workload0: string, period0: string, deadline0: string)
      reads this
    {
      && workloadInput == FillInput(workload0, data, "CurrentWorkloadMS")
      && periodInput == FillInput(period0, data, "PeriodMS")
      && deadlineInput == FillInput(deadline0, data, "DeadlineMS")
    }

    /**
     * The view after a refresh that got `outcome`, starting from the given
     * inputs and message. A read text fills the empty inputs; then either its
     * rows are shown and the message kept, or, when the dictionary has a
     * `hasOwnProperty` entry, the display raised and the caught TypeError is
     * reported on a cleared panel. A failed read clears the panel and reports
     * the read error, with the inputs kept.
     */
    ghost predicate Refreshed(outcome: ReadOutcome, workload0: string, period0: string, deadline0: string,
                              message0: StatusMessage)
      reads this
    {
      match outcome
      case Contents(text) =>
        var data := StatusParser.StatusMap(text);
        && InputsFilled(data, workload0, period0, deadline0)
        && if HasOwnPropertyKey in data then
             panel == Unavailable && message == StatusMessage(IpcReadErrorText(HasOwnPropertyTypeError), Error)
           else
             panel == Rows(StatusRows(data)) && message == message0
      case ReadFailed(e) =>
        && panel == Unavailable
        && workloadInput == workload0 && periodInput == period0 && deadlineInput == deadline0
        && message == StatusMessage(ReadErrorText(e.message, e.code), Error)
    }

    /**
     * What setting a parameter does: the renderer's check, the validator, at
     * most one write, and after a successful write exactly one refresh.
     */
    twostate predicate SetParamEffect(path: string, value: string, paramName: string, nonPositive: bool)
      reads this, fs
    {
      && paramPaths == old(paramPaths)
      && if value == [] || nonPositive then
           && fs.readLog == old(fs.readLog) && fs.writeLog == old(fs.writeLog)
           && Untouched() && message == StatusMessage(PreCheckError(paramName), Error)
         else if !IsPositiveIntegerText(value) then
           && fs.readLog == old(fs.readLog) && fs.writeLog == old(fs.writeLog)
           && Untouched()
           && message == StatusMessage(WriteErrorText(paramName, path, InvalidValueError(paramName), None), Error)
         else
           && |fs.writeLog| == |old(fs.writeLog)| + 1
           && fs.writeLog[..|old(fs.writeLog)|] == old(fs.writeLog)
           && fs.LastWrite().path == path && fs.LastWrite().data == value
           && match fs.LastWrite().outcome
              case None =>
                && |fs.readLog| == |old(fs.readLog)| + 1
                && fs.readLog[..|old(fs.readLog)|] == old(fs.readLog)
                && fs.LastRead().path == ProcFilePath
                && Refreshed(fs.LastRead().outcome, old(workloadInput), old(periodInput), old(deadlineInput),
                             StatusMessage(SetMessage(paramName, value), Success))
              case Some(e) =>
                && fs.readLog == old(fs.readLog)
                && Untouched()
                && message == StatusMessage(WriteErrorText(paramName, path, e.message, e.code), Error)
    }

    /** The inputs and the panel are as they were. */
    twostate predicate Untouched()
      reads this
    {
      && workloadInput == old(workloadInput) && periodInput == old(periodInput)
      && deadlineInput == old(deadlineInput) && panel == old(panel)
    }

    /** `displayStatusMessage` */
    method DisplayStatusMessage(text: string, kind: MessageKind)
      modifies this
      ensures message == StatusMessage(text, kind)
      ensures paramPaths == old(paramPaths) && Untouched()
    {
      message := StatusMessage(text, kind);
    }

    /**
     * `updateStatusDisplay`: fills the empty inputs, clears the panel, then
     * lists the displayed keys in order. `thrown` is the TypeError raised by
     * `data.hasOwnProperty(key)` when the dictionary hides that method.
     */
    method UpdateStatusDisplay(data: Option<map<string, string>>) returns (thrown: Option<string>)
      modifies this
      ensures paramPaths == old(paramPaths) && message == old(message)
      ensures data.None? ==> thrown == None && panel == Unavailable && workloadInput == old(workloadInput)
                             && periodInput == old(periodInput) && deadlineInput == old(deadlineInput)
      ensures data.Some? ==> InputsFilled(data.value, old(workloadInput), old(periodInput), old(deadlineInput))
      ensures data.Some? && HasOwnPropertyKey in data.value ==>
                thrown == Some(HasOwnPropertyTypeError) && panel == Rows([])
      ensures data.Some? && HasOwnPropertyKey !in data.value ==>
                thrown == None && panel == Rows(StatusRows(data.value))
    {
      thrown := None;
      if data.None? {
        panel := Unavailable;
        return;
      }
      var d := data.value;
      // an empty input takes the status value under its key when that value is non-empty
      workloadInput := FillInput(workloadInput, d, "CurrentWorkloadMS");
      periodInput := FillInput(periodInput, d, "PeriodMS");
      deadlineInput := FillInput(deadlineInput, d, "DeadlineMS");
      panel := Rows([]);
      var rows;
      rows, thrown := DisplayRows(d);
      panel := Rows(rows);
      assert KeyOrder[..|KeyOrder|] == KeyOrder;
    }

    /**
     * `updateData`: one read of the status file, then the panel and message
     * follow its outcome; an exception from the display is caught here.
     */
    method UpdateData()
      modifies this, fs
      ensures fs.writeLog == old(fs.writeLog)
      ensures |fs.readLog| == |old(fs.readLog)| + 1 && fs.readLog[..|old(fs.readLog)|] == old(fs.readLog)
      ensures fs.LastRead().path == ProcFilePath
      ensures paramPaths == old(paramPaths)
      ensures Refreshed(fs.LastRead().outcome, old(workloadInput), old(periodInput), old(deadlineInput), old(message))
    {
      var result := ReadProcFile(fs);
      match result
      case ReadOk(data) =>
        var thrown := UpdateStatusDisplay(Some(data));
        if thrown.Some? {
          var cleared := UpdateStatusDisplay(None);
          DisplayStatusMessage(IpcReadErrorText(thrown.value), Error);
        }
      case ReadErr(error, code) =>
        var errorMessage := "Error reading /proc/avionics_status: " + error + ".";
        if code == Some("ENOENT") {
          errorMessage := ReadNotFoundText;
        }
        var cleared := UpdateStatusDisplay(None);
        DisplayStatusMessage(errorMessage, Error);
    }

    /**
     * `handleSetParam`. `nonPositive` is the outcome of the renderer's
     * numeric comparison `value <= 0`, whose number conversion is not
     * modelled; it is false for every value the validator accepts.
     */
    method HandleSetParam(paramPath: string, value: string, paramName: string, nonPositive: bool)
      requires IsPositiveIntegerText(value) ==> !nonPositive
      modifies this, fs
      ensures SetParamEffect(paramPath, value, paramName, nonPositive)
    {
      if value == [] || nonPositive {
        DisplayStatusMessage(PreCheckError(paramName), Error);
        return;
      }
      var result := WriteSysParam(fs, paramPath, value, paramName);
      match result
      case WriteOk(msg) =>
        DisplayStatusMessage(msg, Success);
        UpdateData();
      case WriteErr(error, code) =>
        var detailedError := error;
        if code == Some("EACCES") {
          detailedError := "Permission denied. Try running with sudo/administrator privileges. (Path: " + paramPath + ")";
        }
        if code == Some("ENOENT") {
          detailedError := "Parameter file not found. Is the kernel module loaded? (Path: " + paramPath + ")";
        }
        DisplayStatusMessage("Error setting " + paramName + ": " + detailedError, Error);
    }

    /** A click on one of the three set buttons: nothing is sent until the paths are loaded. */
    method ClickSet(kind: ParamKind, nonPositive: bool)
      requires IsPositiveIntegerText(InputOf(kind)) ==> !nonPositive
      modifies this, fs
      ensures PathFor(old(paramPaths), kind).Some? && PathFor(old(paramPaths), kind).value != [] ==>
                SetParamEffect(PathFor(old(paramPaths), kind).value, old(InputOf(kind)), ParamLabel(kind), nonPositive)
      ensures !(PathFor(old(paramPaths), kind).Some? && PathFor(old(paramPaths), kind).value != []) ==>
                && fs.readLog == old(fs.readLog) && fs.writeLog == old(fs.writeLog)
                && paramPaths == old(paramPaths) && Untouched()
                && message == StatusMessage(NotLoadedText(kind), Error)
    {
      var path := PathFor(paramPaths, kind);
      if path.Some? && path.value != [] {
        HandleSetParam(path.value, InputOf(kind), ParamLabel(kind), nonPositive);
      } else {
        DisplayStatusMessage(NotLoadedText(kind), Error);
      }
    }

    /** `fetchParamPaths`: the paths are taken from the main process, then the status is loaded once. */
    method FetchParamPaths()
      modifies this, fs
      ensures paramPaths == Some(GetParamPaths())
      ensures fs.writeLog == old(fs.writeLog)
      ensures |fs.readLog| == |old(fs.readLog)| + 1 && fs.readLog[..|old(fs.readLog)|] == old(fs.readLog)
      ensures fs.LastRead().path == ProcFilePath
      ensures Refreshed(fs.LastRead().outcome, old(workloadInput), old(periodInput), old(deadlineInput), old(message))
    {
      paramPaths := Some(GetParamPaths());
      UpdateData();
    }
  }
}
