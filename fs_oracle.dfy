/**
 * The file system as the bridge sees it: an oracle that answers each read
 * with the file's text or an error, and each write with success or an error.
 * The answers are not modelled; every call is recorded together with the
 * answer it got, so that callers can state what they did with it.
 */
module FsOracle {
  import opened Wrappers

  /** A Node.js file-system error: its `message` and its `code` (such as "ENOENT"), if any. */
  datatype FsError = FsError(message: string, code: Option<string>)

  datatype ReadOutcome = Contents(text: string) | ReadFailed(err: FsError)

  datatype ReadCall = ReadCall(path: string, outcome: ReadOutcome)

  /** A call of writeFile with its answer: `None` for success. */
  datatype WriteCall = WriteCall(path: string, data: string, outcome: Option<FsError>)

  class FileSystem {
    var readLog: seq<ReadCall>
    var writeLog: seq<WriteCall>

    /** The most recent read and write calls. */
    function LastRead(): ReadCall
      reads this
      requires readLog != []
    {
      readLog[|readLog| - 1]
    }

    function LastWrite(): WriteCall
      reads this
      requires writeLog != []
    {
      writeLog[|writeLog| - 1]
    }

    constructor ()
      ensures readLog == [] && writeLog == []
    {
      readLog, writeLog := [], [];
    }

    /** `fs.promises.readFile(path, 'utf8')`: any answer is possible. */
    method ReadFile(path: string) returns (outcome: ReadOutcome)
      modifies this
      ensures readLog == old(readLog) + [ReadCall(path, outcome)]
      ensures writeLog == old(writeLog)
    {
      outcome :| true;
      readLog := readLog + [ReadCall(path, outcome)];
    }

    /** `fs.promises.writeFile(path, data)`: any answer is possible. */
    method WriteFile(path: string, data: string) returns (outcome: Option<FsError>)
      modifies this
      ensures writeLog == old(writeLog) + [WriteCall(path, data, outcome)]
      ensures readLog == old(readLog)
    {
      outcome :| true;
      writeLog := writeLog + [WriteCall(path, data, outcome)];
    }
  }
}
