/** The PID file: created exclusively, inspected, removed when stale, and created again. */
module PidFile {
  import opened Text
  import Timestamps

  function PidText(pid: int): string {
    IntText(pid) + "\n"
  }

  /** strconv.Atoi: an optional sign and decimal digits, in the range of a 64-bit int. */
  function Atoi(s: string): Option<int> {
    var signed := s != "" && (s[0] == '+' || s[0] == '-');
    var digits := if signed then s[1..] else s;
    if digits == "" || !AllDigits(digits) then None
    else
      var n: int := if signed && s[0] == '-' then -(Value(digits) as int) else Value(digits);
      if -INT64_LIMIT <= n < INT64_LIMIT then Some(n) else None
  }

  /** The process a file's text names, if any. */
  function ReadPid(text: string): (r: Option<int>)
    ensures r.Some? ==> 0 < r.value < INT64_LIMIT
  {
    var s := Timestamps.TrimSpace(text);
    match if s == "" then None else Atoi(s)
    case None => None
    case Some(pid) => if pid <= 0 then None else Some(pid)
  }

  predicate ValidPid(pid: int) {
    0 < pid < INT64_LIMIT
  }

  lemma TrimNewline(s: string)
    requires s != "" && AllDigits(s)
    ensures Timestamps.TrimSpace(s + "\n") == s
  {
    assert (s + "\n")[0] == s[0] && IsDigit(s[0]) && !Timestamps.IsSpace(s[0]);
    assert (s + "\n")[..|s|] == s;
    assert IsDigit(s[|s| - 1]) && !Timestamps.IsSpace(s[|s| - 1]);
  }

  /** A process reads back from its file exactly if it has a positive 64-bit PID; the empty file names nobody. */
  lemma PidRoundTrip(pid: int)
    ensures ReadPid(PidText(pid)) == Some(pid) <==> ValidPid(pid)
    ensures ValidPid(pid) <==> 0 < pid < 0x8000_0000_0000_0000
    ensures ReadPid("") == None
  {
    if ValidPid(pid) {
      TrimNewline(IntText(pid));
      ItoaValue(pid);
      assert IsDigit(IntText(pid)[0]);
    }
  }

  /** Exactly which texts name a process: digits, with a plus sign at most, worth a positive 64-bit number. */
  lemma ReadPidExactly(text: string, pid: int)
    ensures var s := Timestamps.TrimSpace(text);
            var digits := if s != "" && s[0] == '+' then s[1..] else s;
            ReadPid(text) == Some(pid) <==> digits != "" && AllDigits(digits) && Value(digits) == pid && 0 < pid < 0x8000_0000_0000_0000
  {
    hide Timestamps.TrimSpace;
    var s := Timestamps.TrimSpace(text);
    if s != "" && s[0] == '-' {
      assert !IsDigit(s[0]);
    }
  }

  // ---------------------------------------------------------------- acquiring

  /** Which system calls of one attempt to create the file succeed. */
  datatype Calls = Calls(open: bool, write: bool, close: bool, unlink: bool)

  const WORKING := Calls(true, true, true, true)

  datatype Outcome = Held | Exists | AlreadyRunning(pid: int) | Failed

  /** tryAcquire: the file afterwards, and what is reported. */
  function TryResult(file: Option<string>, pid: int, calls: Calls): (Option<string>, Outcome) {
    if !calls.open then (file, Failed)
    else if file.Some? then (file, Exists)
    else if !calls.write then (if calls.unlink then None else Some(""), Failed)
    else if !calls.close then (if calls.unlink then None else Some(PidText(pid)), Failed)
    else (Some(PidText(pid)), Held)
  }

  /** ReadPIDFile on a file that may be unreadable. */
  function ReadResult(file: Option<string>, readable: bool): Option<int> {
    if file.None? || !readable then None else ReadPid(file.value)
  }

  /** AcquirePIDFile, undisturbed by other processes. */
  function AcquireResult(file: Option<string>, pid: int, running: set<int>, dirOk: bool, first: Calls, readable: bool,
                         removable: bool, second: Calls): (Option<string>, Outcome)
  {
    if !dirOk then (file, Failed)
    else
      var (file', outcome) := TryResult(file, pid, first);
      if !outcome.Exists? then (file', outcome)
      else
        var owner := ReadResult(file, readable);
        if owner.Some? && owner.value in running then (file, AlreadyRunning(owner.value))
        else if !removable then (file, Failed)
        else TryResult(None, pid, second)
  }

  class PidDirectory {
    var file: Option<string>

    constructor ()
      ensures file == None
    {
      file := None;
    }

    method TryAcquire(pid: int, calls: Calls) returns (outcome: Outcome)
      modifies this
      ensures (file, outcome) == TryResult(old(file), pid, calls)
    {
      if !calls.open {
        return Failed;
      }
      if file.Some? {
        return Exists;
      }
      file := Some("");
      if !calls.write {
        RemoveFile(calls.unlink);
        return Failed;
      }
      file := Some(PidText(pid));
      if !calls.close {
        RemoveFile(calls.unlink);
        return Failed;
      }
      return Held;
    }

    method RemoveFile(unlink: bool)
      modifies this
      ensures file == if unlink then None else old(file)
    {
      if unlink {
        file := None;
      }
    }

    method ReadPIDFile(readable: bool) returns (pid: Option<int>)
      ensures pid == ReadResult(file, readable)
    {
      if file.None? || !readable {
        return None;
      }
      var pidStr := Timestamps.TrimSpace(file.value);
      if pidStr == "" {
        return None;
      }
      var n := Atoi(pidStr);
      if n.None? || n.value <= 0 {
        return None;
      }
      return n;
    }

    method AcquirePIDFile(pid: int, running: set<int>, dirOk: bool, first: Calls, readable: bool, removable: bool, second: Calls)
      returns (outcome: Outcome)
      modifies this
      ensures (file, outcome) == AcquireResult(old(file), pid, running, dirOk, first, readable, removable, second)
    {
      hide ReadPid;
      if !dirOk {
        return Failed;
      }
      outcome := TryAcquire(pid, first);
      if !outcome.Exists? {
        return;
      }
      var owner := ReadPIDFile(readable);
      if owner.None? {
        RemoveFile(removable);
        if !removable {
          return Failed;
        }
        outcome := TryAcquire(pid, second);
        return;
      }
      if owner.value in running {
        return AlreadyRunning(owner.value);
      }
      RemoveFile(removable);
      if !removable {
        return Failed;
      }
      outcome := TryAcquire(pid, second);
    }
  }

  /** The closure handed to a holder: its first call removes the file, and further calls do nothing. */
  class Release {
    const directory: PidDirectory
    var released: bool

    constructor (directory: PidDirectory)
      ensures this.directory == directory && !released
    {
      this.directory := directory;
      released := false;
    }

    method Call(unlink: bool)
      modifies this, directory
      ensures released
      ensures directory.file == if old(released) || !unlink then old(directory.file) else None
    {
      if released {
        return;
      }
      released := true;
      directory.RemoveFile(unlink);
    }
  }

  /** When nothing fails, the lock is refused exactly if the file names a running process. */
  lemma AcquireSucceedsUnlessRunning(file: Option<string>, pid: int, running: set<int>)
    ensures var (file', outcome) := AcquireResult(file, pid, running, true, WORKING, true, true, WORKING);
            var owner := ReadResult(file, true);
            if owner.Some? && owner.value in running then file' == file && outcome == AlreadyRunning(owner.value)
            else file' == Some(PidText(pid)) && outcome == Held
  {
    hide ReadPid;
  }

  /** A try that fails leaves no file of its own behind if it can still remove it, and a directory that cannot be made ends it. */
  lemma FailedTryCleansUp(file: Option<string>, pid: int, calls: Calls)
    ensures var (file', outcome) := TryResult(file, pid, calls);
            && (outcome.Held? <==> calls.open && calls.write && calls.close && file == None)
            && (outcome.Exists? <==> calls.open && file != None)
            && (outcome.Held? ==> file' == Some(PidText(pid)))
            && (!outcome.Held? && calls.unlink ==> file' == file)
            && !outcome.AlreadyRunning?
  {
  }

  /** Whatever fails, a holder's own file is what is left behind, and a refusal leaves the file as it was. */
  lemma AcquireLeaves(file: Option<string>, pid: int, running: set<int>, dirOk: bool, first: Calls, readable: bool,
                      removable: bool, second: Calls)
    ensures var (file', outcome) := AcquireResult(file, pid, running, dirOk, first, readable, removable, second);
            && (outcome.Held? ==> file' == Some(PidText(pid)))
            && !outcome.Exists?
            && (!dirOk || !first.open ==> file' == file && outcome.Failed?)
            && (outcome.AlreadyRunning? ==> file' == file && outcome.pid in running)
            && (outcome.Failed? ==> file' in {file, None, Some(""), Some(PidText(pid))})
  {
    hide ReadPid;
  }
}
