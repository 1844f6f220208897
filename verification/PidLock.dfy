/** The lock over whole runs: any number of processes, crashes and reused PIDs, with acquiring as one step. */
module PidLock {
  import opened Text
  import opened PidFile

  /** A release closure not called yet: the process it was given to, and which of its locks. */
  datatype Token = Token(pid: int, serial: nat)

  datatype State = State(file: Option<string>, running: set<int>, tokens: set<Token>, next: nat)

  const INITIAL := State(None, {}, {}, 0)

  datatype Faults = Faults(dirOk: bool, first: Calls, readable: bool, removable: bool, second: Calls)

  datatype Action =
    | Start(pid: int)
    | Exit(pid: int)
    | Acquire(pid: int, faults: Faults)
    | Release(token: Token, unlink: bool)

  predicate Enabled(s: State, a: Action) {
    match a
    case Start(pid) => ValidPid(pid) && pid !in s.running
    case Exit(pid) => pid in s.running
    case Acquire(pid, _) => pid in s.running
    case Release(token, _) => token.pid in s.running && token.serial < s.next
  }

  function AcquireIn(s: State, pid: int, f: Faults): (Option<string>, Outcome) {
    AcquireResult(s.file, pid, s.running, f.dirOk, f.first, f.readable, f.removable, f.second)
  }

  function Apply(s: State, a: Action): State {
    match a
    case Start(pid) => s.(running := s.running + {pid})
    case Exit(pid) => s.(running := s.running - {pid}, tokens := set t | t in s.tokens && t.pid != pid)
    case Acquire(pid, f) =>
      var (file, outcome) := AcquireIn(s, pid, f);
      if outcome.Held? then s.(file := file, tokens := s.tokens + {Token(pid, s.next)}, next := s.next + 1) else s.(file := file)
    case Release(token, unlink) =>
      if token !in s.tokens then s
      else s.(tokens := s.tokens - {token}, file := if unlink then None else s.file)
  }

  predicate Legal(s: State, acts: seq<Action>)
    decreases |acts|
  {
    acts == [] || (Enabled(s, acts[0]) && Legal(Apply(s, acts[0]), acts[1..]))
  }

  function Run(s: State, acts: seq<Action>): State
    decreases |acts|
  {
    if acts == [] then s else Run(Apply(s, acts[0]), acts[1..])
  }

  /** Every live holder's PID is in the file. */
  predicate HoldersNamed(s: State) {
    forall t :: t in s.tokens ==> t.pid in s.running && ValidPid(t.pid) && s.file == Some(PidText(t.pid))
  }

  predicate OneHolder(s: State) {
    forall t, u :: t in s.tokens && u in s.tokens ==> t == u
  }

  predicate Inv(s: State) {
    HoldersNamed(s) && OneHolder(s) && (forall p :: p in s.running ==> ValidPid(p)) && (forall t :: t in s.tokens ==> t.serial < s.next)
  }

  /** Acquiring is refused, or at least changes nothing, while a live process holds the lock and its file can be read. */
  lemma HolderKeepsFile(s: State, pid: int, f: Faults)
    requires Inv(s) && s.tokens != {} && f.readable
    ensures var (file, outcome) := AcquireIn(s, pid, f); file == s.file && !outcome.Held?
  {
    hide ReadPid;
    var t :| t in s.tokens;
    PidRoundTrip(t.pid);
  }

  /** An acquirer may not read a live holder's file in vain. */
  predicate ReadsHolder(s: State, a: Action) {
    a.Acquire? && s.tokens != {} ==> a.faults.readable
  }

  lemma StepKeepsInv(s: State, a: Action)
    requires Inv(s) && Enabled(s, a) && ReadsHolder(s, a)
    ensures Inv(Apply(s, a))
  {
    hide PidText, ReadPid;
    match a
    case Acquire(pid, f) =>
      if s.tokens != {} {
        HolderKeepsFile(s, pid, f);
      }
    case _ =>
  }

  predicate ReadsHolders(s: State, acts: seq<Action>)
    decreases |acts|
  {
    acts == [] || (ReadsHolder(s, acts[0]) && ReadsHolders(Apply(s, acts[0]), acts[1..]))
  }

  lemma {:induction false} RunKeepsInv(s: State, acts: seq<Action>)
    requires Inv(s) && Legal(s, acts) && ReadsHolders(s, acts)
    ensures Inv(Run(s, acts))
    decreases |acts|
  {
    hide Apply, Enabled, Inv, ReadsHolder;
    if acts != [] {
      StepKeepsInv(s, acts[0]);
      RunKeepsInv(Apply(s, acts[0]), acts[1..]);
    }
  }

  /**
   Under any sequence of starts, acquires, releases (repeated ones too), crashes and reuse of PIDs there
   is at most one live holder, and its PID is in the file, as long as no acquirer is denied a look at it.
   */
  lemma LockIsExclusive(acts: seq<Action>)
    requires Legal(INITIAL, acts) && ReadsHolders(INITIAL, acts)
    ensures var s := Run(INITIAL, acts);
            OneHolder(s) && HoldersNamed(s)
  {
    RunKeepsInv(INITIAL, acts);
  }

  /** An acquirer goes on to remove the file although a holder's PID is in it. */
  predicate TakesOver(s: State, a: Action) {
    a.Acquire? && s.tokens != {} && a.faults.dirOk && a.faults.first.open && !a.faults.readable && a.faults.removable
  }

  /**
   The holder itself, acquiring once more, fails only after writing the same text to a new file, and fails to
   remove that.
   */
  predicate LeavesSameText(s: State, a: Action) {
    && a.Acquire? && (exists t :: t in s.tokens && t.pid == a.pid)
    && a.faults.second == Calls(true, true, false, false)
  }

  lemma UnreadableFileIsLost(s: State, pid: int, f: Faults)
    requires Inv(s) && s.tokens != {} && ValidPid(pid)
    ensures var (file, outcome) := AcquireIn(s, pid, f);
            var a := Acquire(pid, f);
            (file == s.file && !outcome.Held?) <==> (!TakesOver(s, a) || LeavesSameText(s, a))
  {
    hide ReadPid;
    var t :| t in s.tokens;
    PidRoundTrip(t.pid);
    PidRoundTrip(pid);
    NotEmpty(t.pid);
    assert forall u :: u in s.tokens ==> u == t;
  }

  lemma NotEmpty(pid: int)
    ensures PidText(pid) != ""
  {
  }

  lemma AcquireChanges(s: State, pid: int, f: Faults)
    requires Inv(s) && s.tokens != {} && pid in s.running
    ensures var (file, outcome) := AcquireIn(s, pid, f);
            Inv(Apply(s, Acquire(pid, f))) <==> (file == s.file && !outcome.Held?)
  {
    hide PidText, ReadPid, AcquireIn;
    var s' := Apply(s, Acquire(pid, f));
    var t :| t in s.tokens;
    assert t in s'.tokens;
    if AcquireIn(s, pid, f).1.Held? {
      assert Token(pid, s.next) in s'.tokens && t.serial < s.next;
    }
  }

  /**
   One step breaks the lock exactly when it fails to read a live holder's file: any read error, not only
   bad contents, makes an acquirer remove the file. Nothing is broken only if the acquirer is the holder and
   leaves the same text behind without a second success.
   */
  lemma StepBreaksLockExactly(s: State, a: Action)
    requires Inv(s) && Enabled(s, a)
    ensures Inv(Apply(s, a)) <==> (!TakesOver(s, a) || LeavesSameText(s, a))
  {
    hide PidText, ReadPid, AcquireIn, Apply;
    if a.Acquire? && s.tokens != {} {
      UnreadableFileIsLost(s, a.pid, a.faults);
      AcquireChanges(s, a.pid, a.faults);
    } else {
      StepKeepsInv(s, a);
    }
  }

  /** The lock is not live: a crashed holder's PID given to an unrelated process blocks every later acquire. */
  lemma ReusedPidBlocks(s: State, t: Token, pid: int, unrelated: Action)
    requires Inv(s) && t in s.tokens && pid != t.pid && pid in s.running && unrelated == Start(t.pid)
    ensures var crashed := Apply(s, Exit(t.pid));
            var reused := Apply(crashed, unrelated);
            Enabled(s, Exit(t.pid)) && Enabled(crashed, unrelated) && reused.tokens == {}
            && AcquireIn(reused, pid, Faults(true, WORKING, true, true, WORKING)) == (s.file, AlreadyRunning(t.pid))
  {
    hide ReadPid;
    PidRoundTrip(t.pid);
    AcquireSucceedsUnlessRunning(s.file, pid, s.running - {t.pid} + {t.pid});
  }

  /** A release frees the lock: the file is gone, and any running process can acquire it next. */
  lemma ReleaseFreesLock(s: State, t: Token, pid: int)
    requires Inv(s) && t in s.tokens && pid in s.running
    ensures var free := Apply(s, Release(t, true));
            && free.file == None && free.tokens == {} && free.running == s.running
            && AcquireIn(free, pid, Faults(true, WORKING, true, true, WORKING)) == (Some(PidText(pid)), Held)
  {
    hide PidText, ReadPid;
    assert forall u :: u in s.tokens ==> u == t;
    assert s.tokens - {t} == {};
  }

  /** A release called again changes nothing, whoever holds the lock by then. */
  lemma SecondReleaseDoesNothing(s: State, t: Token, unlink: bool, again: bool)
    ensures var once := Apply(s, Release(t, unlink)); Apply(once, Release(t, again)) == once
  {
  }
}
