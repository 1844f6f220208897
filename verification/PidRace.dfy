/** The lock call by call: every system call of every process is a step of its own. */
module PidRace {
  import opened Text
  import opened PidFile

  /** Where a process is. `again` marks the second try, after a removal. */
  datatype Pc =
    | Idle
    | Creating(again: bool)
    | Writing(file: nat)
    | Closing(file: nat)
    | Cleaning(file: nat)
    | Reading
    | Probing(pid: int)
    | Unlinking
    | Holding(file: nat)

  /** Files are numbered as they are created; a removed file lives on for whoever has it open. */
  datatype State = State(disk: Option<nat>, contents: seq<string>, creators: seq<int>, procs: map<int, Pc>)

  const INITIAL := State(None, [], [], map[])

  /** `Step(p, ok)`: the next system call of process p, and whether it succeeds. */
  datatype Action = Start(pid: int) | Crash(pid: int) | Acquire(pid: int) | Step(pid: int, ok: bool)

  predicate Enabled(s: State, a: Action) {
    match a
    case Start(p) => ValidPid(p) && p !in s.procs
    case Crash(p) => p in s.procs
    case Acquire(p) => p in s.procs && s.procs[p].Idle?
    case Step(p, _) => p in s.procs && !s.procs[p].Idle?
  }

  function Goto(s: State, p: int, pc: Pc): State {
    s.(procs := s.procs[p := pc])
  }

  predicate WellFormed(s: State) {
    && |s.creators| == |s.contents|
    && (s.disk.Some? ==> s.disk.value < |s.contents|)
    && (forall p :: p in s.procs && s.procs[p].Writing? ==> s.procs[p].file < |s.contents|)
  }

  /** O_CREAT with O_EXCL: a new file, or EEXIST; anything else gives up. */
  function Create(s: State, p: int, again: bool, ok: bool): State {
    if !ok then Goto(s, p, Idle)
    else if s.disk.Some? then Goto(s, p, if again then Idle else Reading)
    else
      Goto(s.(disk := Some(|s.contents|), contents := s.contents + [""], creators := s.creators + [p]), p, Writing(|s.contents|))
  }

  function Write(s: State, p: int, file: nat, ok: bool): State
    requires file < |s.contents|
  {
    if ok then Goto(s.(contents := s.contents[file := PidText(p)]), p, Closing(file)) else Goto(s, p, Cleaning(file))
  }

  function Read(s: State, p: int, ok: bool): State
    requires WellFormed(s)
  {
    match ReadResult(if s.disk.Some? then Some(s.contents[s.disk.value]) else None, ok)
    case None => Goto(s, p, Unlinking)
    case Some(owner) => Goto(s, p, Probing(owner))
  }

  /** os.Remove takes away whatever file is there by now. */
  function Unlinked(s: State, ok: bool): State {
    if ok then s.(disk := None) else s
  }

  function Next(s: State, p: int, ok: bool): State
    requires WellFormed(s) && p in s.procs
  {
    match s.procs[p]
    case Idle => s
    case Creating(again) => Create(s, p, again, ok)
    case Writing(file) => Write(s, p, file, ok)
    case Closing(file) => Goto(s, p, if ok then Holding(file) else Cleaning(file))
    case Cleaning(_) => Goto(Unlinked(s, ok), p, Idle)
    case Reading => Read(s, p, ok)
    case Probing(owner) => Goto(s, p, if owner in s.procs then Idle else Unlinking)
    case Unlinking => Goto(Unlinked(s, ok), p, if ok then Creating(true) else Idle)
    case Holding(_) => Goto(Unlinked(s, ok), p, Idle)
  }

  function Apply(s: State, a: Action): State
    requires WellFormed(s) && Enabled(s, a)
  {
    match a
    case Start(p) => Goto(s, p, Idle)
    case Crash(p) => s.(procs := s.procs - {p})
    case Acquire(p) => Goto(s, p, Creating(false))
    case Step(p, ok) => Next(s, p, ok)
  }

  // ---------------------------------------------------------------- what every run keeps

  /** The file a process has created and not given up. */
  function Owned(pc: Pc): Option<nat> {
    match pc
    case Writing(f) => Some(f)
    case Closing(f) => Some(f)
    case Cleaning(f) => Some(f)
    case Holding(f) => Some(f)
    case _ => None
  }

  /** Process p created its file, and if it has got past writing the file holds its PID. */
  predicate OwnsHonestly(s: State, p: int)
    requires p in s.procs && WellFormed(s)
  {
    var f := Owned(s.procs[p]);
    f.Some? ==>
      && f.value < |s.contents| && s.creators[f.value] == p
      && (s.procs[p].Closing? || s.procs[p].Holding? ==> s.contents[f.value] == PidText(p))
  }

  /** A file is empty or names its creator. */
  predicate Honest(s: State) {
    WellFormed(s) && forall i :: 0 <= i < |s.contents| ==> s.contents[i] == "" || s.contents[i] == PidText(s.creators[i])
  }

  predicate Inv(s: State) {
    Honest(s) && forall p :: p in s.procs ==> OwnsHonestly(s, p)
  }

  lemma InvIsWellFormed(s: State)
    requires Inv(s)
    ensures WellFormed(s)
  {
  }

  lemma GotoKeepsInv(s: State, p: int, pc: Pc)
    requires Inv(s) && (Owned(pc).None? || (p in s.procs && Owned(pc) == Owned(s.procs[p]) && !pc.Closing? && !pc.Writing? && (pc.Holding? ==> s.procs[p].Closing?)))
    ensures Inv(Goto(s, p, pc))
  {
    var s' := Goto(s, p, pc);
    forall q | q in s'.procs
      ensures OwnsHonestly(s', q)
    {
      if q != p {
        assert OwnsHonestly(s, q);
      } else if Owned(pc).Some? {
        assert OwnsHonestly(s, p);
      }
    }
  }

  lemma CreateKeepsInv(s: State, p: int, again: bool, ok: bool)
    requires Inv(s) && p in s.procs
    ensures Inv(Create(s, p, again, ok))
  {
    if ok && s.disk.None? {
      var s' := Create(s, p, again, ok);
      forall q | q in s'.procs
        ensures OwnsHonestly(s', q)
      {
        if q != p {
          assert OwnsHonestly(s, q);
        }
      }
    } else {
      GotoKeepsInv(s, p, Idle);
      GotoKeepsInv(s, p, Reading);
    }
  }

  lemma WriteKeepsInv(s: State, p: int, file: nat, ok: bool)
    requires Inv(s) && p in s.procs && s.procs[p] == Writing(file)
    ensures file < |s.contents| && Inv(Write(s, p, file, ok))
  {
    assert OwnsHonestly(s, p);
    if ok {
      var s' := Write(s, p, file, ok);
      forall q | q in s'.procs
        ensures OwnsHonestly(s', q)
      {
        if q != p {
          assert OwnsHonestly(s, q);
        }
      }
    } else {
      GotoKeepsInv(s, p, Cleaning(file));
    }
  }

  lemma NextKeepsInv(s: State, p: int, ok: bool)
    requires Inv(s) && p in s.procs
    ensures Inv(Next(s, p, ok))
  {
    hide Write, Create, ReadResult, OwnsHonestly, Goto;
    assert Inv(Unlinked(s, ok)) by { UnlinkKeepsInv(s, ok); }
    match s.procs[p]
    case Idle =>
    case Creating(again) => CreateKeepsInv(s, p, again, ok);
    case Writing(file) => WriteKeepsInv(s, p, file, ok);
    case Closing(file) => GotoKeepsInv(s, p, if ok then Holding(file) else Cleaning(file));
    case Cleaning(_) => GotoKeepsInv(Unlinked(s, ok), p, Idle);
    case Reading => ReadKeepsInv(s, p, ok);
    case Probing(owner) => GotoKeepsInv(s, p, if owner in s.procs then Idle else Unlinking);
    case Unlinking => GotoKeepsInv(Unlinked(s, ok), p, if ok then Creating(true) else Idle);
    case Holding(_) => GotoKeepsInv(Unlinked(s, ok), p, Idle);
  }

  lemma UnlinkKeepsInv(s: State, ok: bool)
    requires Inv(s)
    ensures Inv(Unlinked(s, ok))
  {
    forall p | p in s.procs
      ensures OwnsHonestly(Unlinked(s, ok), p)
    {
      assert OwnsHonestly(s, p);
    }
  }

  lemma ReadKeepsInv(s: State, p: int, ok: bool)
    requires Inv(s)
    ensures Inv(Read(s, p, ok))
  {
    hide ReadResult, Inv, Goto;
    InvIsWellFormed(s);
    var owner := ReadResult(if s.disk.Some? then Some(s.contents[s.disk.value]) else None, ok);
    GotoKeepsInv(s, p, if owner.None? then Unlinking else Probing(owner.value));
  }

  lemma StepKeepsInv(s: State, a: Action)
    requires Inv(s) && Enabled(s, a)
    ensures Inv(Apply(s, a))
  {
    hide Goto, Next, OwnsHonestly;
    match a
    case Start(p) => GotoKeepsInv(s, p, Idle);
    case Crash(p) => CrashKeepsInv(s, p);
    case Acquire(p) => GotoKeepsInv(s, p, Creating(false));
    case Step(p, ok) => NextKeepsInv(s, p, ok);
  }

  lemma CrashKeepsInv(s: State, p: int)
    requires Inv(s)
    ensures Inv(s.(procs := s.procs - {p}))
  {
    forall q | q in s.procs && q != p
      ensures OwnsHonestly(s.(procs := s.procs - {p}), q)
    {
      assert OwnsHonestly(s, q);
    }
  }

  predicate Legal(s: State, acts: seq<Action>)
    requires Inv(s)
    decreases |acts|
  {
    acts == [] || (Enabled(s, acts[0]) && (StepKeepsInv(s, acts[0]); Legal(Apply(s, acts[0]), acts[1..])))
  }

  function Run(s: State, acts: seq<Action>): (s': State)
    requires Inv(s) && Legal(s, acts)
    ensures Inv(s')
    decreases |acts|
  {
    if acts == [] then s
    else
      StepKeepsInv(s, acts[0]);
      Run(Apply(s, acts[0]), acts[1..])
  }

  /**
   Call by call, every run keeps this much: each file has one creator, no two live processes own the same
   file, and the one file on disk is empty or names its creator.
   */
  lemma FilesHaveOneOwner(acts: seq<Action>, p: int, q: int)
    requires Legal(INITIAL, acts)
    ensures var s := Run(INITIAL, acts);
            && (s.disk.Some? ==>
                  var i := s.disk.value;
                  i < |s.contents| && s.contents[i] in {"", PidText(s.creators[i])})
            && (p in s.procs && q in s.procs && Owned(s.procs[p]).Some? && Owned(s.procs[p]) == Owned(s.procs[q]) ==> p == q)
            && (p in s.procs && s.procs[p].Holding? ==> s.creators[s.procs[p].file] == p && s.contents[s.procs[p].file] == PidText(p))
  {
    var s := Run(INITIAL, acts);
    assert p in s.procs ==> OwnsHonestly(s, p);
    assert q in s.procs ==> OwnsHonestly(s, q);
  }

  // ---------------------------------------------------------------- when the lock is exclusive

  /** Every file a live process owns is the one on disk. */
  predicate OwnersOnDisk(s: State) {
    forall p :: p in s.procs && Owned(s.procs[p]).Some? ==> s.disk == Owned(s.procs[p])
  }

  /** An acquirer is about to remove a file that a live process owns. */
  predicate StealsFile(s: State, a: Action) {
    && a.Step? && a.ok && a.pid in s.procs && s.procs[a.pid].Unlinking?
    && exists q :: q in s.procs && Owned(s.procs[q]).Some? && s.disk == Owned(s.procs[q])
  }

  /** Only a theft breaks exclusion: all other calls, a holder's release among them, keep every owner on disk. */
  lemma StepKeepsOwners(s: State, a: Action)
    requires Inv(s) && OwnersOnDisk(s) && Enabled(s, a)
    ensures OwnersOnDisk(Apply(s, a)) <==> !StealsFile(s, a)
  {
    hide ReadResult, Honest;
    match a
    case Step(p, ok) => NextKeepsOwners(s, p, ok);
    case _ =>
  }

  lemma OwnersAreOne(s: State, p: int, q: int)
    requires Inv(s) && OwnersOnDisk(s) && p in s.procs && q in s.procs
    requires Owned(s.procs[p]).Some? && Owned(s.procs[q]).Some?
    ensures p == q
  {
    assert OwnsHonestly(s, p) && OwnsHonestly(s, q);
  }

  lemma NextKeepsOwners(s: State, p: int, ok: bool)
    requires Inv(s) && OwnersOnDisk(s) && p in s.procs && !s.procs[p].Idle?
    ensures OwnersOnDisk(Next(s, p, ok)) <==> !StealsFile(s, Step(p, ok))
  {
    hide ReadResult, Honest, OwnsHonestly, PidText;
    InvIsWellFormed(s);
    var s' := Next(s, p, ok);
    if Owned(s.procs[p]).Some? {
      forall q | q in s.procs && Owned(s.procs[q]).Some?
        ensures q == p
      {
        OwnersAreOne(s, p, q);
      }
    } else if StealsFile(s, Step(p, ok)) {
      var q :| q in s.procs && Owned(s.procs[q]).Some? && s.disk == Owned(s.procs[q]);
      assert q in s'.procs && s'.procs[q] == s.procs[q];
    } else {
      forall q | q in s'.procs && Owned(s'.procs[q]).Some?
        ensures s'.disk == Owned(s'.procs[q])
      {
        if q != p {
          assert s'.procs[q] == s.procs[q];
        }
      }
    }
  }

  predicate StealsNothing(s: State, acts: seq<Action>)
    requires Inv(s) && Legal(s, acts)
    decreases |acts|
  {
    acts == [] || (!StealsFile(s, acts[0]) && (StepKeepsInv(s, acts[0]); StealsNothing(Apply(s, acts[0]), acts[1..])))
  }

  lemma {:induction false} RunKeepsOwners(s: State, acts: seq<Action>)
    requires Inv(s) && OwnersOnDisk(s) && Legal(s, acts) && StealsNothing(s, acts)
    ensures OwnersOnDisk(Run(s, acts))
    decreases |acts|
  {
    hide Apply, Enabled, Inv, OwnersOnDisk, StealsFile;
    InvIsWellFormed(s);
    if acts != [] {
      StepKeepsInv(s, acts[0]);
      StepKeepsOwners(s, acts[0]);
      RunKeepsOwners(Apply(s, acts[0]), acts[1..]);
    }
  }

  /** If no acquirer removes a live owner's file, there is never more than one live holder, and its PID is in the file. */
  lemma ExclusiveUnlessStolen(acts: seq<Action>, p: int, q: int)
    requires Legal(INITIAL, acts) && StealsNothing(INITIAL, acts)
    requires var s := Run(INITIAL, acts); p in s.procs && q in s.procs && s.procs[p].Holding? && s.procs[q].Holding?
    ensures p == q
    ensures var s := Run(INITIAL, acts); s.disk.Some? && s.disk.value < |s.contents| && s.contents[s.disk.value] == PidText(p)
  {
    hide Legal, Run, StealsNothing;
    RunKeepsOwners(INITIAL, acts);
    var s := Run(INITIAL, acts);
    OwnersAreOne(s, p, q);
    assert OwnsHonestly(s, p);
  }

  // ---------------------------------------------------------------- two holders

  lemma FirstStep(s: State, a: Action, rest: seq<Action>)
    requires Inv(s) && Enabled(s, a)
    ensures Inv(Apply(s, a))
    ensures Legal(s, [a] + rest) <==> Legal(Apply(s, a), rest)
    ensures Legal(s, [a] + rest) ==> Run(s, [a] + rest) == Run(Apply(s, a), rest)
  {
    StepKeepsInv(s, a);
    assert ([a] + rest)[1..] == rest;
  }

  lemma RunOfSteps(states: seq<State>, acts: seq<Action>)
    requires |states| == |acts| + 1 && Inv(states[0])
    requires forall i :: 0 <= i < |acts| ==> Steps(states[i], acts[i], states[i + 1])
    ensures Legal(states[0], acts) && Run(states[0], acts) == states[|acts|]
    decreases |acts|
  {
    hide Apply, Enabled, Inv;
    if acts != [] {
      assert Steps(states[0], acts[0], states[1]);
      StepKeepsInv(states[0], acts[0]);
      forall i | 0 <= i < |acts[1..]|
        ensures Steps(states[1..][i], acts[1..][i], states[1..][i + 1])
      {
        assert Steps(states[i + 1], acts[i + 1], states[i + 2]);
      }
      RunOfSteps(states[1..], acts[1..]);
    }
  }

  predicate Steps(s: State, a: Action, s': State) {
    WellFormed(s) && Enabled(s, a) && s' == Apply(s, a)
  }

  function Pair(disk: Option<nat>, contents: seq<string>, creators: seq<int>, p: int, at: Pc, q: int, qt: Pc): State {
    State(disk, contents, creators, map[p := at, q := qt])
  }

  /** p has created its file and not yet written it. */
  lemma Opened(p: int, q: int)
    requires ValidPid(p) && ValidPid(q) && p != q
    ensures Legal(INITIAL, [Start(p), Start(q), Acquire(p), Step(p, true)])
    ensures Run(INITIAL, [Start(p), Start(q), Acquire(p), Step(p, true)]) == Pair(Some(0), [""], [p], p, Writing(0), q, Idle)
  {
    hide Legal, Run, Inv;
    InitialInv();
    var s1 := State(None, [], [], map[p := Idle]);
    var s2 := Pair(None, [], [], p, Idle, q, Idle);
    var s3 := Pair(None, [], [], p, Creating(false), q, Idle);
    var s4 := Pair(Some(0), [""], [p], p, Writing(0), q, Idle);
    assert Steps(INITIAL, Start(p), s1);
    assert Steps(s1, Start(q), s2);
    assert Steps(s2, Acquire(p), s3);
    assert Steps(s3, Step(p, true), s4);
    RunOfSteps([INITIAL, s1, s2, s3, s4], [Start(p), Start(q), Acquire(p), Step(p, true)]);
  }

  lemma EmptyFileIsRemoved(s: State, q: int)
    requires WellFormed(s) && s.disk.Some? && s.contents[s.disk.value] == ""
    ensures Read(s, q, true) == Goto(s, q, Unlinking)
  {
    PidRoundTrip(q);
  }

  /** q takes the empty file for an invalid one and removes it. */
  lemma Taken(p: int, q: int)
    requires p != q && Inv(Pair(Some(0), [""], [p], p, Writing(0), q, Idle))
    ensures var s := Pair(Some(0), [""], [p], p, Writing(0), q, Idle);
            var acts := [Acquire(q), Step(q, true), Step(q, true), Step(q, true)];
            Legal(s, acts) && Run(s, acts) == Pair(None, [""], [p], p, Writing(0), q, Creating(true))
  {
    hide Legal, Run, Inv, Read;
    var s := Pair(Some(0), [""], [p], p, Writing(0), q, Idle);
    var s1 := Pair(Some(0), [""], [p], p, Writing(0), q, Creating(false));
    var s2 := Pair(Some(0), [""], [p], p, Writing(0), q, Reading);
    var s3 := Pair(Some(0), [""], [p], p, Writing(0), q, Unlinking);
    var s4 := Pair(None, [""], [p], p, Writing(0), q, Creating(true));
    EmptyFileIsRemoved(s2, q);
    assert Steps(s, Acquire(q), s1);
    assert Steps(s1, Step(q, true), s2);
    assert Steps(s2, Step(q, true), s3);
    assert Steps(s3, Step(q, true), s4);
    RunOfSteps([s, s1, s2, s3, s4], [Acquire(q), Step(q, true), Step(q, true), Step(q, true)]);
  }

  /** Both go on to hold the lock. */
  lemma BothFinish(p: int, q: int)
    requires p != q && Inv(Pair(None, [""], [p], p, Writing(0), q, Creating(true)))
    ensures var s := Pair(None, [""], [p], p, Writing(0), q, Creating(true));
            var acts := [Step(q, true), Step(q, true), Step(q, true), Step(p, true), Step(p, true)];
            Legal(s, acts) && Run(s, acts) == Pair(Some(1), [PidText(p), PidText(q)], [p, q], p, Holding(0), q, Holding(1))
  {
    hide Legal, Run, Inv, PidText;
    var s := Pair(None, [""], [p], p, Writing(0), q, Creating(true));
    var s1 := Pair(Some(1), ["", ""], [p, q], p, Writing(0), q, Writing(1));
    var s2 := Pair(Some(1), ["", PidText(q)], [p, q], p, Writing(0), q, Closing(1));
    var s3 := Pair(Some(1), ["", PidText(q)], [p, q], p, Writing(0), q, Holding(1));
    var s4 := Pair(Some(1), [PidText(p), PidText(q)], [p, q], p, Closing(0), q, Holding(1));
    var s5 := Pair(Some(1), [PidText(p), PidText(q)], [p, q], p, Holding(0), q, Holding(1));
    assert Steps(s, Step(q, true), s1);
    assert Steps(s1, Step(q, true), s2);
    assert Steps(s2, Step(q, true), s3);
    assert Steps(s3, Step(p, true), s4);
    assert Steps(s4, Step(p, true), s5);
    RunOfSteps([s, s1, s2, s3, s4, s5], [Step(q, true), Step(q, true), Step(q, true), Step(p, true), Step(p, true)]);
  }

  lemma {:induction false} RunConcat(s: State, xs: seq<Action>, ys: seq<Action>)
    requires Inv(s) && Legal(s, xs) && Legal(Run(s, xs), ys)
    ensures Legal(s, xs + ys) && Run(s, xs + ys) == Run(Run(s, xs), ys)
    decreases |xs|
  {
    hide Inv, Apply, Enabled;
    InvIsWellFormed(s);
    if xs == [] {
      assert xs + ys == ys;
    } else {
      assert xs + ys == [xs[0]] + (xs[1..] + ys);
      StepKeepsInv(s, xs[0]);
      RunConcat(Apply(s, xs[0]), xs[1..], ys);
      FirstStep(s, xs[0], xs[1..] + ys);
    }
  }

  /**
   Two live holders: q finds p's file between its creation and its writing, takes the empty file for an
   invalid one, removes it and creates its own; p goes on writing to the removed file.
   */
  lemma TwoHolders(p: int, q: int) returns (acts: seq<Action>)
    requires ValidPid(p) && ValidPid(q) && p != q
    ensures Legal(INITIAL, acts)
    ensures var s := Run(INITIAL, acts);
            p in s.procs && q in s.procs && s.procs[p].Holding? && s.procs[q].Holding?
  {
    hide Legal, Run, Inv;
    var opening := [Start(p), Start(q), Acquire(p), Step(p, true)];
    var taking := [Acquire(q), Step(q, true), Step(q, true), Step(q, true)];
    var finishing := [Step(q, true), Step(q, true), Step(q, true), Step(p, true), Step(p, true)];
    InitialInv();
    Opened(p, q);
    Taken(p, q);
    BothFinish(p, q);
    RunConcat(INITIAL, opening, taking);
    RunConcat(INITIAL, opening + taking, finishing);
    acts := opening + taking + finishing;
  }

  lemma InitialInv()
    ensures Inv(INITIAL) && OwnersOnDisk(INITIAL)
  {
  }

  // ---------------------------------------------------------------- one process alone

  /** What the file on disk holds. */
  function OnDisk(s: State): Option<string>
    requires WellFormed(s)
  {
    if s.disk.Some? then Some(s.contents[s.disk.value]) else None
  }

  function Steppings(p: int, k: nat): (acts: seq<Action>)
    ensures |acts| == k && forall i :: 0 <= i < k ==> acts[i] == Step(p, true)
  {
    seq(k, i => Step(p, true))
  }

  /** With nothing on disk the process creates, writes and closes its file, and holds the lock. */
  lemma CreatesAlone(s: State, p: int) returns (t: State)
    requires Inv(s) && WellFormed(s) && p in s.procs && s.procs[p].Creating? && s.disk.None?
    ensures Legal(s, Steppings(p, 3)) && Run(s, Steppings(p, 3)) == t
    ensures WellFormed(t) && OnDisk(t) == Some(PidText(p)) && p in t.procs && t.procs[p].Holding?
  {
    hide Legal, Run, Inv, PidText;
    var n := |s.contents|;
    var s1 := Goto(s.(disk := Some(n), contents := s.contents + [""], creators := s.creators + [p]), p, Writing(n));
    var s2 := Goto(s1.(contents := s1.contents[n := PidText(p)]), p, Closing(n));
    t := Goto(s2, p, Holding(n));
    assert Steps(s, Step(p, true), s1);
    assert Steps(s1, Step(p, true), s2);
    assert Steps(s2, Step(p, true), t);
    RunOfSteps([s, s1, s2, t], Steppings(p, 3));
  }

  /** With a file on disk the process reads it; it gives up if that names a running process, and else removes it. */
  lemma InspectsAlone(s: State, p: int) returns (k: nat, t: State)
    requires Inv(s) && WellFormed(s) && p in s.procs && s.procs[p] == Creating(false) && s.disk.Some?
    ensures Legal(s, Steppings(p, k)) && Run(s, Steppings(p, k)) == t
    ensures var owner := ReadResult(OnDisk(s), true);
            if owner.Some? && owner.value in s.procs then t == Goto(s, p, Idle)
            else t == Goto(s, p, Creating(true)).(disk := None)
  {
    hide Legal, Run, Inv, ReadPid;
    var owner := ReadResult(OnDisk(s), true);
    var s1 := Goto(s, p, Reading);
    var last := if owner.Some? && owner.value in s.procs then Goto(s, p, Idle) else Goto(s, p, Creating(true)).(disk := None);
    var unlinking := Goto(s, p, Unlinking);
    t := last;
    assert Steps(s, Step(p, true), s1);
    if owner.None? {
      assert Steps(s1, Step(p, true), unlinking);
      assert Steps(unlinking, Step(p, true), t);
      k := 3;
      RunOfSteps([s, s1, unlinking, t], Steppings(p, 3));
    } else {
      var s2 := Goto(s, p, Probing(owner.value));
      assert Steps(s1, Step(p, true), s2);
      if owner.value in s.procs {
        assert Steps(s2, Step(p, true), t);
        k := 3;
        RunOfSteps([s, s1, s2, t], Steppings(p, 3));
      } else {
        assert Steps(s2, Step(p, true), unlinking);
        assert Steps(unlinking, Step(p, true), t);
        k := 4;
        RunOfSteps([s, s1, s2, unlinking, t], Steppings(p, 4));
      }
    }
  }

  lemma GoesCreating(s: State, p: int)
    requires Inv(s) && p in s.procs && s.procs[p].Idle?
    ensures Legal(s, [Acquire(p)]) && Run(s, [Acquire(p)]) == Goto(s, p, Creating(false))
    ensures Inv(Goto(s, p, Creating(false)))
  {
    hide Legal, Run, Inv;
    InvIsWellFormed(s);
    assert Steps(s, Acquire(p), Goto(s, p, Creating(false)));
    RunOfSteps([s, Goto(s, p, Creating(false))], [Acquire(p)]);
    StepKeepsInv(s, Acquire(p));
  }

  /** Undisturbed, the calls of one process amount to AcquirePIDFile as a whole: same file, same outcome. */
  lemma AloneItAcquires(s: State, p: int) returns (k: nat, t: State)
    requires Inv(s) && p in s.procs && s.procs[p].Idle?
    ensures Legal(s, [Acquire(p)] + Steppings(p, k)) && Run(s, [Acquire(p)] + Steppings(p, k)) == t
    ensures WellFormed(s) && WellFormed(t) && p in t.procs
    ensures var (file, outcome) := AcquireResult(OnDisk(s), p, s.procs.Keys, true, WORKING, true, true, WORKING);
            && OnDisk(t) == file
            && (outcome.Held? <==> t.procs[p].Holding?) && (outcome.AlreadyRunning? <==> t.procs[p].Idle?)
  {
    hide Legal, Run, Inv, ReadPid, PidText;
    InvIsWellFormed(s);
    GoesCreating(s, p);
    var s1 := Goto(s, p, Creating(false));
    InvIsWellFormed(s1);
    if s.disk.None? {
      t := CreatesAlone(s1, p);
      k := 3;
    } else {
      var u;
      k, u := InspectsAlone(s1, p);
      t := u;
      if u.procs[p].Creating? {
        RunKeepsInv(s1, Steppings(p, k));
        t := CreatesAlone(u, p);
        RunConcat(s1, Steppings(p, k), Steppings(p, 3));
        assert Steppings(p, k) + Steppings(p, 3) == Steppings(p, k + 3);
        k := k + 3;
      }
    }
    RunConcat(s, [Acquire(p)], Steppings(p, k));
  }

  lemma RunKeepsInv(s: State, acts: seq<Action>)
    requires Inv(s) && Legal(s, acts)
    ensures Inv(Run(s, acts)) && WellFormed(Run(s, acts))
  {
    InvIsWellFormed(Run(s, acts));
  }
}
