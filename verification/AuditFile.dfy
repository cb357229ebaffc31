/** The audit file under its mutex: threads take the lock, open, write in portions, flush, close and give the
  * lock back, in any interleaving. The file is the records in the order of the lock.
  */
module AuditFile {
  import opened Splitting
  import opened Wrappers

  // Where the holder of the lock is. Reached(n): the file is open and has the first n characters of the record.
  datatype Phase = Locked | Reached(n: nat) | Flushed | Closed

  datatype Entry = Entry(thread: nat, line: string)

  datatype State = State(
    file: string,
    holder: Option<nat>,
    phase: Phase,
    done: seq<nat>,     // how many records each thread has appended
    order: seq<Entry>)  // the records in the order in which the lock was taken

  // programs[t] are the lines that thread t appends, one after another. JSON text has no raw newline in it.
  predicate ArePrograms(programs: seq<seq<string>>) {
    forall t, i :: 0 <= t < |programs| && 0 <= i < |programs[t]| ==> '\n' !in programs[t][i]
  }

  predicate IsState(programs: seq<seq<string>>, s: State) {
    && |s.done| == |programs|
    && (forall t :: 0 <= t < |programs| ==> s.done[t] <= |programs[t]|)
    && (s.holder.Some? ==> s.holder.value < |programs| && s.done[s.holder.value] < |programs[s.holder.value]|)
  }

  predicate IsStart(programs: seq<seq<string>>, s: State) {
    && IsState(programs, s) && s.file == "" && s.holder == None && s.order == []
    && forall t :: 0 <= t < |programs| ==> s.done[t] == 0
  }

  function RecordOf(programs: seq<seq<string>>, s: State, t: nat): string
    requires IsState(programs, s) && t < |programs| && s.done[t] < |programs[t]|
  {
    programs[t][s.done[t]] + ['\n']
  }

  datatype Step =
    | Lock(t: nat) | Open(t: nat) | Write(t: nat, size: nat) | Flush(t: nat) | Close(t: nat) | Unlock(t: nat)

  predicate CanStep(programs: seq<seq<string>>, s: State, step: Step)
    requires IsState(programs, s)
  {
    var t := step.t;
    t < |programs| &&
    match step {
      case Lock(_) => s.holder == None && s.done[t] < |programs[t]|
      case Open(_) => s.holder == Some(t) && s.phase == Locked
      case Write(_, size) =>
        && s.holder == Some(t) && s.phase.Reached?
        && 0 < size && s.phase.n + size <= |RecordOf(programs, s, t)|
      case Flush(_) => s.holder == Some(t) && s.phase == Reached(|RecordOf(programs, s, t)|)
      case Close(_) => s.holder == Some(t) && s.phase == Flushed
      case Unlock(_) => s.holder == Some(t) && s.phase == Closed
    }
  }

  // A file that is open for appending grows at its end.
  function Next(programs: seq<seq<string>>, s: State, step: Step): (next: State)
    requires IsState(programs, s) && CanStep(programs, s, step)
    ensures IsState(programs, next)
  {
    var t := step.t;
    match step
    case Lock(_) => s.(holder := Some(t), phase := Locked, order := s.order + [Entry(t, programs[t][s.done[t]])])
    case Open(_) => s.(phase := Reached(0))
    case Write(_, size) =>
      s.(file := s.file + RecordOf(programs, s, t)[s.phase.n..s.phase.n + size], phase := Reached(s.phase.n + size))
    case Flush(_) => s.(phase := Flushed)
    case Close(_) => s.(phase := Closed)
    case Unlock(_) => s.(holder := None, done := s.done[t := s.done[t] + 1])
  }

  function LinesOf(order: seq<Entry>): (lines: seq<string>)
    ensures |lines| == |order|
  {
    if order == [] then [] else LinesOf(order[..|order| - 1]) + [order[|order| - 1].line]
  }

  // The lines of one thread, in order.
  function LinesBy(t: nat, order: seq<Entry>): seq<string> {
    if order == [] then []
    else
      var last := order[|order| - 1];
      LinesBy(t, order[..|order| - 1]) + if last.thread == t then [last.line] else []
  }

  lemma OrderNext(order: seq<Entry>, entry: Entry, t: nat)
    ensures LinesOf(order + [entry]) == LinesOf(order) + [entry.line]
    ensures LinesBy(t, order + [entry]) == LinesBy(t, order) + if entry.thread == t then [entry.line] else []
  {
    assert (order + [entry])[..|order|] == order;
  }

  // How much of its record the holder has brought into the file.
  function Progress(phase: Phase, record: string): nat {
    match phase
    case Locked => 0
    case Reached(n) => n
    case _ => |record|
  }

  ghost predicate FileIsInOrder(programs: seq<seq<string>>, s: State)
    requires IsState(programs, s)
  {
    match s.holder
    case None => s.file == Terminated('\n', LinesOf(s.order))
    case Some(t) =>
      var record := RecordOf(programs, s, t);
      && s.order != [] && s.order[|s.order| - 1] == Entry(t, programs[t][s.done[t]])
      && Progress(s.phase, record) <= |record|
      && s.file == Terminated('\n', LinesOf(s.order[..|s.order| - 1])) + record[..Progress(s.phase, record)]
  }

  // What thread t has taken the lock for so far.
  function Taken(s: State, t: nat): nat
    requires t < |s.done|
  {
    s.done[t] + if s.holder == Some(t) then 1 else 0
  }

  ghost predicate ThreadsAreInOrder(programs: seq<seq<string>>, s: State)
    requires IsState(programs, s)
  {
    forall t :: 0 <= t < |programs| ==>
      Taken(s, t) <= |programs[t]| && LinesBy(t, s.order) == programs[t][..Taken(s, t)]
  }

  ghost predicate Invariant(programs: seq<seq<string>>, s: State) {
    && IsState(programs, s) && FileIsInOrder(programs, s) && ThreadsAreInOrder(programs, s)
    && forall i :: 0 <= i < |s.order| ==> '\n' !in s.order[i].line
  }

  lemma LockKeepsFile(programs: seq<seq<string>>, s: State, step: Step)
    requires step.Lock? && IsState(programs, s) && FileIsInOrder(programs, s) && CanStep(programs, s, step)
    ensures FileIsInOrder(programs, Next(programs, s, step))
  {
    var entry := Entry(step.t, programs[step.t][s.done[step.t]]);
    assert (s.order + [entry])[..|s.order|] == s.order;
  }

  lemma WriteKeepsFile(programs: seq<seq<string>>, s: State, step: Step)
    requires step.Write? && IsState(programs, s) && FileIsInOrder(programs, s) && CanStep(programs, s, step)
    ensures FileIsInOrder(programs, Next(programs, s, step))
  {
    var record, n, m := RecordOf(programs, s, step.t), s.phase.n, s.phase.n + step.size;
    assert record[..m] == record[..n] + record[n..m];
    Associate(Terminated('\n', LinesOf(s.order[..|s.order| - 1])), record[..n], record[n..m]);
  }

  lemma UnlockKeepsFile(programs: seq<seq<string>>, s: State, step: Step)
    requires step.Unlock? && IsState(programs, s) && FileIsInOrder(programs, s) && CanStep(programs, s, step)
    ensures FileIsInOrder(programs, Next(programs, s, step))
  {
    var record := RecordOf(programs, s, step.t);
    TerminatedNext('\n', LinesOf(s.order[..|s.order| - 1]), programs[step.t][s.done[step.t]]);
    assert record[..|record|] == record;
  }

  lemma StepKeepsFile(programs: seq<seq<string>>, s: State, step: Step)
    requires IsState(programs, s) && FileIsInOrder(programs, s) && CanStep(programs, s, step)
    ensures FileIsInOrder(programs, Next(programs, s, step))
  {
    match step
    case Lock(_) => LockKeepsFile(programs, s, step);
    case Write(_, _) => WriteKeepsFile(programs, s, step);
    case Unlock(_) => UnlockKeepsFile(programs, s, step);
    case _ =>
  }

  lemma StepKeepsThreads(programs: seq<seq<string>>, s: State, step: Step)
    requires IsState(programs, s) && ThreadsAreInOrder(programs, s) && CanStep(programs, s, step)
    ensures ThreadsAreInOrder(programs, Next(programs, s, step))
  {
    if step.Lock? {
      forall t | 0 <= t < |programs|
        ensures LinesBy(t, Next(programs, s, step).order) == programs[t][..Taken(Next(programs, s, step), t)]
      {
        OrderNext(s.order, Entry(step.t, programs[step.t][s.done[step.t]]), t);
      }
    }
  }

  // Any interleaving.
  ghost predicate IsRun(programs: seq<seq<string>>, states: seq<State>, steps: seq<Step>) {
    && |states| == |steps| + 1 && IsStart(programs, states[0])
    && forall i :: 0 <= i < |steps| ==>
         IsState(programs, states[i]) && CanStep(programs, states[i], steps[i])
         && states[i + 1] == Next(programs, states[i], steps[i])
  }

  lemma {:induction false} RunKeepsInvariant(programs: seq<seq<string>>, states: seq<State>, steps: seq<Step>, i: nat)
    requires ArePrograms(programs) && IsRun(programs, states, steps) && i < |states|
    ensures Invariant(programs, states[i])
  {
    if i > 0 {
      RunKeepsInvariant(programs, states, steps, i - 1);
      StepKeepsFile(programs, states[i - 1], steps[i - 1]);
      StepKeepsThreads(programs, states[i - 1], steps[i - 1]);
    }
  }

  // Whenever the lock is free, the lines of the file are exactly the appended records, in the order of the lock,
  // and those of each thread are the ones it appended, in its own order.
  lemma AppendsLinearise(programs: seq<seq<string>>, states: seq<State>, steps: seq<Step>, i: nat)
    requires ArePrograms(programs) && IsRun(programs, states, steps) && i < |states| && states[i].holder == None
    ensures IsState(programs, states[i])
    ensures states[i].file == Terminated('\n', LinesOf(states[i].order))
    ensures Split('\n', states[i].file) == LinesOf(states[i].order) + [""]
    ensures forall t :: 0 <= t < |programs| ==> LinesBy(t, states[i].order) == programs[t][..states[i].done[t]]
  {
    RunKeepsInvariant(programs, states, steps, i);
    LinesHaveNoNewline(states[i].order);
    SplitTerminated('\n', LinesOf(states[i].order));
  }

  lemma {:induction false} LinesHaveNoNewline(order: seq<Entry>)
    requires forall i :: 0 <= i < |order| ==> '\n' !in order[i].line
    ensures forall i :: 0 <= i < |order| ==> '\n' !in LinesOf(order)[i]
  {
    if order != [] {
      LinesHaveNoNewline(order[..|order| - 1]);
    }
  }

  // What is in the file stays there.
  lemma {:induction false} FileOnlyGrows(programs: seq<seq<string>>, states: seq<State>, steps: seq<Step>,
                                        i: nat, j: nat)
    requires IsRun(programs, states, steps) && i <= j < |states|
    ensures states[i].file <= states[j].file
    decreases j - i
  {
    if i < j {
      FileOnlyGrows(programs, states, steps, i, j - 1);
    }
  }

  // ---- One append, with the failures of the file system ----

  // What a stream can do to an append: each failure may leave some characters of the record in the file.
  datatype Writing = CannotDump | CannotOpen | WriteFails(n: nat) | FlushFails(n: nat) | CloseFails(n: nat) | Succeeds

  datatype AppendResult = AppendOk | DumpError | OpenError | WriteError

  datatype Attempt = Attempt(line: string, writing: Writing)
  {
    function Line(): string {
      line + ['\n']
    }

    // How many characters of the record the file has in the end.
    function Kept(): (n: nat)
      ensures n <= |Line()|
    {
      match writing
      case CannotDump => 0
      case CannotOpen => 0
      case Succeeds => |Line()|
      case _ => if writing.n <= |Line()| then writing.n else |Line()|
    }

    function Added(): string {
      Line()[..Kept()]
    }

    // The record is in the file as a whole, whatever the caller was told.
    predicate IsWhole() {
      Kept() == |Line()|
    }

    predicate IsTorn() {
      0 < Kept() < |Line()|
    }
  }

  class AuditLog {
    var file: string

    constructor (file: string)
      ensures this.file == file
    {
      this.file := file;
    }

    // What was there stays; of the record the file gains what the stream wrote of it.
    method Append(line: string, writing: Writing) returns (result: AppendResult)
      modifies this
      ensures result == match writing {
                          case CannotDump => DumpError
                          case CannotOpen => OpenError
                          case Succeeds => AppendOk
                          case _ => WriteError
                        }
      ensures file == old(file) + Attempt(line, writing).Added()
    {
      assert old(file) + [] == old(file);
      if writing.CannotDump? {
        return DumpError;
      }
      var record := line + ['\n'];
      if writing.CannotOpen? {
        return OpenError;
      }
      if writing.Succeeds? {
        file := file + record;
        assert record[..|record|] == record;
        return AppendOk;
      }
      file := file + record[..if writing.n <= |record| then writing.n else |record|];
      return WriteError;
    }
  }

  // ---- Any number of appends, with failures ----

  function FileAfter(attempts: seq<Attempt>): string {
    if attempts == [] then "" else FileAfter(attempts[..|attempts| - 1]) + attempts[|attempts| - 1].Added()
  }

  lemma FileNext(attempts: seq<Attempt>, attempt: Attempt)
    ensures FileAfter(attempts + [attempt]) == FileAfter(attempts) + attempt.Added()
  {
    assert (attempts + [attempt])[..|attempts|] == attempts;
  }

  // The lines whose records are in the file as a whole.
  function WholeLines(attempts: seq<Attempt>): seq<string> {
    if attempts == [] then []
    else
      var last := attempts[|attempts| - 1];
      WholeLines(attempts[..|attempts| - 1]) + if last.IsWhole() then [last.line] else []
  }

  predicate HaveNoNewline(attempts: seq<Attempt>) {
    forall i :: 0 <= i < |attempts| ==> '\n' !in attempts[i].line
  }

  lemma {:induction false} WholeLinesHaveNoNewline(attempts: seq<Attempt>)
    requires HaveNoNewline(attempts)
    ensures forall i :: 0 <= i < |WholeLines(attempts)| ==> '\n' !in WholeLines(attempts)[i]
  {
    if attempts != [] {
      WholeLinesHaveNoNewline(attempts[..|attempts| - 1]);
    }
  }

  lemma AddedIs(attempt: Attempt)
    ensures attempt.IsWhole() ==> attempt.Added() == attempt.line + ['\n']
    ensures !attempt.IsWhole() && !attempt.IsTorn() ==> attempt.Added() == ""
    ensures attempt.IsTorn() ==> |attempt.Added()| > 0
  {
    assert attempt.Line()[..|attempt.Line()|] == attempt.Line();
  }

  // Without torn records the file is the whole records; each torn one makes it longer.
  lemma {:induction false} FileIsWholeLines(attempts: seq<Attempt>)
    ensures |Terminated('\n', WholeLines(attempts))| <= |FileAfter(attempts)|
    ensures (forall i :: 0 <= i < |attempts| ==> !attempts[i].IsTorn()) <==>
            FileAfter(attempts) == Terminated('\n', WholeLines(attempts))
    ensures (exists i :: 0 <= i < |attempts| && attempts[i].IsTorn()) ==>
              |Terminated('\n', WholeLines(attempts))| < |FileAfter(attempts)|
  {
    if attempts != [] {
      var before, last := attempts[..|attempts| - 1], attempts[|attempts| - 1];
      FileIsWholeLines(before);
      AddedIs(last);
      TerminatedNext('\n', WholeLines(before), last.line);
      assert WholeLines(before) + [] == WholeLines(before);
      assert forall i :: 0 <= i < |before| ==> before[i] == attempts[i];
    }
  }

  // The file is lines that are the whole records, one for one, exactly when every failed append left none or all
  // of its record.
  lemma LinesAreRecordsIffNoneTorn(attempts: seq<Attempt>)
    requires HaveNoNewline(attempts)
    ensures Split('\n', FileAfter(attempts)) == WholeLines(attempts) + [""] <==>
            forall i :: 0 <= i < |attempts| ==> attempts[i].Kept() == 0 || attempts[i].Kept() == |attempts[i].Line()|
  {
    var file, lines := FileAfter(attempts), WholeLines(attempts);
    WholeLinesHaveNoNewline(attempts);
    FileIsWholeLines(attempts);
    SplitTerminated('\n', lines);
    if Split('\n', file) == lines + [""] {
      SplitIsOnce('\n', file, Terminated('\n', lines));
    }
  }

  // What a torn record leaves is glued to the next record.
  lemma TornTailIsGlued(line: string, n: nat, next: string)
    requires '\n' !in line && '\n' !in next && 0 < n <= |line|
    ensures Split('\n', FileAfter([Attempt(line, WriteFails(n)), Attempt(next, Succeeds)])) == [line[..n] + next, ""]
  {
    var torn, whole := Attempt(line, WriteFails(n)), Attempt(next, Succeeds);
    var file, glued := FileAfter([torn, whole]), line[..n] + next;
    AddedIs(whole);
    FileNext([], torn);
    FileNext([torn], whole);
    assert [] + [torn] == [torn] && [torn] + [whole] == [torn, whole];
    assert FileAfter([torn]) == line[..n];
    assert file == glued + ['\n'] + "";
    SplitHead('\n', glued, "", file);
    SplitFirst('\n', "", "");
  }
}
