/** A child process is read through a pipe, waited for and stopped at a limit of size or of time. The kernel
  * answers as it likes: each drain of the pipe is some reads that end with end-of-file, nothing to read yet, or a
  * failure, and the clock moves on between two readings.
  */
module CommandSupervisor {
  import opened Splitting

  const MAX_OUTPUT_BYTES := 4 * 1024 * 1024
  const BUFFER_BYTES := 8192
  const TIMEOUT := 5_000_000_000 // nanoseconds

  datatype Read = Data(bytes: string) | EndOfFile | ReadInterrupted | WouldBlock | ReadFails

  datatype Status = Exited(code: nat) | Signaled(signal: nat) | OtherStatus

  datatype Wait = Reaped(status: Status) | StillRunning | WaitInterrupted | WaitFails

  datatype CommandError =
    | NoError | PipeFailed | ForkFailed | OutputExceeded | ReadFailed | WaitFailed | TimedOut | CommandFailed

  datatype CommandResult = CommandResult(ok: bool, exitCode: int, output: string, error: CommandError)

  datatype Environment = Environment(pipeOpens: bool, forks: bool, drain: nat -> seq<Read>, wait: nat -> Wait,
                                     now: nat -> nat)

  predicate EndsDrain(read: Read) {
    read.EndOfFile? || read.WouldBlock? || read.ReadFails?
  }

  predicate IsDrain(steps: seq<Read>) {
    && steps != [] && EndsDrain(steps[|steps| - 1])
    && (forall i :: 0 <= i < |steps| - 1 ==> !EndsDrain(steps[i]))
    && (forall i :: 0 <= i < |steps| && steps[i].Data? ==> 0 < |steps[i].bytes| <= BUFFER_BYTES)
  }

  // All that a drain gives.
  function DataOf(steps: seq<Read>): string {
    if steps == [] then "" else (if steps[0].Data? then steps[0].bytes else "") + DataOf(steps[1..])
  }

  ghost predicate IsEnvironment(env: Environment) {
    && (forall i: nat :: IsDrain(env.drain(i)))
    && (forall i: nat, j: nat :: i < j ==> env.now(i) < env.now(j))
  }

  function ExitCodeOf(status: Status): int {
    match status
    case Exited(code) => code
    case Signaled(signal) => 128 + signal
    case OtherStatus => -1
  }

  function Failure(exitCode: int, error: CommandError): CommandResult {
    CommandResult(false, exitCode, "", error)
  }

  // The pipe and the child, with what happened to them.
  class Kernel {
    const env: Environment
    var turn: nat
    var left: seq<Read>   // the rest of the current drain
    var clock: nat        // readings of the clock
    var waits: nat
    var readEnd: bool
    var writeEnd: bool
    var closes: nat       // of the read end
    var killed: bool
    var killedReaped: bool // the child had been reaped when it was killed
    var received: string  // all that was read, in order
    var sawEnd: bool
    var readFailed: bool
    var waitFailed: bool
    var reaped: seq<Status>

    constructor (env: Environment)
      requires IsEnvironment(env)
      ensures this.env == env && IsFresh()
    {
      this.env := env;
      turn, left, clock, waits := 1, env.drain(0), 0, 0;
      readEnd, writeEnd, closes, killed, received, sawEnd, reaped := false, false, 0, false, "", false, [];
      killedReaped, readFailed, waitFailed := false, false, false;
      new;
      assert IsDrain(env.drain(0));
    }

    predicate IsFresh()
      reads this
    {
      && !readEnd && !writeEnd && closes == 0 && !killed && received == "" && !sawEnd && reaped == []
      && !killedReaped && !readFailed && !waitFailed && IsDrain(left)
    }

    method Pipe() returns (ok: bool)
      requires !readEnd && !writeEnd
      modifies `readEnd, `writeEnd
      ensures ok == env.pipeOpens == readEnd == writeEnd
    {
      ok := env.pipeOpens;
      readEnd, writeEnd := ok, ok;
    }

    // Closing a descriptor that is not open is a mistake.
    method CloseReadEnd()
      requires readEnd
      modifies `readEnd, `closes
      ensures !readEnd && closes == old(closes) + 1
    {
      readEnd, closes := false, closes + 1;
    }

    method CloseWriteEnd()
      requires writeEnd
      modifies `writeEnd
      ensures !writeEnd
    {
      writeEnd := false;
    }

    method Kill()
      modifies `killed, `killedReaped
      ensures killed && killedReaped == (old(killedReaped) || reaped != [])
    {
      killed, killedReaped := true, killedReaped || reaped != [];
    }

    method WaitPid() returns (answer: Wait)
      modifies `waits, `reaped, `waitFailed
      ensures waitFailed == (old(waitFailed) || answer.WaitFails?)
      ensures reaped == if answer.Reaped? then old(reaped) + [answer.status] else old(reaped)
    {
      answer := env.wait(waits);
      waits := waits + 1;
      waitFailed := waitFailed || answer.WaitFails?;
      if answer.Reaped? {
        reaped := reaped + [answer.status];
      }
    }

    method Now() returns (time: nat)
      modifies `clock
      ensures time == env.now(old(clock)) && clock == old(clock) + 1
    {
      time := env.now(clock);
      clock := clock + 1;
    }

    // Waits until the pipe may have something to read.
    method Poll()
      requires readEnd && IsEnvironment(env)
      modifies `turn, `left
      ensures IsDrain(left)
    {
      left, turn := env.drain(turn), turn + 1;
      assert IsDrain(env.drain(old(turn)));
    }

    // One read(2), with the reason beside it when the count is negative.
    method ReadPipe(buffer: array<char>) returns (count: int, why: Read)
      requires readEnd && IsDrain(left) && buffer.Length == BUFFER_BYTES
      modifies `left, `received, `sawEnd, `readFailed, buffer
      ensures why == old(left[0]) && left == old(left[1..])
      ensures if EndsDrain(why) then true else IsDrain(left)
      ensures count == (if why.Data? then |why.bytes| else if why.EndOfFile? then 0 else -1)
      ensures why.Data? ==> 0 < count <= BUFFER_BYTES && buffer[..count] == why.bytes
      ensures received == old(received) + if why.Data? then why.bytes else ""
      ensures sawEnd == (old(sawEnd) || why.EndOfFile?) && readFailed == (old(readFailed) || why.ReadFails?)
    {
      why, left := left[0], left[1..];
      count := if why.EndOfFile? then 0 else -1;
      assert received + "" == received;
      if why.Data? {
        count := |why.bytes|;
        forall i | 0 <= i < |why.bytes| {
          buffer[i] := why.bytes[i];
        }
        received := received + why.bytes;
      }
      sawEnd, readFailed := sawEnd || why.EndOfFile?, readFailed || why.ReadFails?;
    }
  }

  // How one drain of the pipe ends.
  datatype Drained = Going | PipeClosed | TooMuch | Broken

  // The data and the last read of a drain tell how it ends.
  function DrainedOf(before: nat, steps: seq<Read>): Drained
    requires steps != []
  {
    if before + |DataOf(steps)| > MAX_OUTPUT_BYTES then TooMuch
    else match steps[|steps| - 1] {
      case EndOfFile => PipeClosed
      case WouldBlock => Going
      case _ => Broken
    }
  }

  method DrainPipe(kernel: Kernel, output: string) returns (grown: string, drained: Drained)
    requires kernel.readEnd && IsDrain(kernel.left)
    requires output == kernel.received && |output| <= MAX_OUTPUT_BYTES
    modifies kernel`left, kernel`received, kernel`sawEnd, kernel`readFailed
    ensures drained == DrainedOf(|output|, old(kernel.left))
    ensures drained.Going? || drained.PipeClosed? ==>
              grown == kernel.received == output + DataOf(old(kernel.left)) && |grown| <= MAX_OUTPUT_BYTES
    ensures kernel.sawEnd == (old(kernel.sawEnd) || drained.PipeClosed?)
    ensures drained.Broken? ==> kernel.readFailed
    ensures drained.TooMuch? ==> |kernel.received| > MAX_OUTPUT_BYTES
  {
    grown := output;
    var buffer := new char[BUFFER_BYTES];
    ghost var all, last := output + DataOf(kernel.left), kernel.left[|kernel.left| - 1];
    while true
      invariant kernel.readEnd && IsDrain(kernel.left) && fresh(buffer)
      invariant grown == kernel.received && |grown| <= MAX_OUTPUT_BYTES
      invariant all == grown + DataOf(kernel.left) && last == kernel.left[|kernel.left| - 1]
      invariant kernel.sawEnd == old(kernel.sawEnd)
      decreases |kernel.left|
    {
      FirstRead(grown, kernel.left);
      var count, why := kernel.ReadPipe(buffer);
      if count > 0 {
        if |grown| + count > MAX_OUTPUT_BYTES {
          return grown, TooMuch;
        }
        grown := grown + buffer[..count];
        continue;
      }
      if count == 0 {
        return grown, PipeClosed;
      }
      if why.ReadInterrupted? {
        continue;
      }
      if why.WouldBlock? {
        return grown, Going;
      }
      return grown, Broken;
    }
  }

  // What the first read of a drain leaves of it.
  lemma FirstRead(grown: string, steps: seq<Read>)
    requires IsDrain(steps)
    ensures EndsDrain(steps[0]) ==> |steps| == 1 && DataOf(steps) == ""
    ensures !EndsDrain(steps[0]) ==>
              && |steps| > 1 && IsDrain(steps[1..]) && steps[1..][|steps| - 2] == steps[|steps| - 1]
              && grown + DataOf(steps) == grown + (if steps[0].Data? then steps[0].bytes else "") + DataOf(steps[1..])
  {
    if EndsDrain(steps[0]) {
      LastRead(steps);
    } else {
      RestIsDrain(steps);
      Associate(grown, if steps[0].Data? then steps[0].bytes else "", DataOf(steps[1..]));
    }
  }

  lemma LastRead(steps: seq<Read>)
    requires |steps| == 1 && EndsDrain(steps[0])
    ensures DataOf(steps) == ""
  {
    assert steps[1..] == [];
  }

  lemma RestIsDrain(steps: seq<Read>)
    requires IsDrain(steps) && !EndsDrain(steps[0])
    ensures |steps| > 1 && IsDrain(steps[1..]) && steps[1..][|steps| - 2] == steps[|steps| - 1]
  {
  }

  // The variables of the loop.
  datatype Progress = Progress(output: string, pipeClosed: bool, childDone: bool, status: Status)

  // What a result says about the child and the pipe: no result without its reason.
  predicate IsSupervised(kernel: Kernel, result: CommandResult, start: nat)
    reads kernel
  {
    match result.error
    case NoError =>
      && result.ok && result.exitCode == 0 && kernel.reaped == [Exited(0)] && kernel.sawEnd
      && result.output == kernel.received && |result.output| <= 4 * 1024 * 1024
    case CommandFailed =>
      && result == Failure(result.exitCode, CommandFailed) && kernel.sawEnd
      && |kernel.reaped| == 1 && result.exitCode != 0
      && match kernel.reaped[0] {
           case Exited(code) => result.exitCode == code
           case Signaled(signal) => result.exitCode == 128 + signal
           case OtherStatus => result.exitCode == -1
         }
    case OutputExceeded => result == Failure(-1, OutputExceeded) && |kernel.received| > 4 * 1024 * 1024
    case ReadFailed => result == Failure(-1, ReadFailed) && kernel.readFailed
    case TimedOut =>
      && result == Failure(-1, TimedOut)
      && kernel.clock > 0 && kernel.env.now(kernel.clock - 1) >= start + 5_000_000_000
    case WaitFailed => result == Failure(-1, WaitFailed) && kernel.waitFailed
    case _ => false
  }

  predicate IsStop(error: CommandError) {
    error == OutputExceeded || error == ReadFailed || error == TimedOut
  }

  // Exactly the three stops kill. The child was reaped before it was killed exactly when the loop had seen it end;
  // then the pipe was still open, held by a process of the child, or the time was up.
  predicate IsKilled(kernel: Kernel, error: CommandError, last: Progress)
    reads kernel
  {
    && kernel.killed == IsStop(error)
    && kernel.killedReaped == (IsStop(error) && last.childDone)
    && (last.childDone ==> kernel.reaped != [] && kernel.reaped[0] == last.status)
    && (kernel.killedReaped ==> !last.pipeClosed || error == TimedOut)
  }

  method Stop(kernel: Kernel, error: CommandError, ghost last: Progress) returns (result: CommandResult)
    requires kernel.readEnd && IsStop(error) && !kernel.killed && !kernel.killedReaped
    requires kernel.reaped == if last.childDone then [last.status] else []
    requires last.childDone ==> !last.pipeClosed || error == TimedOut
    modifies kernel`killed, kernel`killedReaped, kernel`readEnd, kernel`closes, kernel`waits, kernel`reaped,
             kernel`waitFailed
    ensures result == Failure(-1, error)
    ensures !kernel.readEnd && kernel.closes == old(kernel.closes) + 1 && IsKilled(kernel, error, last)
  {
    kernel.Kill();
    kernel.CloseReadEnd();
    var _ := kernel.WaitPid();
    result := Failure(-1, error);
  }

  predicate IsProgress(kernel: Kernel, p: Progress)
    reads kernel
  {
    && kernel.readEnd
    && p.output == kernel.received && |p.output| <= MAX_OUTPUT_BYTES && p.pipeClosed == kernel.sawEnd
    && kernel.reaped == (if p.childDone then [p.status] else []) && !kernel.killed && !kernel.killedReaped
  }

  // One look at the child: whether it was reaped, or cannot be waited for.
  method LookAtChild(kernel: Kernel, p: Progress) returns (next: Progress, failed: bool)
    requires IsProgress(kernel, p)
    modifies kernel`waits, kernel`reaped, kernel`waitFailed
    ensures IsProgress(kernel, next) && (failed ==> kernel.waitFailed)
    ensures next.output == p.output && next.pipeClosed == p.pipeClosed
  {
    next, failed := p, false;
    if !p.childDone {
      var answer := kernel.WaitPid();
      if answer.Reaped? {
        next := p.(childDone := true, status := answer.status);
      } else {
        failed := answer.WaitFails?;
      }
    }
  }

  // The reading half of a round. It ends the loop when there is too much to read or a read fails.
  method ReadRound(kernel: Kernel, p: Progress, ghost start: nat)
    returns (next: Progress, ended: bool, result: CommandResult)
    requires IsProgress(kernel, p) && IsDrain(kernel.left) && !(p.pipeClosed && p.childDone)
    modifies kernel
    ensures kernel.writeEnd == old(kernel.writeEnd) && kernel.clock == old(kernel.clock)
    ensures ended ==> !kernel.readEnd && kernel.closes == old(kernel.closes) + 1
    ensures ended ==> IsSupervised(kernel, result, start) && IsKilled(kernel, result.error, p)
    ensures !ended ==> IsProgress(kernel, next) && kernel.closes == old(kernel.closes)
  {
    next, ended, result := p, true, Failure(-1, ReadFailed);
    var output, drained := DrainPipe(kernel, p.output);
    if drained.TooMuch? {
      result := Stop(kernel, OutputExceeded, p);
      return;
    }
    if drained.Broken? {
      result := Stop(kernel, ReadFailed, p);
      return;
    }
    next, ended := p.(output := output, pipeClosed := p.pipeClosed || drained.PipeClosed?), false;
  }

  // One round of the loop, up to the poll. It ends the loop early with a result.
  method Round(kernel: Kernel, p: Progress, ghost start: nat, deadline: nat)
    returns (next: Progress, ended: bool, result: CommandResult, time: nat)
    requires IsProgress(kernel, p) && IsDrain(kernel.left) && deadline == start + TIMEOUT
    requires !(p.pipeClosed && p.childDone)
    modifies kernel
    ensures kernel.writeEnd == old(kernel.writeEnd)
    ensures ended ==> !kernel.readEnd && kernel.closes == old(kernel.closes) + 1
    ensures ended ==> IsSupervised(kernel, result, start) && IsKilled(kernel, result.error, next)
    ensures !ended ==> IsProgress(kernel, next) && kernel.closes == old(kernel.closes) && time < deadline
    ensures !ended ==> kernel.clock == old(kernel.clock) + 1 && time == kernel.env.now(old(kernel.clock))
  {
    time := 0;
    next, ended, result := ReadRound(kernel, p, start);
    if ended {
      next := p;
      return;
    }
    var failed;
    next, failed := LookAtChild(kernel, next);
    if failed {
      kernel.CloseReadEnd();
      ended, result := true, Failure(-1, WaitFailed);
      return;
    }
    time := kernel.Now();
    if time >= deadline {
      ended := true;
      result := Stop(kernel, TimedOut, next);
    }
  }

  method Supervise(kernel: Kernel) returns (result: CommandResult, ghost start: nat, ghost last: Progress)
    requires IsEnvironment(kernel.env) && IsDrain(kernel.left)
    requires kernel.readEnd && kernel.received == "" && !kernel.sawEnd && kernel.reaped == []
    requires !kernel.killed && !kernel.killedReaped
    modifies kernel
    ensures !kernel.readEnd && kernel.writeEnd == old(kernel.writeEnd) && kernel.closes == old(kernel.closes) + 1
    ensures IsSupervised(kernel, result, start) && IsKilled(kernel, result.error, last)
  {
    var p := Progress("", false, false, OtherStatus);
    var time := kernel.Now();
    var deadline := time + TIMEOUT;
    start := time;
    while !(p.pipeClosed && p.childDone)
      invariant IsProgress(kernel, p) && (!(p.pipeClosed && p.childDone) ==> IsDrain(kernel.left))
      invariant kernel.writeEnd == old(kernel.writeEnd) && kernel.closes == old(kernel.closes)
      invariant kernel.clock > 0 && time == kernel.env.now(kernel.clock - 1)
      decreases deadline - time
    {
      var ended;
      p, ended, result, time := Round(kernel, p, start, deadline);
      if ended {
        last := p;
        return;
      }
      if !(p.pipeClosed && p.childDone) {
        kernel.Poll();
      }
    }
    kernel.CloseReadEnd();
    var exitCode := ExitCodeOf(p.status);
    if exitCode != 0 {
      return Failure(exitCode, CommandFailed), start, p;
    }
    return CommandResult(true, exitCode, p.output, NoError), start, p;
  }

  // Success means a child that ended with 0, a pipe read to its end, and all that was read, within the limit.
  // Whatever happens after the fork, the read end is closed exactly once.
  method RunFixedCommand(env: Environment)
    returns (result: CommandResult, kernel: Kernel, ghost start: nat, ghost last: Progress)
    requires IsEnvironment(env)
    ensures fresh(kernel) && !kernel.readEnd && !kernel.writeEnd
    ensures !env.pipeOpens ==> result == Failure(-1, PipeFailed) && kernel.closes == 0
    ensures env.pipeOpens ==> kernel.closes == 1
    ensures env.pipeOpens && !env.forks ==> result == Failure(-1, ForkFailed)
    ensures env.pipeOpens && env.forks ==> IsSupervised(kernel, result, start)
    ensures IsKilled(kernel, result.error, last)
  {
    kernel := new Kernel(env);
    start, last := 0, Progress("", false, false, OtherStatus);
    var piped := kernel.Pipe();
    if !piped {
      return Failure(-1, PipeFailed), kernel, start, last;
    }
    if !env.forks {
      kernel.CloseReadEnd();
      kernel.CloseWriteEnd();
      return Failure(-1, ForkFailed), kernel, start, last;
    }
    kernel.CloseWriteEnd();
    result, start, last := Supervise(kernel);
  }
}
