/** The client starts the daemon when nothing listens, and then polls for a while. Whatever the environment does,
  * the request is delivered at most once and the waiting is bounded.
  */
module Autostart {
  import opened Splitting
  import opened Wrappers

  const ENOENT := 2
  const ECONNREFUSED := 111
  const MAX_WAIT := 2000 // milliseconds
  const POLL_INTERVAL := 100
  const MAX_ATTEMPTS := 22

  // An attempt to request: a failed connect sent nothing, any other failure may have sent something.
  datatype Attempt = Answers(text: string) | ConnectFails(errno: int) | Fails(message: string)

  datatype Event = Requested(attempt: Attempt) | Started(code: int) | Looked(found: bool) | Slept(duration: nat)

  datatype Result =
    | Answered(text: string)
    | NotConnected(errno: int)
    | Failed(message: string)
    | StartFailed(errno: int)
    | NotReady(lastErrno: Option<int>)

  datatype Environment = Environment(request: nat -> Attempt, start: nat -> int, socketExists: nat -> bool)

  predicate IsNotReady(attempt: Attempt) {
    attempt.ConnectFails? && (attempt.errno == ENOENT || attempt.errno == ECONNREFUSED)
  }

  function AttemptsOf(trace: seq<Event>): seq<Attempt> {
    if trace == [] then []
    else
      var last := trace[|trace| - 1];
      AttemptsOf(trace[..|trace| - 1]) + if last.Requested? then [last.attempt] else []
  }

  function StartsOf(trace: seq<Event>): nat {
    if trace == [] then 0
    else StartsOf(trace[..|trace| - 1]) + if trace[|trace| - 1].Started? then 1 else 0
  }

  function SleptOf(trace: seq<Event>): nat {
    if trace == [] then 0
    else
      var last := trace[|trace| - 1];
      SleptOf(trace[..|trace| - 1]) + if last.Slept? then last.duration else 0
  }

  // How often the client looked for the socket, and how often it was there.
  function LooksOf(trace: seq<Event>): nat {
    if trace == [] then 0 else LooksOf(trace[..|trace| - 1]) + if trace[|trace| - 1].Looked? then 1 else 0
  }

  function FoundOf(trace: seq<Event>): nat {
    if trace == [] then 0
    else
      var last := trace[|trace| - 1];
      FoundOf(trace[..|trace| - 1]) + if last.Looked? && last.found then 1 else 0
  }

  lemma TraceNext(trace: seq<Event>, event: Event)
    ensures LooksOf(trace + [event]) == LooksOf(trace) + if event.Looked? then 1 else 0
    ensures FoundOf(trace + [event]) == FoundOf(trace) + if event.Looked? && event.found then 1 else 0
    ensures AttemptsOf(trace + [event]) == AttemptsOf(trace) + if event.Requested? then [event.attempt] else []
    ensures StartsOf(trace + [event]) == StartsOf(trace) + if event.Started? then 1 else 0
    ensures SleptOf(trace + [event]) == SleptOf(trace) + if event.Slept? then event.duration else 0
  {
    assert (trace + [event])[..|trace|] == trace;
  }

  function ResultOf(attempt: Attempt): Result {
    match attempt
    case Answers(text) => Answered(text)
    case ConnectFails(errno) => NotConnected(errno)
    case Fails(message) => Failed(message)
  }

  predicate AreNotReady(attempts: seq<Attempt>) {
    forall i :: 0 <= i < |attempts| ==> IsNotReady(attempts[i])
  }

  function LastErrno(attempts: seq<Attempt>): Option<int> {
    if attempts != [] && attempts[|attempts| - 1].ConnectFails? then Some(attempts[|attempts| - 1].errno) else None
  }

  // The polling after the start, and what it comes to: one look in each interval, and one attempt for each look
  // that found the socket.
  ghost predicate IsPoll(polls: seq<Event>, result: Result) {
    var attempts := AttemptsOf(polls);
    && StartsOf(polls) == 0 && |attempts| < MAX_ATTEMPTS && SleptOf(polls) <= MAX_WAIT
    && LooksOf(polls) == SleptOf(polls) / 100 + 1 && |attempts| == FoundOf(polls)
    && match result {
         case NotReady(errno) => AreNotReady(attempts) && SleptOf(polls) == MAX_WAIT && errno == LastErrno(attempts)
         case StartFailed(_) => false
         case _ =>
           && attempts != [] && AreNotReady(attempts[..|attempts| - 1])
           && !IsNotReady(attempts[|attempts| - 1]) && result == ResultOf(attempts[|attempts| - 1])
       }
  }

  // The polling so far: every attempt failed to connect, and there was one for each look that found the socket,
  // or there will be.
  ghost predicate IsWaiting(polls: seq<Event>, looks: nat, waited: nat, lastErrno: Option<int>, due: bool) {
    && StartsOf(polls) == 0 && SleptOf(polls) == waited <= MAX_WAIT && LooksOf(polls) == looks
    && AreNotReady(AttemptsOf(polls)) && lastErrno == LastErrno(AttemptsOf(polls))
    && |AttemptsOf(polls)| + (if due then 1 else 0) == FoundOf(polls) <= looks
  }

  lemma WaitingLooked(polls: seq<Event>, looks: nat, waited: nat, lastErrno: Option<int>, found: bool)
    requires IsWaiting(polls, looks, waited, lastErrno, false)
    ensures IsWaiting(polls + [Looked(found)], looks + 1, waited, lastErrno, found)
  {
    TraceNext(polls, Looked(found));
  }

  lemma WaitingFailed(polls: seq<Event>, looks: nat, waited: nat, lastErrno: Option<int>, attempt: Attempt)
    requires IsWaiting(polls, looks, waited, lastErrno, true) && IsNotReady(attempt)
    ensures IsWaiting(polls + [Requested(attempt)], looks, waited, Some(attempt.errno), false)
  {
    TraceNext(polls, Requested(attempt));
  }

  lemma WaitingSlept(polls: seq<Event>, looks: nat, waited: nat, lastErrno: Option<int>, duration: nat)
    requires IsWaiting(polls, looks, waited, lastErrno, false) && waited + duration <= MAX_WAIT
    ensures IsWaiting(polls + [Slept(duration)], looks, waited + duration, lastErrno, false)
  {
    TraceNext(polls, Slept(duration));
  }

  lemma WaitingEnds(polls: seq<Event>, looks: nat, waited: nat, lastErrno: Option<int>, attempt: Attempt)
    requires IsWaiting(polls, looks, waited, lastErrno, true) && !IsNotReady(attempt)
    requires looks == waited / POLL_INTERVAL + 1
    ensures IsPoll(polls + [Requested(attempt)], ResultOf(attempt))
  {
    TraceNext(polls, Requested(attempt));
    assert AttemptsOf(polls + [Requested(attempt)])[..|AttemptsOf(polls)|] == AttemptsOf(polls);
  }

  class Client {
    const env: Environment
    var asked: nat
    var trace: seq<Event>

    constructor (env: Environment)
      ensures this.env == env && trace == []
    {
      this.env, asked, trace := env, 0, [];
    }

    method Request() returns (attempt: Attempt)
      modifies this
      ensures trace == old(trace) + [Requested(attempt)]
    {
      attempt := env.request(asked);
      asked, trace := asked + 1, trace + [Requested(attempt)];
    }

    method StartUserService() returns (code: int)
      modifies this
      ensures trace == old(trace) + [Started(code)]
    {
      code := env.start(asked);
      asked, trace := asked + 1, trace + [Started(code)];
    }

    method SocketExists() returns (found: bool)
      modifies this
      ensures trace == old(trace) + [Looked(found)]
    {
      found := env.socketExists(asked);
      asked, trace := asked + 1, trace + [Looked(found)];
    }

    method SleepFor(duration: nat)
      modifies this
      ensures trace == old(trace) + [Slept(duration)]
    {
      trace := trace + [Slept(duration)];
    }

    // One look, and an attempt when the socket is there.
    method PollOnce(waited: nat, lastErrno: Option<int>, ghost polls: seq<Event>, ghost looks: nat)
      returns (ended: bool, result: Result, last: Option<int>, ghost longer: seq<Event>)
      requires IsWaiting(polls, looks, waited, lastErrno, false) && waited == looks * POLL_INTERVAL
      modifies this
      ensures polls <= longer && trace == old(trace) + longer[|polls|..]
      ensures if ended then IsPoll(longer, result) else IsWaiting(longer, looks + 1, waited, last, false)
    {
      ended, result, last := false, NotReady(lastErrno), lastErrno;
      var found := SocketExists();
      WaitingLooked(polls, looks, waited, lastErrno, found);
      longer := polls + [Looked(found)];
      if found {
        var attempt := Request();
        if IsNotReady(attempt) {
          WaitingFailed(longer, looks + 1, waited, lastErrno, attempt);
          last := Some(attempt.errno);
        } else {
          WaitingEnds(longer, looks + 1, waited, lastErrno, attempt);
          ended, result := true, ResultOf(attempt);
        }
        longer := longer + [Requested(attempt)];
      }
    }

    method RequestAfterStart() returns (result: Result, ghost polls: seq<Event>)
      modifies this
      ensures trace == old(trace) + polls && IsPoll(polls, result)
    {
      var waited, lastErrno := 0, None;
      ghost var looks := 0;
      polls := [];
      while waited <= MAX_WAIT
        invariant trace == old(trace) + polls && waited == looks * POLL_INTERVAL
        invariant IsWaiting(polls, looks, waited, lastErrno, false)
        decreases MAX_WAIT - waited
      {
        var ended;
        ended, result, lastErrno, polls := PollOnce(waited, lastErrno, polls, looks);
        if ended {
          return;
        }
        looks := looks + 1;
        if waited == MAX_WAIT {
          break;
        }
        var remaining := MAX_WAIT - waited;
        var sleepDuration := if POLL_INTERVAL < remaining then POLL_INTERVAL else remaining;
        SleepFor(sleepDuration);
        WaitingSlept(polls, looks, waited, lastErrno, sleepDuration);
        polls := polls + [Slept(sleepDuration)];
        waited := waited + sleepDuration;
      }
      result := NotReady(lastErrno);
    }

    method RequestWithOptionalUserServiceStart(allowAutostart: bool)
      returns (result: Result, ghost first: Attempt, ghost start: seq<Event>, ghost polls: seq<Event>)
      modifies this
      ensures trace == old(trace) + ([Requested(first)] + start + polls)
      ensures IsAutostart(allowAutostart, first, start, polls, result)
    {
      start, polls := [], [];
      var attempt := Request();
      first := attempt;
      if !attempt.ConnectFails? || !allowAutostart || !IsNotReady(attempt) {
        return ResultOf(attempt), first, start, polls;
      }
      var code := StartUserService();
      start := [Started(code)];
      if code != 0 {
        return StartFailed(attempt.errno), first, start, polls;
      }
      result, polls := RequestAfterStart();
    }
  }

  // The first attempt, then perhaps the start of the service, then perhaps the polling.
  ghost predicate IsAutostart(allowed: bool, first: Attempt, start: seq<Event>, polls: seq<Event>, result: Result) {
    if !allowed || !IsNotReady(first) then start == [] && polls == [] && result == ResultOf(first)
    else
      && |start| == 1 && start[0].Started?
      && if start[0].code != 0 then polls == [] && result == StartFailed(first.errno) else IsPoll(polls, result)
  }

  lemma {:induction false} AttemptsAppend(trace: seq<Event>, more: seq<Event>)
    ensures AttemptsOf(trace + more) == AttemptsOf(trace) + AttemptsOf(more)
  {
    if more == [] {
      assert trace + more == trace;
    } else {
      var before, last := more[..|more| - 1], more[|more| - 1];
      AttemptsAppend(trace, before);
      assert (trace + more)[..|trace + more| - 1] == trace + before;
      Associate(AttemptsOf(trace), AttemptsOf(before), if last.Requested? then [last.attempt] else []);
    }
  }

  lemma {:induction false} StartsAndSleepsAppend(trace: seq<Event>, more: seq<Event>)
    ensures StartsOf(trace + more) == StartsOf(trace) + StartsOf(more)
    ensures SleptOf(trace + more) == SleptOf(trace) + SleptOf(more)
  {
    if more == [] {
      assert trace + more == trace;
    } else {
      var before := more[..|more| - 1];
      StartsAndSleepsAppend(trace, before);
      assert (trace + more)[..|trace + more| - 1] == trace + before;
    }
  }

  lemma TraceAppend(trace: seq<Event>, more: seq<Event>)
    ensures AttemptsOf(trace + more) == AttemptsOf(trace) + AttemptsOf(more)
    ensures StartsOf(trace + more) == StartsOf(trace) + StartsOf(more)
    ensures SleptOf(trace + more) == SleptOf(trace) + SleptOf(more)
  {
    AttemptsAppend(trace, more);
    StartsAndSleepsAppend(trace, more);
  }

  // Nothing listens: there is no socket file, or the connection was refused.
  predicate IsUnheard(attempt: Attempt) {
    attempt == ConnectFails(2) || attempt == ConnectFails(111)
  }

  // Every attempt but the last failed to connect, so the request was delivered at most once.
  predicate IsDeliveredAtMostOnce(attempts: seq<Attempt>) {
    1 <= |attempts| <= 22 && forall i :: 0 <= i < |attempts| - 1 ==> IsUnheard(attempts[i])
  }

  predicate IsSafe(trace: seq<Event>, allowed: bool, result: Result) {
    && StartsOf(trace) <= 1 && SleptOf(trace) <= 2000
    && (StartsOf(trace) == 1 ==> |trace| >= 2 && trace[1].Started?)
    && AreSafe(AttemptsOf(trace), SleptOf(trace), if StartsOf(trace) == 1 then Some(trace[1].code) else None, allowed,
               result)
  }

  // The attempts, the time slept and the code of the start, if there was one, tell the result.
  predicate AreSafe(attempts: seq<Attempt>, slept: nat, started: Option<int>, allowed: bool, result: Result) {
    && IsDeliveredAtMostOnce(attempts)
    && (started.Some? <==> allowed && IsUnheard(attempts[0])) && (|attempts| > 1 ==> started == Some(0))
    && var last := attempts[|attempts| - 1];
       match result {
         case Answered(text) => last == Answers(text)
         case NotConnected(errno) => last == ConnectFails(errno) && (started.Some? ==> !IsUnheard(last))
         case Failed(message) => last == Fails(message)
         case StartFailed(errno) => attempts == [ConnectFails(errno)] && started.Some? && started != Some(0)
         case NotReady(lastErrno) =>
           && slept == 2000 && started == Some(0) && IsUnheard(last)
           && lastErrno == if |attempts| == 1 then None else Some(last.errno)
       }
  }

  lemma OneEvent(event: Event)
    ensures AttemptsOf([event]) == (if event.Requested? then [event.attempt] else [])
    ensures StartsOf([event]) == (if event.Started? then 1 else 0)
    ensures SleptOf([event]) == if event.Slept? then event.duration else 0
  {
    TraceNext([], event);
    assert [] + [event] == [event];
  }

  // A first request and perhaps a start.
  lemma HeadCounts(first: Attempt, start: seq<Event>)
    requires start == [] || (|start| == 1 && start[0].Started?)
    ensures var head := [Requested(first)] + start;
            AttemptsOf(head) == [first] && StartsOf(head) == |start| && SleptOf(head) == 0
  {
    TraceAppend([Requested(first)], start);
    OneEvent(Requested(first));
    if start != [] {
      assert start == [start[0]];
      OneEvent(start[0]);
    }
  }

  lemma StartCounts(first: Attempt, start: seq<Event>, polls: seq<Event>)
    requires start == [] || (|start| == 1 && start[0].Started?)
    ensures var trace := [Requested(first)] + start + polls;
            && AttemptsOf(trace) == [first] + AttemptsOf(polls)
            && StartsOf(trace) == |start| + StartsOf(polls) && SleptOf(trace) == SleptOf(polls)
  {
    HeadCounts(first, start);
    TraceAppend([Requested(first)] + start, polls);
  }

  lemma NotReadyIsUnheard(attempt: Attempt)
    ensures IsNotReady(attempt) <==> IsUnheard(attempt)
  {
  }

  lemma OneAttempt(first: Attempt, allowed: bool)
    requires !allowed || !IsNotReady(first)
    ensures AreSafe([first], 0, None, allowed, ResultOf(first))
  {
    NotReadyIsUnheard(first);
  }

  lemma PolledAreUnheard(first: Attempt, polled: seq<Attempt>, n: nat)
    requires IsNotReady(first) && n <= |polled| && AreNotReady(polled[..n])
    ensures forall i :: 0 <= i < n + 1 ==> IsUnheard(([first] + polled)[i])
  {
    forall i | 0 <= i < n + 1 ensures IsUnheard(([first] + polled)[i]) {
      assert i > 0 ==> polled[..n][i - 1] == ([first] + polled)[i];
      NotReadyIsUnheard(([first] + polled)[i]);
    }
  }

  lemma PolledIsSafe(first: Attempt, polls: seq<Event>, result: Result)
    requires IsNotReady(first) && IsPoll(polls, result)
    ensures AreSafe([first] + AttemptsOf(polls), SleptOf(polls), Some(0), true, result)
  {
    var polled := AttemptsOf(polls);
    if result.NotReady? {
      assert polled[..|polled|] == polled;
      PolledAreUnheard(first, polled, |polled|);
    } else {
      PolledAreUnheard(first, polled, |polled| - 1);
      NotReadyIsUnheard(polled[|polled| - 1]);
    }
    NotReadyIsUnheard(first);
  }

  // For every environment.
  lemma DeliveredAtMostOnce(allowed: bool, first: Attempt, start: seq<Event>, polls: seq<Event>, result: Result)
    requires IsAutostart(allowed, first, start, polls, result)
    ensures IsSafe([Requested(first)] + start + polls, allowed, result)
  {
    var trace := [Requested(first)] + start + polls;
    StartCounts(first, start, polls);
    NotReadyIsUnheard(first);
    if start == [] {
      OneAttempt(first, allowed);
      assert [first] + [] == [first];
    } else {
      assert trace[1] == start[0];
      if start[0].code == 0 {
        PolledIsSafe(first, polls, result);
      } else {
        assert [first] + [] == [first];
      }
    }
  }
}
