/** Stopping a process group (stack.ts): one SIGINT, then polling until the group is
    gone or the budget is spent, and only then SIGKILL. */
module StopGroup {

  /** Probe is signal 0, which asks whether the group exists. */
  datatype Signal = Sigint | Sigkill | Probe

  datatype KillOutcome = Delivered | NoSuchProcess | NotPermitted

  datatype Action =
    | Kill(signal: Signal, outcome: KillOutcome)
    | Sleep(ms: nat)
    | OnTimeout
    | ComposeDown
    | AskLlama

  /** One thing done, and the clock's reading when it was begun. */
  datatype Call = Call(action: Action, at: int)

  datatype StopResult = StopResult(forced: bool, llama: seq<int>)

  /** The machine around `stopGroup`: what its n-th call is answered, and how long it takes on top. */
  class Machine {
    const answers: nat -> KillOutcome
    const delays: nat -> nat
    const llama: seq<int>
    var clock: int
    var trace: seq<Call>

    constructor (answers: nat -> KillOutcome, delays: nat -> nat, llama: seq<int>, clock: int)
      ensures trace == [] && this.clock == clock
    {
      this.answers, this.delays, this.llama := answers, delays, llama;
      this.clock, trace := clock, [];
    }

    method Do(action: Action)
      modifies this
      ensures trace == old(trace) + [Call(action, old(clock))]
      ensures clock >= old(clock) + if action.Sleep? then action.ms else 0
    {
      var now := clock;
      clock := clock + delays(|trace|) + if action.Sleep? then action.ms else 0;
      trace := trace + [Call(action, now)];
    }

    method SendSignal(signal: Signal) returns (outcome: KillOutcome)
      modifies this
      ensures trace == old(trace) + [Call(Kill(signal, outcome), old(clock))] && clock >= old(clock)
    {
      outcome := answers(|trace|);
      Do(Kill(signal, outcome));
    }

    /** `groupAlive`: EPERM still means something is there. */
    method GroupAlive() returns (alive: bool, ghost outcome: KillOutcome)
      modifies this
      ensures alive <==> outcome != NoSuchProcess
      ensures trace == old(trace) + [Call(Kill(Probe, outcome), old(clock))] && clock >= old(clock)
    {
      var answer := SendSignal(Probe);
      outcome := answer;
      alive := answer == Delivered || answer == NotPermitted;
    }

    /** The budget is spent: what is left to do. */
    method Force() returns (ghost end: seq<Call>)
      modifies this
      ensures trace == old(trace) + end && |end| == 4
      ensures end[0] == Call(OnTimeout, old(clock)) && IsKill(end[1], Sigkill)
      ensures end[2].action == ComposeDown && end[3].action == AskLlama
    {
      Do(OnTimeout);
      var _ := SendSignal(Sigkill);
      Do(ComposeDown);
      Do(AskLlama);
      end := trace[|old(trace)|..];
    }

    /** `stopGroup`, with everything it did told by `Stopped`. */
    method StopGroup(budgetMs: int, pollMs: nat) returns (result: StopResult)
      requires pollMs > 0
      modifies this
      ensures old(trace) <= trace && Stopped(trace[|old(trace)|..], budgetMs, pollMs, result.forced)
      ensures result.llama == if result.forced then llama else []
    {
      ghost var before := trace;
      var _ := SendSignal(Sigint);
      ghost var done := trace[|before|..];
      var started := clock;
      ghost var polls := 0;
      while true
        invariant trace == before + done && Polling(done, pollMs, polls)
        invariant clock - started >= polls * pollMs
        invariant polls > 0 ==> (polls - 1) * pollMs < budgetMs && done[1].at == started
        invariant polls == 0 ==> clock == started
        decreases budgetMs - polls * pollMs
      {
        ghost var now := clock;
        var alive, outcome := GroupAlive();
        done := done + [Call(Kill(Probe, outcome), now)];
        if !alive {
          assert trace[|before|..] == done && done[..1 + 2 * polls] == done[..|done| - 1];
          assert StoppedAfter(done, budgetMs, pollMs, false, polls);
          return StopResult(false, []);
        }
        if clock - started >= budgetMs {
          ghost var end := Force();
          assert trace[|before|..] == done + end;
          assert (done + end)[..1 + 2 * polls] == done[..1 + 2 * polls];
          assert StoppedAfter(done + end, budgetMs, pollMs, true, polls);
          return StopResult(true, llama);
        }
        now := clock;
        Do(Sleep(pollMs));
        done := done + [Call(Sleep(pollMs), now)];
        assert (polls + 1) * pollMs == polls * pollMs + pollMs;
        polls := polls + 1;
      }
    }
  }

  predicate IsKill(call: Call, signal: Signal) {
    call.action.Kill? && call.action.signal == signal
  }

  predicate FoundAlive(call: Call) {
    IsKill(call, Probe) && call.action.outcome != NoSuchProcess
  }

  /** One SIGINT, then `polls` rounds of a probe that found the group alive and a sleep. */
  ghost predicate Polling(done: seq<Call>, pollMs: nat, polls: nat) {
    && |done| == 1 + 2 * polls
    && IsKill(done[0], Sigint)
    && (forall i :: 0 <= i < polls ==> FoundAlive(done[1 + 2 * i]))
    && (forall i :: 0 <= i < polls ==> done[2 + 2 * i].action == Sleep(pollMs))
  }

  /** Everything one stop does, in order. */
  ghost predicate Stopped(done: seq<Call>, budgetMs: int, pollMs: nat, forced: bool) {
    exists polls: nat :: StoppedAfter(done, budgetMs, pollMs, forced, polls)
  }

  /** The rounds, none begun past the budget, and then a probe that found the group gone, or the forced end:
      from the first probe to the timeout the whole budget has passed. */
  ghost predicate StoppedAfter(done: seq<Call>, budgetMs: int, pollMs: nat, forced: bool, polls: nat) {
    var last := 1 + 2 * polls;
    && last < |done| && Polling(done[..last], pollMs, polls)
    && (polls > 0 ==> (polls - 1) * pollMs < budgetMs)
    && IsKill(done[last], Probe)
    && if forced then ForcedEnd(done, last, budgetMs)
       else |done| == last + 1 && done[last].action.outcome == NoSuchProcess
  }

  ghost predicate ForcedEnd(done: seq<Call>, last: nat, budgetMs: int) {
    && 1 <= last && |done| == last + 5
    && FoundAlive(done[last])
    && done[last + 1].action == OnTimeout && done[last + 1].at - done[1].at >= budgetMs
    && IsKill(done[last + 2], Sigkill)
    && done[last + 3].action == ComposeDown && done[last + 4].action == AskLlama
  }

  // --- What that comes to --------------------------------------------------------------

  function Sent(done: seq<Call>, signal: Signal): nat {
    if done == [] then 0
    else Sent(done[..|done| - 1], signal) + Sends(done[|done| - 1], signal)
  }

  function Sends(call: Call, signal: Signal): nat {
    if IsKill(call, signal) then 1 else 0
  }

  lemma {:induction false} PollingSends(done: seq<Call>, pollMs: nat, polls: nat)
    requires Polling(done, pollMs, polls)
    ensures Sent(done, Sigint) == 1 && Sent(done, Sigkill) == 0 && Sent(done, Probe) == polls
    ensures forall call <- done :: call.action != ComposeDown
  {
    var n := |done|;
    if polls == 0 {
      assert done[..0] == [];
    } else {
      var i := polls - 1;
      assert done[2 + 2 * i].action == Sleep(pollMs) && n == 3 + 2 * i;
      assert FoundAlive(done[1 + 2 * i]);
      assert done[..n - 1][..n - 2] == done[..n - 2];
      PollingSends(done[..n - 2], pollMs, i);
      assert done == done[..n - 2] + [done[n - 2], done[n - 1]];
    }
  }

  /** Never a second SIGINT; SIGKILL at most once and only past the budget, with the timeout reported first;
      compose brought down exactly when forced; at most ceil(budget / poll) + 1 probes. */
  lemma OneSigintPerStop(done: seq<Call>, budgetMs: int, pollMs: nat, forced: bool)
    requires pollMs > 0 && Stopped(done, budgetMs, pollMs, forced)
    ensures Sent(done, Sigint) == 1 && IsKill(done[0], Sigint)
    ensures Sent(done, Sigkill) == if forced then 1 else 0
    ensures (exists call <- done :: call.action == ComposeDown) <==> forced
    ensures !forced ==> done[|done| - 1].action == Kill(Probe, NoSuchProcess)
    ensures forced ==> |done| >= 5 && ForcedEnd(done, |done| - 5, budgetMs)
    ensures budgetMs >= 0 ==> Sent(done, Probe) <= (budgetMs + pollMs - 1) / pollMs + 1
  {
    var polls: nat :| StoppedAfter(done, budgetMs, pollMs, forced, polls);
    if forced { ForcedStop(done, budgetMs, pollMs, polls); } else { UnforcedStop(done, budgetMs, pollMs, polls); }
    if budgetMs >= 0 { CeilingBound(polls, budgetMs, pollMs); }
  }

  lemma ForcedStop(done: seq<Call>, budgetMs: int, pollMs: nat, polls: nat)
    requires StoppedAfter(done, budgetMs, pollMs, true, polls)
    ensures Sent(done, Sigint) == 1 && IsKill(done[0], Sigint)
    ensures Sent(done, Sigkill) == 1 && Sent(done, Probe) == polls + 1
    ensures exists call <- done :: call.action == ComposeDown
  {
    var last := 1 + 2 * polls;
    PollingSends(done[..last], pollMs, polls);
    ForcedSends(done, last, budgetMs);
    assert done[last + 3] in done;
  }

  lemma UnforcedStop(done: seq<Call>, budgetMs: int, pollMs: nat, polls: nat)
    requires StoppedAfter(done, budgetMs, pollMs, false, polls)
    ensures Sent(done, Sigint) == 1 && IsKill(done[0], Sigint)
    ensures Sent(done, Sigkill) == 0 && Sent(done, Probe) == polls + 1
    ensures forall call <- done :: call.action != ComposeDown
  {
    var last := 1 + 2 * polls;
    PollingSends(done[..last], pollMs, polls);
    assert done[..|done| - 1] == done[..last];
    assert done == done[..last] + [done[last]];
  }

  lemma ForcedSends(done: seq<Call>, last: nat, budgetMs: int)
    requires ForcedEnd(done, last, budgetMs)
    ensures Sent(done, Sigint) == Sent(done[..last], Sigint)
    ensures Sent(done, Sigkill) == Sent(done[..last], Sigkill) + 1
    ensures Sent(done, Probe) == Sent(done[..last], Probe) + 1
  {
    forall signal ensures Sent(done, signal)
        == Sent(done[..last], signal) + Sends(done[last], signal) + Sends(done[last + 2], signal) {
      SentStep(done, last, signal);
      SentStep(done, last + 1, signal);
      SentStep(done, last + 2, signal);
      SentStep(done, last + 3, signal);
      SentStep(done, last + 4, signal);
      assert done[..last + 5] == done;
    }
  }

  lemma SentStep(done: seq<Call>, n: nat, signal: Signal)
    requires n < |done|
    ensures Sent(done[..n + 1], signal) == Sent(done[..n], signal) + Sends(done[n], signal)
  {
    assert done[..n + 1][..n] == done[..n];
  }

  lemma CeilingBound(polls: nat, budgetMs: nat, pollMs: nat)
    requires pollMs > 0 && (polls > 0 ==> (polls - 1) * pollMs < budgetMs)
    ensures polls <= (budgetMs + pollMs - 1) / pollMs
  {
    var q := (budgetMs + pollMs - 1) / pollMs;
    assert (q + 1) * pollMs == q * pollMs + pollMs > budgetMs + pollMs - 1;
    assert polls > 0 ==> polls * pollMs == (polls - 1) * pollMs + pollMs;
    MoreTimes(q + 1, polls, pollMs);
  }

  lemma MoreTimes(a: nat, b: nat, k: nat)
    ensures a <= b ==> a * k <= b * k
  {
    assert b * k == a * k + (b - a) * k;
  }
}
