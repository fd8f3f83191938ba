/** Tool calls with retries, one configured fallback, and one trace record per attempt (tools/executor.py). */
module ToolExecution {
  import opened Sequences

  datatype TraceRecord = TraceRecord(
    toolName: string, success: bool, attempt: nat, maxAttempts: nat, isFallback: bool, originalTool: Option<string>)

  datatype Observation = Observation(tool: string, output: Option<string>, success: bool, error: Option<string>)

  /** What one `tool.run` does: return an output, or raise (a timeout counts as raising). */
  datatype RunOutcome = Returned(output: string) | Raised(error: string)

  /** The records of one retry loop: attempts numbered from 1, all for one tool, only the last possibly
      successful, and every attempt used up when none succeeded. */
  ghost predicate IsRetryLoop(
    recs: seq<TraceRecord>, tool: string, isFallback: bool, original: Option<string>, maxAttempts: nat, success: bool)
  {
    && 1 <= |recs| <= maxAttempts
    && (forall i :: 0 <= i < |recs| ==>
          && recs[i].toolName == tool && recs[i].attempt == i + 1
          && recs[i].maxAttempts == maxAttempts && recs[i].isFallback == isFallback
          && recs[i].originalTool == original
          && recs[i].success == (success && i == |recs| - 1))
    && (!success ==> |recs| == maxAttempts)
  }

  /** Some run numbered r, ..., r+n-1 returns. An unknown tool is never run. */
  ghost predicate SomeReturns(world: nat -> RunOutcome, known: bool, r: nat, n: nat) {
    known && exists j: nat :: r <= j < r + n && world(j).Returned?
  }

  function RunsAfter(known: bool, r: nat, n: nat): nat {
    if known then r + n else r
  }

  /** What the tool runs make of a retry loop of n attempts whose runs are numbered from r: it succeeds if and only if
      some allowed run returns, then with the first such run and its output; else it used all attempts, and the error is
      the last one raised. */
  ghost predicate LoopRuns(
    world: nat -> RunOutcome, known: bool, r: nat, n: nat, maxAttempts: nat, obs: Observation)
  {
    && (obs.success <==> SomeReturns(world, known, r, maxAttempts))
    && 1 <= n <= maxAttempts
    && !SomeReturns(world, known, r, n - 1)
    && (obs.success ==>
          && world(r + n - 1).Returned? && obs.output == Some(world(r + n - 1).output) && obs.error == None)
    && (!obs.success ==> n == maxAttempts && obs.output == None && obs.error.Some?)
    && (!obs.success && known ==> world(r + n - 1).Raised? && obs.error == Some(world(r + n - 1).error))
  }

  lemma NoRuns(world: nat -> RunOutcome, known: bool, r: nat)
    ensures !SomeReturns(world, known, r, 0)
  {
  }

  lemma OneMoreRaises(world: nat -> RunOutcome, known: bool, r: nat, n: nat)
    requires !SomeReturns(world, known, r, n) && (known ==> world(r + n).Raised?)
    ensures !SomeReturns(world, known, r, n + 1)
  {
  }

  lemma FirstReturn(world: nat -> RunOutcome, r: nat, n: nat, maxAttempts: nat, tool: string)
    requires n < maxAttempts && !SomeReturns(world, true, r, n) && world(r + n).Returned?
    ensures LoopRuns(world, true, r, n + 1, maxAttempts, Observation(tool, Some(world(r + n).output), true, None))
  {
    assert r <= r + n < r + maxAttempts;
  }

  lemma NeverReturned(
    world: nat -> RunOutcome, known: bool, r: nat, maxAttempts: nat, tool: string, error: string)
    requires maxAttempts >= 1 && !SomeReturns(world, known, r, maxAttempts)
    requires known ==> world(r + maxAttempts - 1).Raised? && error == world(r + maxAttempts - 1).error
    ensures LoopRuns(world, known, r, maxAttempts, maxAttempts, Observation(tool, None, false, Some(error)))
  {
  }

  /** What the tool runs make of a whole call: the loop of the tool itself, and when that fails the loop of the fallback
      on the runs that follow. */
  ghost predicate CallRuns(
    world: nat -> RunOutcome, registry: set<string>, tool: string, fallbackTools: map<string, string>, r: nat, n: nat,
    maxAttempts: nat, obs: Observation)
  {
    var known := tool in registry;
    if SomeReturns(world, known, r, maxAttempts) || !HasFallback(tool, fallbackTools)
    then LoopRuns(world, known, r, n, maxAttempts, obs)
    else n > maxAttempts
         && LoopRuns(world, fallbackTools[tool] in registry, RunsAfter(known, r, maxAttempts), n - maxAttempts,
                     maxAttempts, obs)
  }

  /** So a call succeeds if and only if a run of the tool returns, or one of its fallback. */
  lemma CallSucceedsIff(
    world: nat -> RunOutcome, registry: set<string>, tool: string, fallbackTools: map<string, string>, r: nat, n: nat,
    maxAttempts: nat, obs: Observation)
    requires CallRuns(world, registry, tool, fallbackTools, r, n, maxAttempts, obs)
    ensures obs.success <==>
            || SomeReturns(world, tool in registry, r, maxAttempts)
            || (HasFallback(tool, fallbackTools)
                && SomeReturns(world, fallbackTools[tool] in registry, RunsAfter(tool in registry, r, maxAttempts),
                               maxAttempts))
  {
  }

  /** The fallback the reliability policy names for a tool, if any (an empty name is falsy). */
  predicate HasFallback(tool: string, fallbackTools: map<string, string>) {
    tool in fallbackTools && fallbackTools[tool] != ""
  }

  /** The records of one call: the primary loop, then the fallback's loop exactly when the primary failed
      and a fallback is configured. */
  ghost predicate IsReliableCall(
    recs: seq<TraceRecord>, tool: string, fallbackTools: map<string, string>, maxAttempts: nat, success: bool)
  {
    || (IsRetryLoop(recs, tool, false, None, maxAttempts, success) && (success || !HasFallback(tool, fallbackTools)))
    || (&& HasFallback(tool, fallbackTools) && |recs| > maxAttempts
        && IsRetryLoop(recs[..maxAttempts], tool, false, None, maxAttempts, false)
        && IsRetryLoop(recs[maxAttempts..], fallbackTools[tool], true, Some(tool), maxAttempts, success))
  }

  lemma PrimaryOnly(
    world: nat -> RunOutcome, registry: set<string>, recs: seq<TraceRecord>, tool: string,
    fallbackTools: map<string, string>, maxAttempts: nat, r: nat, obs: Observation)
    requires IsRetryLoop(recs, tool, false, None, maxAttempts, obs.success)
    requires LoopRuns(world, tool in registry, r, |recs|, maxAttempts, obs)
    requires obs.success || !HasFallback(tool, fallbackTools)
    ensures IsReliableCall(recs, tool, fallbackTools, maxAttempts, obs.success)
    ensures CallRuns(world, registry, tool, fallbackTools, r, |recs|, maxAttempts, obs)
  {
    hide IsRetryLoop, SomeReturns;
  }

  lemma ThenFallback(
    world: nat -> RunOutcome, registry: set<string>, primary: seq<TraceRecord>, rest: seq<TraceRecord>, tool: string,
    fallbackTools: map<string, string>, maxAttempts: nat, r: nat, failed: Observation, obs: Observation)
    requires HasFallback(tool, fallbackTools) && !failed.success
    requires IsRetryLoop(primary, tool, false, None, maxAttempts, false)
    requires LoopRuns(world, tool in registry, r, |primary|, maxAttempts, failed)
    requires IsRetryLoop(rest, fallbackTools[tool], true, Some(tool), maxAttempts, obs.success)
    requires LoopRuns(world, fallbackTools[tool] in registry, RunsAfter(tool in registry, r, |primary|), |rest|,
                      maxAttempts, obs)
    ensures IsReliableCall(primary + rest, tool, fallbackTools, maxAttempts, obs.success)
    ensures CallRuns(world, registry, tool, fallbackTools, r, |primary| + |rest|, maxAttempts, obs)
  {
    hide SomeReturns;
    assert (primary + rest)[..maxAttempts] == primary && (primary + rest)[maxAttempts..] == rest;
  }

  /** A call makes at most two loops' worth of attempts, succeeds at most once, and only with its last attempt. */
  lemma ReliableCallCost(
    recs: seq<TraceRecord>, tool: string, fallbackTools: map<string, string>, maxAttempts: nat, success: bool)
    requires IsReliableCall(recs, tool, fallbackTools, maxAttempts, success)
    ensures 1 <= |recs| <= 2 * maxAttempts
    ensures forall i :: 0 <= i < |recs| - 1 ==> !recs[i].success
    ensures recs[|recs| - 1].success == success
  {
    if |recs| > maxAttempts {
      var a, b := recs[..maxAttempts], recs[maxAttempts..];
      assert forall i :: 0 <= i < |a| ==> recs[i] == a[i];
      assert forall i :: maxAttempts <= i < |recs| ==> recs[i] == b[i - maxAttempts];
    }
  }

  function RegisteredCount(recs: seq<TraceRecord>, registry: set<string>): nat {
    if recs == [] then 0
    else RegisteredCount(recs[..|recs| - 1], registry) + (if recs[|recs| - 1].toolName in registry then 1 else 0)
  }

  lemma {:induction false} RegisteredCountBound(recs: seq<TraceRecord>, registry: set<string>, more: seq<TraceRecord>)
    ensures RegisteredCount(recs, registry) <= RegisteredCount(recs + more, registry)
            <= RegisteredCount(recs, registry) + |more|
  {
    if more == [] {
      assert recs + more == recs;
    } else {
      assert (recs + more)[..|recs + more| - 1] == recs + more[..|more| - 1];
      RegisteredCountBound(recs, registry, more[..|more| - 1]);
    }
  }

  /** The name put on an observation plays no part. */
  lemma ToolIsMoot(obs: Observation, tool: string)
    ensures forall world, known, r, n, max ::
              LoopRuns(world, known, r, n, max, obs) <==> LoopRuns(world, known, r, n, max, obs.(tool := tool))
    ensures forall world, registry, t, fallbacks, r, n, max ::
              CallRuns(world, registry, t, fallbacks, r, n, max, obs) <==>
              CallRuns(world, registry, t, fallbacks, r, n, max, obs.(tool := tool))
  {
    hide SomeReturns;
  }

  class ToolExecutor {
    const registry: set<string>
    const maxRetries: nat
    const fallbackTools: map<string, string>
    /** The outcome of the k-th tool run of this executor, whatever tool it is. */
    const outcome: nat -> RunOutcome

    var runs: nat
    var records: seq<TraceRecord>

    constructor (tools: set<string>, retries: nat, fallbacks: map<string, string>, world: nat -> RunOutcome)
      ensures Valid() && registry == tools && maxRetries == retries && fallbackTools == fallbacks && records == []
    {
      registry, maxRetries, fallbackTools, outcome := tools, retries, fallbacks, world;
      runs, records := 0, [];
    }

    /** Every tool run left exactly one trace record, and the other records are attempts on unknown tools. */
    ghost predicate Valid()
      reads this
    {
      runs == RegisteredCount(records, registry)
    }

    function MaxAttempts(): nat {
      1 + maxRetries
    }

    method TryWithRetries(tool: string, isFallback: bool, originalTool: Option<string>) returns (obs: Observation)
      requires Valid()
      modifies this
      ensures Valid() && old(records) <= records
      ensures IsRetryLoop(records[|old(records)|..], tool, isFallback, originalTool, MaxAttempts(), obs.success)
      ensures LoopRuns(outcome, tool in registry, old(runs), |records| - |old(records)|, MaxAttempts(), obs)
      ensures runs == RunsAfter(tool in registry, old(runs), |records| - |old(records)|)
      ensures obs.tool == tool
    {
      hide SomeReturns, LoopRuns;
      var lastError: Option<string> := None;
      ghost var start, known := records, tool in registry;
      NoRuns(outcome, known, runs);
      for attempt := 1 to MaxAttempts() + 1
        invariant Valid() && |records| == |start| + attempt - 1 && start <= records
        invariant runs == RunsAfter(known, old(runs), attempt - 1)
        invariant !SomeReturns(outcome, known, old(runs), attempt - 1)
        invariant attempt > 1 ==> lastError.Some?
        invariant attempt > 1 && known ==> outcome(runs - 1).Raised? && lastError.value == outcome(runs - 1).error
        invariant forall i :: |start| <= i < |records| ==>
                                records[i] ==
                                  TraceRecord(tool, false, i - |start| + 1, MaxAttempts(), isFallback, originalTool)
      {
        // registry.get raises for an unknown tool, before anything runs
        var result := if tool in registry then outcome(runs) else Raised("unknown tool");
        if tool in registry {
          runs := runs + 1;
        }
        records := records + [TraceRecord(tool, result.Returned?, attempt, MaxAttempts(), isFallback, originalTool)];
        if result.Returned? {
          FirstReturn(outcome, old(runs), attempt - 1, MaxAttempts(), tool);
          return Observation(tool, Some(result.output), true, None);
        }
        OneMoreRaises(outcome, known, old(runs), attempt - 1);
        lastError := Some(result.error);
      }
      NeverReturned(outcome, known, old(runs), MaxAttempts(), tool, lastError.value);
      obs := Observation(tool, None, false, lastError);
    }

    method ExecuteWithReliability(tool: string, requested: string, isFallback: bool) returns (obs: Observation)
      requires Valid() && (!isFallback ==> tool == requested)
      modifies this
      ensures Valid() && old(records) <= records
      ensures obs.tool == requested
      ensures !isFallback ==> IsReliableCall(records[|old(records)|..], tool, fallbackTools, MaxAttempts(), obs.success)
      ensures isFallback ==>
                IsRetryLoop(records[|old(records)|..], tool, true, Some(requested), MaxAttempts(), obs.success)
      ensures var n := |records| - |old(records)|;
              if isFallback
              then LoopRuns(outcome, tool in registry, old(runs), n, MaxAttempts(), obs)
                   && runs == RunsAfter(tool in registry, old(runs), n)
              else CallRuns(outcome, registry, tool, fallbackTools, old(runs), n, MaxAttempts(), obs)
      decreases !isFallback
    {
      hide IsRetryLoop, LoopRuns, IsReliableCall, CallRuns;
      ghost var start := records;
      obs := TryWithRetries(tool, isFallback, if isFallback then Some(requested) else None);
      ghost var primary, first := records[|start|..], obs;
      if obs.success {
        if !isFallback {
          PrimaryOnly(outcome, registry, primary, tool, fallbackTools, MaxAttempts(), old(runs), obs);
        }
        ToolIsMoot(obs, requested);
        return obs.(tool := requested);
      }
      if !isFallback {
        if HasFallback(requested, fallbackTools) {
          ghost var middle := records;
          obs := ExecuteWithReliability(fallbackTools[requested], requested, true);
          assert records[|start|..] == primary + records[|middle|..];
          ThenFallback(outcome, registry, primary, records[|middle|..], tool, fallbackTools, MaxAttempts(), old(runs),
                       first, obs);
          return;
        }
        PrimaryOnly(outcome, registry, primary, tool, fallbackTools, MaxAttempts(), old(runs), obs);
      }
      ToolIsMoot(obs, requested);
      obs := obs.(tool := requested);
    }

    method ExecuteLlmCall(tool: string) returns (obs: Observation)
      requires Valid()
      modifies this
      ensures Valid() && old(records) <= records && obs.tool == tool
      ensures IsReliableCall(records[|old(records)|..], tool, fallbackTools, MaxAttempts(), obs.success)
      ensures CallRuns(outcome, registry, tool, fallbackTools, old(runs), |records| - |old(records)|, MaxAttempts(),
                       obs)
      ensures old(runs) <= runs <= old(runs) + 2 * MaxAttempts()
      ensures |records| <= |old(records)| + 2 * MaxAttempts()
    {
      hide CallRuns, IsReliableCall;
      obs := ExecuteWithReliability(tool, tool, false);
      ReliableCallCost(records[|old(records)|..], tool, fallbackTools, MaxAttempts(), obs.success);
      RegisteredCountBound(old(records), registry, records[|old(records)|..]);
      assert old(records) + records[|old(records)|..] == records;
    }
  }
}
