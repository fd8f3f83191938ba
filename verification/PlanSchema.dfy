/** The plan data model shared by every component (schemas/plan.py). */
module PlanSchema {
  import opened Sequences

  datatype StepStatus = Pending | Running | Completed | Failed | Skipped

  /** `tool_hint` and `dependency` are optional in the schema; `Deps` is the `dependency or []` of the code. */
  datatype PlanStep = PlanStep(id: int, task: string, toolHint: Option<string>, dependency: Option<seq<int>>) {
    function Deps(): seq<int> {
      if dependency.Some? then dependency.value else []
    }

    /** Python truthiness of `tool_hint`: neither None nor the empty string. */
    predicate HasTool() {
      toolHint.Some? && toolHint.value != ""
    }
  }

  datatype Plan = Plan(goal: string, steps: seq<PlanStep>)

  datatype StepResult = StepResult(
    stepId: int, task: string, status: StepStatus, toolName: Option<string>,
    observation: Option<string>, error: Option<string>, attempt: nat, recoveryAction: Option<string>)

  datatype TraceEntry = TraceEntry(
    stepId: int, task: string, status: StepStatus, toolName: Option<string>, success: Option<bool>,
    error: Option<string>, attempt: nat, recoveryAction: Option<string>)

  function IdOf(s: PlanStep): int { s.id }

  function Ids(steps: seq<PlanStep>): (ids: seq<int>)
    ensures |ids| == |steps| && forall i :: 0 <= i < |ids| ==> ids[i] == steps[i].id
  {
    Map(IdOf, steps)
  }

  function IdSet(steps: seq<PlanStep>): set<int> {
    set s | s in steps :: s.id
  }

  ghost predicate DistinctIds(steps: seq<PlanStep>) {
    DistinctKeys(steps, IdOf)
  }

  lemma IdSetSnoc(front: seq<PlanStep>, last: PlanStep)
    ensures IdSet(front + [last]) == IdSet(front) + {last.id}
  {
    assert forall s :: s in front + [last] <==> s in front || s == last;
  }

  lemma DistinctIdsSnoc(front: seq<PlanStep>, last: PlanStep)
    ensures DistinctIds(front + [last]) <==> DistinctIds(front) && last.id !in IdSet(front)
  {
    var steps := front + [last];
    if DistinctIds(steps) {
      forall s | s in front ensures s.id != last.id {
        var i :| 0 <= i < |front| && front[i] == s;
        assert IdOf(steps[i]) != IdOf(steps[|front|]);
      }
      forall i, j | 0 <= i < j < |front| ensures IdOf(front[i]) != IdOf(front[j]) {
        assert IdOf(steps[i]) != IdOf(steps[j]);
      }
    }
    if DistinctIds(front) && last.id !in IdSet(front) {
      forall i, j | 0 <= i < j < |steps| ensures IdOf(steps[i]) != IdOf(steps[j]) {
        assert front[i] in front;
      }
    }
  }

  lemma {:induction false} FilterDistinctIds(p: PlanStep -> bool, steps: seq<PlanStep>)
    requires DistinctIds(steps)
    ensures DistinctIds(Filter(p, steps))
  {
    if steps != [] {
      var rest := steps[1..];
      forall i, j | 0 <= i < j < |rest| ensures IdOf(rest[i]) != IdOf(rest[j]) {
        assert IdOf(steps[i + 1]) != IdOf(steps[j + 1]);
      }
      FilterDistinctIds(p, rest);
      var kept := Filter(p, rest);
      forall i | 0 <= i < |kept| ensures IdOf(kept[i]) != IdOf(steps[0]) {
        assert kept[i] in rest;
        var k :| 0 <= k < |rest| && rest[k] == kept[i];
        assert IdOf(steps[0]) != IdOf(steps[k + 1]);
      }
    }
  }

  predicate Finished(status: StepStatus) {
    status == Completed || status == Skipped
  }

  // ------------------------------------------------------------- str.strip()

  predicate IsSpace(c: char) {
    var n := c as int;
    || 0x09 <= n <= 0x0d || 0x1c <= n <= 0x20 || n == 0x85 || n == 0xa0 || n == 0x1680
    || 0x2000 <= n <= 0x200a || n == 0x2028 || n == 0x2029 || n == 0x202f || n == 0x205f || n == 0x3000
  }

  function StripLeft(s: string): string {
    if s != "" && IsSpace(s[0]) then StripLeft(s[1..]) else s
  }

  function StripRight(s: string): string {
    if s != "" && IsSpace(s[|s| - 1]) then StripRight(s[..|s| - 1]) else s
  }

  function Strip(s: string): string {
    StripRight(StripLeft(s))
  }

  /** A string that `not s or not s.strip()` rejects. */
  predicate IsBlank(s: string) {
    Strip(s) == ""
  }
}
