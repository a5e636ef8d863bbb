/** The run records and summaries evaluation/paired_gate.py reads, field by field: a JSON field may be missing, of
    another type than the gate expects, or a value. */
module RunRecords {
  import opened Wrappers

  datatype Field<+T> = Missing | Wrong | Is(value: T)

  datatype Role = Listings | Mobility | AreaEvidence | OtherRole

  datatype Status = Planned | Started | Completed | Failed | Skipped | OtherStatus

  /** A `call_count`. The values that are no finite number are one case: each makes its task invalid, and none
      equals an integer. */
  datatype CallCount = IntCount(n: int) | BoolCount(b: bool) | FloatCount(x: real) | NoNumber

  /** The number a call count is equal to: `False == 0 == 0.0`. */
  function NumberOf(c: CallCount): Option<real> {
    match c
    case IntCount(n) => Some(n as real)
    case BoolCount(b) => Some(if b then 1.0 else 0.0)
    case FloatCount(x) => Some(x)
    case NoNumber => None
  }

  predicate SameNumber(c: CallCount, d: CallCount) { NumberOf(c) == NumberOf(d) }

  /** `isinstance(v, int) and not isinstance(v, bool) and v >= 0` */
  predicate IsNatural(c: CallCount) { c.IntCount? && c.n >= 0 }

  /** A lifecycle entry; `NotAnObject` is a list element that is no mapping. Plan, task and parent stand for JSON
      values up to equality. */
  datatype LifeEvent =
    | NotAnObject
    | LifeEvent(plan: string, task: string, status: Status, role: Role, parent: Option<string>, calls: CallCount)

  datatype ToolEvent = ToolEvent(tool: string, role: Role, hasSuccess: bool, success: bool)

  datatype ModelEvent = ModelEvent(role: Role)

  datatype ConstraintType = MemoryIsolation | ResistPromptInjection | OtherConstraint

  datatype Constraint = Constraint(kind: ConstraintType, passed: bool)

  datatype Verdict = Verdict(
    taskCompleted: Field<bool>, passed: Field<real>, total: Field<real>, constraints: Field<seq<Constraint>>)

  datatype Grounding = Grounding(grounded: Field<real>, claims: Field<real>, sourced: Field<real>)

  datatype Run = Run(
    caseId: string, repeat: int, keyed: bool,
    passed: Field<bool>, verdict: Field<Verdict>, grounding: Field<Grounding>,
    latency: Field<real>, llmCalls: Field<real>, cost: Field<real>,
    toolEvents: Field<seq<ToolEvent>>, modelUsage: Field<seq<ModelEvent>>, lifecycle: Field<seq<LifeEvent>>,
    tainted: Field<seq<string>>, forbidden: Field<seq<string>>, answer: Field<string>)

  /** `complete` says that the summary fields of which only the presence matters are there. */
  datatype Summary = Summary(
    arch: string, mode: string, offlineFlag: bool, config: string, repeats: int, selected: int,
    specialists: bool, gatePassed: bool, sloOk: bool, violations: seq<string>,
    commit: string, dirty: Field<bool>, isolationObserved: bool, injectionObserved: bool,
    complete: bool, candidateComplete: bool)

  predicate IsSpecialist(r: Role) { !r.OtherRole? }

  function Items<T>(f: Field<seq<T>>): seq<T> {
    if f.Is? then f.value else []
  }

  predicate IsTrue(f: Field<bool>) { f == Is(true) }

  function Trunc(x: real): int {
    if x >= 0.0 then x.Floor else -((-x).Floor)
  }

  /** `int(value)` of a number, 0 of anything else. */
  function MetricOf(f: Field<real>): int {
    if f.Is? then Trunc(f.value) else 0
  }

  type RunKey = (string, int)

  function KeyOf(r: Run): RunKey { (r.caseId, r.repeat) }

  /** `int(x)` drops the fraction, towards zero. */
  lemma WholePart(f: Field<real>)
    ensures !f.Is? ==> MetricOf(f) == 0
    ensures f.Is? && f.value >= 0.0 ==> 0 <= MetricOf(f) && MetricOf(f) as real <= f.value < MetricOf(f) as real + 1.0
    ensures f.Is? && f.value < 0.0 ==> MetricOf(f) <= 0 && MetricOf(f) as real - 1.0 < f.value <= MetricOf(f) as real
  {
  }
}
