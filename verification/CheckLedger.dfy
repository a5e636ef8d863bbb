/** The check ledger of evaluation/paired_gate.py (`_Checks`), the vacuity overlay, the round outcome and its exit
    code. */
module CheckLedger {

  datatype Outcome = PROMOTE | HOLD | BLOCK | VACUOUS | LOW_POWER | NOT_MEASURABLE_OFFLINE

  datatype RoundOutcome = RoundPromote | HoldUnmeasurable | HoldRegression | RoundBlock

  datatype Check =
    | ResultFiles | ArmContract | ArmConsistency | PairedSample | MeasurementCompleteness | IdentityBinding
    | ZeroToleranceSecurity | ExistingGates | TaskCompletion | ConstraintQuality | PairedPassQuality
    | GroundedEvidence | SourceCoverage | P95LatencyBudget | LlmCallBudget | ToolCallBudget
    | ToolFailureNoninferiority | CostBudget | SpecialistLifecycle | MemoryIsolationCheck | PromptInjectionCheck
    | MemorySafetyCoverage | Distinctiveness

  datatype Row = Row(check: Check, outcome: Outcome)

  /** `_DISTINCTIVENESS_DEPENDENT_CHECKS` */
  const DEPENDENT: seq<Check> := [
    TaskCompletion, ConstraintQuality, PairedPassQuality, GroundedEvidence, SourceCoverage, MemorySafetyCoverage]

  predicate Holds(o: Outcome) { o in [HOLD, VACUOUS, LOW_POWER] }

  /** A hold that is a measurement: a plain one on anything but the commit binding. */
  predicate Regresses(row: Row) { row.outcome == HOLD && row.check != IdentityBinding }

  predicate SomeRow(rows: seq<Row>, f: Row -> bool) {
    exists i :: 0 <= i < |rows| && f(rows[i])
  }

  /** `_Checks.outcome` */
  function RoundOf(rows: seq<Row>): RoundOutcome {
    if SomeRow(rows, (row: Row) => row.outcome == BLOCK) then RoundBlock
    else if SomeRow(rows, (row: Row) => Regresses(row)) then HoldRegression
    else if SomeRow(rows, (row: Row) => Holds(row.outcome) || row.outcome == NOT_MEASURABLE_OFFLINE) then HoldUnmeasurable
    else RoundPromote
  }

  /** `exit_code` */
  function ExitCode(o: RoundOutcome): int {
    match o
    case RoundPromote => 0
    case HoldUnmeasurable => 2
    case HoldRegression => 4
    case RoundBlock => 3
  }

  /** The round promotes exactly when every check does, blocks exactly when some check does, and names a regression
      exactly when nothing blocks and a check other than the commit binding plainly holds; a plain or
      qualified hold is never lost. */
  lemma {:induction false} RoundExact(rows: seq<Row>)
    ensures RoundOf(rows) == RoundPromote <==> forall i :: 0 <= i < |rows| ==> rows[i].outcome == PROMOTE
    ensures RoundOf(rows) == RoundBlock <==> exists i :: 0 <= i < |rows| && rows[i].outcome == BLOCK
    ensures RoundOf(rows) == HoldRegression <==>
              && (forall i :: 0 <= i < |rows| ==> rows[i].outcome != BLOCK)
              && exists i :: 0 <= i < |rows| && Regresses(rows[i])
    ensures ExitCode(RoundOf(rows)) == 0 <==> forall i :: 0 <= i < |rows| ==> rows[i].outcome == PROMOTE
  {
    if i :| 0 <= i < |rows| && rows[i].outcome != PROMOTE {
      var row := rows[i];
      if row.outcome == BLOCK {
        assert SomeRow(rows, (row: Row) => row.outcome == BLOCK);
      } else if Regresses(row) {
        assert SomeRow(rows, (row: Row) => Regresses(row));
      } else {
        assert SomeRow(rows, (row: Row) => Holds(row.outcome) || row.outcome == NOT_MEASURABLE_OFFLINE);
      }
    }
  }

  /** `promotable_modulo_offline_limits`: nothing blocks and nothing holds. */
  predicate PromotableModuloOffline(rows: seq<Row>) {
    !SomeRow(rows, (row: Row) => Holds(row.outcome)) && !SomeRow(rows, (row: Row) => row.outcome == BLOCK)
  }

  /** The flag is set exactly when every check passes or is not measurable offline. */
  lemma {:induction false} FlagExact(rows: seq<Row>)
    ensures PromotableModuloOffline(rows) <==>
            forall i :: 0 <= i < |rows| ==> rows[i].outcome in [PROMOTE, NOT_MEASURABLE_OFFLINE]
  {
    if i :| 0 <= i < |rows| && rows[i].outcome !in [PROMOTE, NOT_MEASURABLE_OFFLINE] {
      if rows[i].outcome == BLOCK {
        assert SomeRow(rows, (row: Row) => row.outcome == BLOCK);
      } else {
        assert SomeRow(rows, (row: Row) => Holds(row.outcome));
      }
    }
  }

  /* --- the overlay --- */

  function Overlaid(row: Row): Row {
    if row.check in DEPENDENT && row.outcome !in [BLOCK, NOT_MEASURABLE_OFFLINE] then Row(row.check, VACUOUS) else row
  }

  /** The ledger after the overlay of a vacuous round. */
  function Overlay(rows: seq<Row>): seq<Row> {
    seq(|rows|, i requires 0 <= i < |rows| => Overlaid(rows[i]))
  }

  predicate OneRowEach(rows: seq<Row>) {
    forall i, j :: 0 <= i < j < |rows| ==> rows[i].check != rows[j].check
  }

  /** The overlay never hides a block, never makes a check pass, and changes only dependent checks. */
  lemma {:induction false} OverlayOnlyLowers(rows: seq<Row>)
    ensures |Overlay(rows)| == |rows|
    ensures forall i :: 0 <= i < |rows| ==>
              && Overlay(rows)[i].check == rows[i].check
              && (Overlay(rows)[i].outcome == BLOCK <==> rows[i].outcome == BLOCK)
              && (Overlay(rows)[i].outcome == PROMOTE ==> rows[i].outcome == PROMOTE)
              && (rows[i].outcome == NOT_MEASURABLE_OFFLINE ==> Overlay(rows)[i] == rows[i])
              && (rows[i].check !in DEPENDENT ==> Overlay(rows)[i] == rows[i])
    ensures RoundOf(Overlay(rows)) == RoundBlock <==> RoundOf(rows) == RoundBlock
    ensures RoundOf(Overlay(rows)) == RoundPromote ==> RoundOf(rows) == RoundPromote
  {
    RoundExact(rows);
    RoundExact(Overlay(rows));
  }

  class Checks {
    var rows: seq<Row>

    constructor ()
      ensures rows == []
    {
      rows := [];
    }

    method Add(check: Check, outcome: Outcome)
      modifies this
      ensures rows == old(rows) + [Row(check, outcome)]
    {
      rows := rows + [Row(check, outcome)];
    }

    /** The index of the first row of a check, or the number of rows. */
    method Find(check: Check) returns (i: nat)
      ensures i <= |rows|
      ensures i < |rows| ==> rows[i].check == check
      ensures forall k :: 0 <= k < i ==> rows[k].check != check
    {
      i := 0;
      while i < |rows| && rows[i].check != check
        invariant 0 <= i <= |rows|
        invariant forall k :: 0 <= k < i ==> rows[k].check != check
      {
        i := i + 1;
      }
    }

    /** Rewrites a recorded outcome in place, unless it blocks. */
    method SetOutcome(check: Check, outcome: Outcome) returns (done: bool)
      requires OneRowEach(rows)
      modifies this
      ensures |rows| == |old(rows)|
      ensures forall k :: 0 <= k < |rows| ==>
                rows[k] == if old(rows)[k].check == check && old(rows)[k].outcome != BLOCK then Row(check, outcome)
                           else old(rows)[k]
      ensures done <==> exists k :: 0 <= k < |old(rows)| && old(rows)[k].check == check && old(rows)[k].outcome != BLOCK
    {
      var i := Find(check);
      if i == |rows| || rows[i].outcome == BLOCK { return false; }
      rows := rows[i := Row(check, outcome)];
      return true;
    }

    /** The overlay loop over the dependent checks. */
    method ApplyOverlay()
      requires OneRowEach(rows)
      modifies this
      ensures rows == Overlay(old(rows))
    {
      for n := 0 to |DEPENDENT|
        invariant |rows| == |old(rows)| && OneRowEach(rows)
        invariant forall k :: 0 <= k < |rows| ==>
                    rows[k] == if old(rows)[k].check in DEPENDENT[..n] then Overlaid(old(rows)[k]) else old(rows)[k]
      {
        var check := DEPENDENT[n];
        assert DEPENDENT[..n + 1] == DEPENDENT[..n] + [check];
        assert check !in DEPENDENT[..n];
        var i := Find(check);
        if i < |rows| && rows[i].outcome !in [BLOCK, NOT_MEASURABLE_OFFLINE] {
          var done := SetOutcome(check, VACUOUS);
        }
      }
      assert DEPENDENT[..|DEPENDENT|] == DEPENDENT;
    }
  }
}
