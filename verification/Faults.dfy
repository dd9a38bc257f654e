/** What the host may do to a durable operation, and how a procedure can end.

    Every procedure that writes to disk or drives the container runtime takes a fault
    schedule: one verdict for each durable operation it performs, in order. An exhausted
    schedule means that nothing further goes wrong. Quantifying over schedules therefore
    quantifies over every crash point and every combination of failing operations. */
module Faults {

  datatype Option<+T> = None | Some(value: T)

  datatype Verdict =
    | Ok        // the operation takes effect and succeeds
    | Fails     // the operation reports an error and has no effect
    | Crashes   // the process stops just before the operation

  type Schedule = seq<Verdict>

  datatype Outcome = Done | Failed | Crashed

  /** The verdict on the next durable operation. */
  function Next(faults: Schedule): (v: Verdict)
    ensures Quiet(faults) ==> v == Ok
    ensures FailsOnce(faults) ==> v != Crashes
  {
    if faults == [] then Ok else faults[0]
  }

  function Rest(faults: Schedule): (rest: Schedule)
    ensures Quiet(faults) ==> Quiet(rest)
    ensures FailsOnce(faults) ==> if Next(faults) == Ok then FailsOnce(rest) else Quiet(rest)
  {
    if faults == [] then [] else faults[1..]
  }

  /** No operation under this schedule fails and the process does not stop. */
  ghost predicate Quiet(faults: Schedule) {
    forall k :: 0 <= k < |faults| ==> faults[k] == Ok
  }

  /** At most one operation fails, and the process does not stop. */
  ghost predicate FailsOnce(faults: Schedule) {
    faults == [] || (if faults[0] == Ok then FailsOnce(faults[1..]) else faults[0] == Fails && Quiet(faults[1..]))
  }

  /** These are the schedules with one failure in any place. */
  lemma {:induction false} OneFailure(before: Schedule, after: Schedule)
    requires Quiet(before) && Quiet(after)
    ensures FailsOnce(before + [Fails] + after)
  {
    if before != [] {
      OneFailure(before[1..], after);
      assert (before + [Fails] + after)[1..] == before[1..] + [Fails] + after;
    } else {
      assert (before + [Fails] + after)[1..] == after;
    }
  }
}
