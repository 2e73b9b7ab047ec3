/**
 * Runs of the monitor: because every entry point executes under the one
 * monitor lock, any concurrent execution is a sequence of the atomic steps of
 * TableSpec. This module states what every such sequence preserves.
 */
module TableTraces {
  import opened TableSpec

  /** One atomic step taken by some thread. */
  datatype Op = PickUpOp(id: int) | PutDownOp(id: int) | RequestTalkOp | EndTalkOp

  /** The step names a philosopher who sits at a table of `n`. */
  predicate Fits(n: nat, op: Op) {
    match op
    case PickUpOp(id) => IsPhilosopher(n, id)
    case PutDownOp(id) => IsPhilosopher(n, id)
    case _ => true
  }

  predicate AllFit(n: nat, ops: seq<Op>) {
    forall i :: 0 <= i < |ops| ==> Fits(n, ops[i])
  }

  /** The step `op` changes chopstick `k`, or may. */
  predicate Touches(n: nat, op: Op, k: int) {
    (op.PickUpOp? || op.PutDownOp?) && IsPhilosopher(n, op.id) && Adjacent(n, op.id, k)
  }

  function Apply(t: Table, op: Op): (r: StepResult)
    requires Fits(|t.sticks|, op)
    ensures |r.table.sticks| == |t.sticks|
    ensures forall k :: 0 <= k < |t.sticks| && !Touches(|t.sticks|, op, k) ==> r.table.sticks[k] == t.sticks[k]
    ensures !op.RequestTalkOp? && !op.EndTalkOp? ==> r.table.someoneTalking == t.someoneTalking
  {
    match op
    case PickUpOp(id) => PickUpStep(t, id)
    case PutDownOp(id) => StepResult(PutDownStep(t, id), true)
    case RequestTalkOp => RequestTalkStep(t)
    case EndTalkOp => StepResult(EndTalkStep(t), true)
  }

  /** The state after the steps `ops`, taken one after another. */
  function Run(t: Table, ops: seq<Op>): (r: Table)
    requires AllFit(|t.sticks|, ops)
    ensures |r.sticks| == |t.sticks|
    decreases |ops|
  {
    if ops == [] then t else Run(Apply(t, ops[0]).table, ops[1..])
  }

  /** Chopstick `k` looks as the monitor created it, or it was last taken by
      one of the two philosophers who sit beside it. */
  predicate StickConsistent(n: nat, k: int, c: Stick) {
    c == Unused || (IsPhilosopher(n, c.lastPickedUpBy) && Adjacent(n, c.lastPickedUpBy, k))
  }

  predicate Consistent(t: Table) {
    forall k :: 0 <= k < |t.sticks| ==> StickConsistent(|t.sticks|, k, t.sticks[k])
  }

  lemma InitialConsistent(n: nat)
    ensures Consistent(Initial(n))
  {
  }

  lemma ApplyKeepsConsistent(t: Table, op: Op)
    requires Fits(|t.sticks|, op) && Consistent(t)
    ensures Consistent(Apply(t, op).table)
  {
    var n := |t.sticks|;
    var t' := Apply(t, op).table;
    forall k | 0 <= k < n
      ensures StickConsistent(n, k, t'.sticks[k])
    {
      if Touches(n, op, k) {
        match op
        case PickUpOp(id) =>
          assert t'.sticks[k] == t.sticks[k] || t'.sticks[k] == Stick(true, id);
        case PutDownOp(id) =>
          assert t'.sticks[k] == Stick(false, t.sticks[k].lastPickedUpBy);
      }
    }
  }

  /** Every chopstick, after any run from a consistent state, is still
      untouched or last taken by one of its two neighbours. In particular a
      held chopstick is always held by a neighbour. */
  lemma {:induction false} RunKeepsConsistent(t: Table, ops: seq<Op>)
    requires AllFit(|t.sticks|, ops) && Consistent(t)
    ensures Consistent(Run(t, ops))
    decreases |ops|
  {
    if ops != [] {
      ApplyKeepsConsistent(t, ops[0]);
      RunKeepsConsistent(Apply(t, ops[0]).table, ops[1..]);
    }
  }

  /** Steps by philosophers who do not sit beside chopstick `k`, and talk
      steps, leave chopstick `k` as it was. */
  lemma {:induction false} RunLeavesUntouched(t: Table, ops: seq<Op>, k: int)
    requires AllFit(|t.sticks|, ops) && 0 <= k < |t.sticks|
    requires forall i :: 0 <= i < |ops| ==> !Touches(|t.sticks|, ops[i], k)
    ensures Run(t, ops).sticks[k] == t.sticks[k]
    decreases |ops|
  {
    if ops != [] {
      RunLeavesUntouched(Apply(t, ops[0]).table, ops[1..], k);
    }
  }

  /** Talk exclusion: once a talk request has completed, and until some
      thread ends the talk, the flag stays set and no further talk request
      can complete. */
  lemma {:induction false} NoSecondSpeaker(t: Table, ops: seq<Op>)
    requires AllFit(|t.sticks|, ops) && t.someoneTalking
    requires forall i :: 0 <= i < |ops| ==> ops[i] != EndTalkOp
    ensures Run(t, ops).someoneTalking
    ensures !RequestTalkStep(Run(t, ops)).done
    decreases |ops|
  {
    if ops != [] {
      NoSecondSpeaker(Apply(t, ops[0]).table, ops[1..]);
    }
  }

  /** Five philosophers at a new table: philosopher 1 gets both chopsticks at
      once; philosopher 2, who shares chopstick 1 with them, must wait; once
      philosopher 1 has put down, philosopher 2 gets through. */
  lemma FiveSeatScenario()
    ensures var t0 := Initial(5);
      var a := PickUpStep(t0, 1);
      var b := PickUpStep(a.table, 2);
      var c := PickUpStep(PutDownStep(b.table, 1), 2);
      a.done && !b.done && c.done
  {
    var t0 := Initial(5);
    var a := PickUpStep(t0, 1);
    assert a.table.sticks[1] == Stick(true, 1);
    var b := PickUpStep(a.table, 2);
    var t3 := PutDownStep(b.table, 1);
    assert !t3.sticks[1].pickedUp && !t3.sticks[2].pickedUp;
  }

  /** Speakers A, B and C: A's request completes; B's fails while A talks;
      after A ends, B's completes and C's fails. */
  lemma TalkScenario(t: Table)
    requires !t.someoneTalking
    ensures var a := RequestTalkStep(t);
      var b := RequestTalkStep(a.table);
      var b' := RequestTalkStep(EndTalkStep(b.table));
      var c := RequestTalkStep(b'.table);
      a.done && !b.done && b'.done && !c.done
  {
  }
}
