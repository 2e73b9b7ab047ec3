/**
 * Mutual exclusion of chopsticks among the philosophers who are eating.
 *
 * In the waiting branch of the acquisition loop, when the left chopstick
 * fails the claim test and the right one passes it, the source claims the
 * left chopstick (Monitor.java line 126), which at that moment may be in a
 * neighbour's hand. This module shows that the as-written step lets two
 * neighbours eat at once, and that claiming the right chopstick in that
 * branch keeps every eating philosopher's chopsticks to themselves.
 */
module Exclusion {
  import opened TableSpec
  import opened TableTraces

  /** The acquisition step with the branch of line 126 claiming the right
      chopstick, the one that passed the test. */
  function IntendedPickUpStep(t: Table, id: int): (r: StepResult)
    requires IsPhilosopher(|t.sticks|, id)
    ensures |r.table.sticks| == |t.sticks| && r.table.someoneTalking == t.someoneTalking
    ensures var n := |t.sticks|; var l, rt := Left(n, id), Right(n, id);
      r.done <==> !t.sticks[l].PickedUpByAnother(id) && !t.sticks[rt].PickedUpByAnother(id)
    ensures var n := |t.sticks|; var l, rt := Left(n, id), Right(n, id);
      r.done ==> r.table.sticks[l] == Stick(true, id) && r.table.sticks[rt] == Stick(true, id)
    // while waiting: the left chopstick is claimed when it passes the test,
    // otherwise the right one when it passes the test
    ensures var n := |t.sticks|; var l, rt := Left(n, id), Right(n, id);
      !r.done ==>
        r.table.sticks[l] == (if Claimable(t.sticks[l], id) then Stick(true, id) else t.sticks[l]) &&
        (rt != l ==>
          r.table.sticks[rt] == if !Claimable(t.sticks[l], id) && Claimable(t.sticks[rt], id) then Stick(true, id) else t.sticks[rt])
    // a waiting philosopher only ever claims a chopstick that passed the test
    ensures forall k :: 0 <= k < |t.sticks| && r.table.sticks[k] != t.sticks[k] ==>
      Adjacent(|t.sticks|, id, k) && r.table.sticks[k] == Stick(true, id) && (r.done || Claimable(t.sticks[k], id))
  {
    var n := |t.sticks|;
    var l, rt := Left(n, id), Right(n, id);
    var s := t.sticks;
    if s[l].PickedUpByAnother(id) || s[rt].PickedUpByAnother(id) then
      if Claimable(s[l], id) then
        StepResult(t.(sticks := s[l := s[l].PickUp(id)]), false)
      else if Claimable(s[rt], id) then
        StepResult(t.(sticks := s[rt := s[rt].PickUp(id)]), false)
      else
        StepResult(t, false)
    else
      StepResult(t.(sticks := s[l := s[l].PickUp(id)][rt := s[rt].PickUp(id)]), true)
  }

  /** The two steps differ only when the step waits, the left chopstick fails
      the claim test and the right one passes it. */
  lemma StepsAgreeUnlessOnlyRightClaimable(t: Table, id: int)
    requires IsPhilosopher(|t.sticks|, id)
    requires var n := |t.sticks|;
      PickUpStep(t, id).done || Claimable(t.sticks[Left(n, id)], id) || !Claimable(t.sticks[Right(n, id)], id)
    ensures IntendedPickUpStep(t, id) == PickUpStep(t, id)
  {
  }

  /** Philosopher `id` has both chopsticks in hand. */
  predicate Holds(t: Table, id: int)
    requires IsPhilosopher(|t.sticks|, id)
  {
    var n := |t.sticks|;
    t.sticks[Left(n, id)] == Stick(true, id) && t.sticks[Right(n, id)] == Stick(true, id)
  }

  /** Every philosopher in `eating` holds both of its chopsticks. */
  predicate Exclusive(t: Table, eating: set<int>) {
    forall e :: e in eating ==> IsPhilosopher(|t.sticks|, e) && Holds(t, e)
  }

  /** So no chopstick is shared by two eating philosophers. */
  lemma ExclusiveDisjoint(t: Table, eating: set<int>, a: int, b: int, k: int)
    requires Exclusive(t, eating) && a in eating && b in eating && a != b
    ensures !(Adjacent(|t.sticks|, a, k) && Adjacent(|t.sticks|, b, k))
  {
  }

  /** Which reading of line 126 the acquisition step follows. */
  datatype Variant = AsWritten | Intended

  /** The table together with the philosophers who have returned from the
      acquisition and not yet put down. */
  datatype Session = Session(table: Table, eating: set<int>)

  /** How the philosopher threads call the monitor: put down only when
      eating; acquiring is allowed at any time, also again while eating. */
  predicate Allowed(s: Session, op: Op) {
    Fits(|s.table.sticks|, op) &&
    match op
    case PutDownOp(id) => id in s.eating
    case _ => true
  }

  function Next(v: Variant, s: Session, op: Op): (s': Session)
    requires Allowed(s, op)
    ensures |s'.table.sticks| == |s.table.sticks|
  {
    match op
    case PickUpOp(id) =>
      var r := if v == AsWritten then PickUpStep(s.table, id) else IntendedPickUpStep(s.table, id);
      Session(r.table, if r.done then s.eating + {id} else s.eating)
    case PutDownOp(id) => Session(PutDownStep(s.table, id), s.eating - {id})
    case _ => Session(Apply(s.table, op).table, s.eating)
  }

  /** The steps `ops` can be taken from `s` by threads that call the monitor
      as they should. */
  predicate Follows(v: Variant, s: Session, ops: seq<Op>)
    decreases |ops|
  {
    ops == [] || (Allowed(s, ops[0]) && Follows(v, Next(v, s, ops[0]), ops[1..]))
  }

  function Final(v: Variant, s: Session, ops: seq<Op>): (s': Session)
    requires Follows(v, s, ops)
    ensures |s'.table.sticks| == |s.table.sticks|
    decreases |ops|
  {
    if ops == [] then s else Final(v, Next(v, s, ops[0]), ops[1..])
  }

  lemma IntendedStepKeepsExclusive(s: Session, op: Op)
    requires Allowed(s, op) && Exclusive(s.table, s.eating)
    ensures Exclusive(Next(Intended, s, op).table, Next(Intended, s, op).eating)
  {
    var n := |s.table.sticks|;
    var s' := Next(Intended, s, op);
    forall e | e in s'.eating
      ensures IsPhilosopher(n, e) && Holds(s'.table, e)
    {
      match op
      case PickUpOp(id) =>
        if e != id {
          assert Holds(s.table, e);
          var l, rt := Left(n, e), Right(n, e);
          assert s'.table.sticks[l] == s.table.sticks[l];
          assert s'.table.sticks[rt] == s.table.sticks[rt];
        }
      case PutDownOp(id) =>
        assert Holds(s.table, e) && e != id;
      case RequestTalkOp =>
        assert Holds(s.table, e);
      case EndTalkOp =>
        assert Holds(s.table, e);
    }
  }

  /** With the intended step, every run by well-behaved threads from a state
      where the eating philosophers hold their chopsticks keeps it so: no
      two neighbours ever eat at the same time. */
  lemma {:induction false} IntendedRunExclusive(s: Session, ops: seq<Op>)
    requires Exclusive(s.table, s.eating) && Follows(Intended, s, ops)
    ensures Exclusive(Final(Intended, s, ops).table, Final(Intended, s, ops).eating)
    decreases |ops|
  {
    if ops != [] {
      IntendedStepKeepsExclusive(s, ops[0]);
      IntendedRunExclusive(Next(Intended, s, ops[0]), ops[1..]);
    }
  }

  /** With the intended step, from a new monitor, after any run by threads
      that put down only when eating, no chopstick is used by two eating
      philosophers. */
  lemma IntendedNeverShares(n: nat, ops: seq<Op>, a: int, b: int, k: int)
    requires Follows(Intended, Session(Initial(n), {}), ops)
    requires var f := Final(Intended, Session(Initial(n), {}), ops); a in f.eating && b in f.eating && a != b
    ensures IsPhilosopher(n, a) && IsPhilosopher(n, b) && !(Adjacent(n, a, k) && Adjacent(n, b, k))
  {
    var s0 := Session(Initial(n), {});
    IntendedRunExclusive(s0, ops);
    ExclusiveDisjoint(Final(Intended, s0, ops).table, Final(Intended, s0, ops).eating, a, b, k);
  }

  /** With the intended step, a philosopher who has to wait cannot get past a
      neighbour's chopstick by itself: the next pass waits again. */
  lemma IntendedWaitIsStable(t: Table, id: int)
    requires IsPhilosopher(|t.sticks|, id) && !IntendedPickUpStep(t, id).done
    ensures !IntendedPickUpStep(IntendedPickUpStep(t, id).table, id).done
  {
  }

  /** As written: at a new table of five, philosopher 1 acquires; a waiting
      pass of philosopher 2 follows; a talk begins and ends, and the
      notification of the end of the talk lets philosopher 2 pass again and
      acquire too, while both use chopstick 1. */
  lemma AsWrittenNeighboursEatTogether()
    ensures var s0 := Session(Initial(5), {});
      var ops := [PickUpOp(1), PickUpOp(2), RequestTalkOp, EndTalkOp, PickUpOp(2)];
      Follows(AsWritten, s0, ops) && Final(AsWritten, s0, ops).eating == {1, 2} &&
      Adjacent(5, 1, 1) && Adjacent(5, 2, 1)
  {
    var s0 := Session(Initial(5), {});
    var s1 := Next(AsWritten, s0, PickUpOp(1));
    assert s1.eating == {1};
    var s2 := Next(AsWritten, s1, PickUpOp(2));
    assert s2.table.sticks[1] == Stick(true, 2) && s2.eating == {1};
    var s3 := Next(AsWritten, s2, RequestTalkOp);
    var s4 := Next(AsWritten, s3, EndTalkOp);
    assert s4.table.sticks == s2.table.sticks && s4.eating == {1};
    var s5 := Next(AsWritten, s4, PickUpOp(2));
    assert s5.eating == {1, 2};
    var ops := [PickUpOp(1), PickUpOp(2), RequestTalkOp, EndTalkOp, PickUpOp(2)];
    assert ops[1..] == [PickUpOp(2), RequestTalkOp, EndTalkOp, PickUpOp(2)];
    assert ops[1..][1..] == [RequestTalkOp, EndTalkOp, PickUpOp(2)];
    assert ops[1..][1..][1..] == [EndTalkOp, PickUpOp(2)];
    assert ops[1..][1..][1..][1..] == [PickUpOp(2)];
    assert Follows(AsWritten, s4, [PickUpOp(2)]);
    assert Follows(AsWritten, s3, [EndTalkOp, PickUpOp(2)]);
    assert Follows(AsWritten, s2, [RequestTalkOp, EndTalkOp, PickUpOp(2)]);
    assert Final(AsWritten, s0, ops) == s5;
  }

  /** As written, the first state of that run already breaks exclusion, by
      the single waiting pass of line 126. */
  lemma AsWrittenStepBreaksExclusive()
    ensures var s1 := Next(AsWritten, Session(Initial(5), {}), PickUpOp(1));
      Exclusive(s1.table, s1.eating) &&
      !Exclusive(Next(AsWritten, s1, PickUpOp(2)).table, Next(AsWritten, s1, PickUpOp(2)).eating)
  {
    var s1 := Next(AsWritten, Session(Initial(5), {}), PickUpOp(1));
    assert s1.table.sticks[1] == Stick(true, 1);
    var s2 := Next(AsWritten, s1, PickUpOp(2));
    assert s2.table.sticks[1] == Stick(true, 2);
    assert !Holds(s2.table, 1);
  }
}
