/**
 * The state of the dining-philosophers monitor as a value, and each atomic
 * step of the monitor (one pass through a synchronized method or through one
 * iteration of its waiting loop) as a function on that value.
 *
 * Philosophers are numbered 1..n; philosopher `id` needs the chopstick to its
 * left, at index id - 1, and the one to its right, at index id % n.
 */
module TableSpec {

  /** The value of one chopstick: whether it is in use, and who last took it
      (0 until somebody has). */
  datatype Stick = Stick(pickedUp: bool, lastPickedUpBy: int) {

    predicate LastPickedUpByMe(id: int) {
      lastPickedUpBy == id
    }

    predicate PickedUpByAnother(id: int) {
      lastPickedUpBy != id && pickedUp
    }

    /** Taking the chopstick makes it held by `id`, and by nobody else. */
    function PickUp(id: int): (c: Stick)
      ensures c.pickedUp && c.LastPickedUpByMe(id)
      ensures !c.PickedUpByAnother(id)
      ensures forall other :: other != id ==> c.PickedUpByAnother(other)
    {
      Stick(true, id)
    }

    /** Putting the chopstick down frees it for everyone but keeps the record
        of who last took it. */
    function PutDown(): (c: Stick)
      ensures !c.pickedUp
      ensures c.lastPickedUpBy == lastPickedUpBy
      ensures forall id :: !c.PickedUpByAnother(id)
    {
      this.(pickedUp := false)
    }
  }

  /** A chopstick as the monitor creates it. */
  const Unused: Stick := Stick(false, 0)

  /** The test a waiting philosopher applies before claiming a chopstick:
      nobody holds it and `id` was not the last to hold it. */
  predicate Claimable(c: Stick, id: int) {
    !c.pickedUp && !c.LastPickedUpByMe(id)
  }

  predicate IsPhilosopher(n: int, id: int) {
    1 <= id <= n
  }

  /** Index of the chopstick on the left of philosopher `id`. */
  function Left(n: nat, id: int): (k: nat)
    requires IsPhilosopher(n, id)
    ensures k < n
  {
    id - 1
  }

  /** Index of the chopstick on the right of philosopher `id`: the next one
      round the table, which for the last philosopher is chopstick 0. The
      operand is positive, so the remainder agrees with Java's `%`. */
  function Right(n: nat, id: int): (k: nat)
    requires IsPhilosopher(n, id)
    ensures k < n
    ensures k == if id == n then 0 else id
  {
    id % n
  }

  /** Chopstick `k` is one of the two that philosopher `id` uses. */
  predicate Adjacent(n: nat, id: int, k: int)
    requires IsPhilosopher(n, id)
  {
    k == Left(n, id) || k == Right(n, id)
  }

  /** The right chopstick of each philosopher is the left chopstick of the
      next philosopher round the table, so neighbours share exactly one. */
  lemma RightIsNextLeft(n: nat, id: int)
    requires IsPhilosopher(n, id)
    ensures IsPhilosopher(n, id % n + 1)
    ensures Right(n, id) == Left(n, id % n + 1)
  {
  }

  /** The whole shared state: the chopsticks in table order and the talk flag. */
  datatype Table = Table(sticks: seq<Stick>, someoneTalking: bool)

  /** The state after one atomic step, and whether the step completed the
      operation (false: the caller waits and tries again). */
  datatype StepResult = StepResult(table: Table, done: bool)

  /** A freshly constructed monitor for `n` philosophers. */
  function Initial(n: nat): (t: Table)
    ensures |t.sticks| == n && !t.someoneTalking
    ensures forall k :: 0 <= k < n ==> t.sticks[k] == Unused
  {
    Table(seq(n, _ => Unused), false)
  }

  /** One pass through the body of the acquisition loop of philosopher `id`.
      If neither chopstick is in another's hand, both are taken and the loop
      is left. Otherwise the philosopher keeps waiting, and may first claim a
      chopstick: the left one when the left one is claimable, and, when only
      the right one is claimable, again the left one. */
  function PickUpStep(t: Table, id: int): (r: StepResult)
    requires IsPhilosopher(|t.sticks|, id)
    ensures |r.table.sticks| == |t.sticks| && r.table.someoneTalking == t.someoneTalking
    ensures var n := |t.sticks|; var l, rt := Left(n, id), Right(n, id);
      r.done <==> !t.sticks[l].PickedUpByAnother(id) && !t.sticks[rt].PickedUpByAnother(id)
    ensures var n := |t.sticks|; var l, rt := Left(n, id), Right(n, id);
      r.done ==> r.table.sticks[l] == Stick(true, id) && r.table.sticks[rt] == Stick(true, id)
    ensures var n := |t.sticks|; var l, rt := Left(n, id), Right(n, id);
      !r.done ==>
        r.table.sticks[l] == if Claimable(t.sticks[l], id) || Claimable(t.sticks[rt], id) then Stick(true, id) else t.sticks[l]
    ensures var n := |t.sticks|; var l, rt := Left(n, id), Right(n, id);
      forall k :: 0 <= k < n && k != l && (k != rt || !r.done) ==> r.table.sticks[k] == t.sticks[k]
  {
    var n := |t.sticks|;
    var l, rt := Left(n, id), Right(n, id);
    var s := t.sticks;
    if s[l].PickedUpByAnother(id) || s[rt].PickedUpByAnother(id) then
      if Claimable(s[l], id) then
        StepResult(t.(sticks := s[l := s[l].PickUp(id)]), false)
      else if Claimable(s[rt], id) then
        // the right chopstick passed the test, but the left one is taken
        StepResult(t.(sticks := s[l := s[l].PickUp(id)]), false)
      else
        StepResult(t, false)
    else
      StepResult(t.(sticks := s[l := s[l].PickUp(id)][rt := s[rt].PickUp(id)]), true)
  }

  /** Philosopher `id` puts both chopsticks down, whoever holds them. */
  function PutDownStep(t: Table, id: int): (r: Table)
    requires IsPhilosopher(|t.sticks|, id)
    ensures |r.sticks| == |t.sticks| && r.someoneTalking == t.someoneTalking
    ensures forall k :: 0 <= k < |t.sticks| ==>
      r.sticks[k].lastPickedUpBy == t.sticks[k].lastPickedUpBy &&
      (r.sticks[k].pickedUp <==> t.sticks[k].pickedUp && !Adjacent(|t.sticks|, id, k))
  {
    var n := |t.sticks|;
    var l, rt := Left(n, id), Right(n, id);
    var s := t.sticks[l := t.sticks[l].PutDown()];
    t.(sticks := s[rt := s[rt].PutDown()])
  }

  /** One pass through the talk request: it completes exactly when nobody is
      talking, and afterwards somebody is. */
  function RequestTalkStep(t: Table): (r: StepResult)
    ensures r.done <==> !t.someoneTalking
    ensures r.table.someoneTalking && r.table.sticks == t.sticks
  {
    if t.someoneTalking then StepResult(t, false)
    else StepResult(t.(someoneTalking := true), true)
  }

  /** Ending a talk clears the flag, whatever it was. */
  function EndTalkStep(t: Table): (r: Table)
    ensures !r.someoneTalking && r.sticks == t.sticks
  {
    t.(someoneTalking := false)
  }

  /** A held chopstick reports being held by another to everybody except the
      one who last took it; a free one reports it to nobody. */
  lemma QueriesAgree(c: Stick, id: int)
    ensures c.PickedUpByAnother(id) <==> c.pickedUp && !c.LastPickedUpByMe(id)
    ensures !c.pickedUp ==> forall j :: !c.PickedUpByAnother(j)
  {
  }

  /** Re-entrant acquisition: once a pass has taken both chopsticks, the next
      pass by the same philosopher succeeds again and changes nothing. */
  lemma PickUpIdempotent(t: Table, id: int)
    requires IsPhilosopher(|t.sticks|, id)
    requires PickUpStep(t, id).done
    ensures PickUpStep(PickUpStep(t, id).table, id) == StepResult(PickUpStep(t, id).table, true)
  {
    var t1 := PickUpStep(t, id).table;
    var n := |t.sticks|;
    assert t1.sticks[Left(n, id)] == Stick(true, id);
    assert t1.sticks[Right(n, id)] == Stick(true, id);
    var t2 := PickUpStep(t1, id).table;
    assert t2.sticks == t1.sticks;
  }

  /** Putting down right after a successful pick-up leaves both chopsticks
      free and recorded as last taken by `id`; nothing else differs from
      before the pick-up. */
  lemma PickUpThenPutDown(t: Table, id: int)
    requires IsPhilosopher(|t.sticks|, id)
    requires PickUpStep(t, id).done
    ensures var n := |t.sticks|; var r := PutDownStep(PickUpStep(t, id).table, id);
      |r.sticks| == n && r.someoneTalking == t.someoneTalking &&
      forall k :: 0 <= k < n ==>
        r.sticks[k] == if Adjacent(n, id, k) then Stick(false, id) else t.sticks[k]
  {
  }

  /** A successful talk request followed by the end of the talk gives back
      exactly the state before the request. */
  lemma TalkRoundTrip(t: Table)
    requires RequestTalkStep(t).done
    ensures EndTalkStep(RequestTalkStep(t).table) == t
  {
  }
}
