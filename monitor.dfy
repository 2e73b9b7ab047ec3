/**
 * The monitor as the objects it is made of: an array of mutable chopsticks,
 * the number of philosophers and the talk flag. Each method is one atomic
 * segment of a synchronized method (the monitor lock makes it atomic), and is
 * proved to change the state exactly as the corresponding step of TableSpec.
 */
module DiningMonitor {
  import opened TableSpec

  /** One chopstick; its two fields are updated in place. */
  class Chopstick {
    var pickedUp: bool
    var lastPickedUpBy: int

    /** The chopstick's current value. */
    function Value(): Stick
      reads this
    {
      Stick(pickedUp, lastPickedUpBy)
    }

    constructor ()
      ensures Value() == Unused
    {
      pickedUp := false;
      lastPickedUpBy := 0;
    }

    function LastPickedUpByMe(id: int): (r: bool)
      reads this
      ensures r == Value().LastPickedUpByMe(id)
    {
      lastPickedUpBy == id
    }

    function PickedUpByAnother(id: int): (r: bool)
      reads this
      ensures r == Value().PickedUpByAnother(id)
    {
      lastPickedUpBy != id && pickedUp
    }

    method PickUp(id: int)
      modifies this
      ensures Value() == old(Value()).PickUp(id)
    {
      pickedUp := true;
      lastPickedUpBy := id;
    }

    method PutDown()
      modifies this
      ensures Value() == old(Value()).PutDown()
    {
      pickedUp := false;
    }
  }

  class Monitor {
    var chopsticks: array<Chopstick>
    var noP: int
    var someonetalking: bool

    /** One chopstick object per place at the table, no object in two places. */
    ghost predicate Valid()
      reads this, chopsticks
    {
      noP == chopsticks.Length &&
      forall i, j :: 0 <= i < j < chopsticks.Length ==> chopsticks[i] != chopsticks[j]
    }

    /** The monitor's state as a value. */
    ghost function State(): (t: Table)
      reads this, chopsticks, chopsticks[..]
      ensures |t.sticks| == chopsticks.Length && t.someoneTalking == someonetalking
      ensures forall i :: 0 <= i < chopsticks.Length ==> t.sticks[i] == chopsticks[i].Value()
    {
      var a := chopsticks;
      Table(seq(a.Length, i requires 0 <= i < a.Length reads a, a[..] => a[i].Value()), someonetalking)
    }

    /** A monitor for `n` philosophers: `n` new chopsticks, all free and
        never taken, and nobody talking. */
    constructor (n: nat)
      ensures Valid() && State() == Initial(n)
      ensures fresh(chopsticks) && forall i :: 0 <= i < n ==> fresh(chopsticks[i])
    {
      noP := n;
      // every slot is filled with its own chopstick by the loop below
      var filler := new Chopstick();
      var a := new Chopstick[n](_ => filler);
      for i := 0 to n
        invariant forall j :: 0 <= j < i ==> fresh(a[j]) && a[j] != filler && a[j].Value() == Unused
        invariant forall j, k :: 0 <= j < k < i ==> a[j] != a[k]
      {
        a[i] := new Chopstick();
      }
      chopsticks := a;
      someonetalking := false;
      new;
      assert State().sticks == Initial(n).sticks;
    }

    /** One iteration of the acquisition loop of philosopher `id`;
        `exits` tells whether the loop is left (true) or the philosopher
        waits for a notification and tries again (false). */
    method PickUpStep(id: int) returns (exits: bool)
      requires Valid() && IsPhilosopher(noP, id)
      modifies chopsticks[id - 1], chopsticks[id % noP]
      ensures Valid()
      ensures State() == TableSpec.PickUpStep(old(State()), id).table
      ensures exits == TableSpec.PickUpStep(old(State()), id).done
    {
      ghost var before := State();
      var pid := id - 1;
      var right := (pid + 1) % noP;
      if chopsticks[pid].PickedUpByAnother(id) || chopsticks[right].PickedUpByAnother(id) {
        if !chopsticks[pid].pickedUp && !chopsticks[pid].LastPickedUpByMe(id) {
          chopsticks[pid].PickUp(id);
        } else if !chopsticks[right].pickedUp && !chopsticks[right].LastPickedUpByMe(id) {
          chopsticks[pid].PickUp(id);
        }
        exits := false;
      } else {
        chopsticks[pid].PickUp(id);
        chopsticks[right].PickUp(id);
        exits := true;
      }
      assert State().sticks == TableSpec.PickUpStep(before, id).table.sticks;
    }

    /** Philosopher `id` puts down both of its chopsticks. */
    method PutDown(id: int)
      requires Valid() && IsPhilosopher(noP, id)
      modifies chopsticks[id - 1], chopsticks[id % noP]
      ensures Valid()
      ensures State() == PutDownStep(old(State()), id)
    {
      ghost var before := State();
      chopsticks[id - 1].PutDown();
      chopsticks[id % noP].PutDown();
      assert State().sticks == PutDownStep(before, id).sticks;
    }

    /** One check of the talk request; `done` is false when the caller must
        wait because somebody is talking. */
    method RequestTalkStep() returns (done: bool)
      requires Valid()
      modifies this`someonetalking
      ensures Valid()
      ensures State() == TableSpec.RequestTalkStep(old(State())).table
      ensures done == TableSpec.RequestTalkStep(old(State())).done
    {
      if someonetalking {
        done := false;
      } else {
        someonetalking := true;
        done := true;
      }
    }

    method EndTalk()
      requires Valid()
      modifies this`someonetalking
      ensures Valid()
      ensures State() == EndTalkStep(old(State()))
    {
      someonetalking := false;
    }
  }

  /** Five philosophers sharing one new monitor: philosopher 1's first pass
      acquires; philosopher 2's pass must wait; after philosopher 1 puts
      down, philosopher 2's next pass acquires. */
  method TableOfFive() returns (first: bool, second: bool, third: bool)
    ensures first && !second && third
  {
    var m := new Monitor(5);
    first := m.PickUpStep(1);
    assert m.State().sticks[1] == Stick(true, 1);
    second := m.PickUpStep(2);
    m.PutDown(1);
    assert !m.State().sticks[1].pickedUp && !m.State().sticks[2].pickedUp;
    third := m.PickUpStep(2);
  }

  /** Three speakers on one new monitor: A's request completes and B's
      waits; after A ends, B's completes and C's waits. */
  method ThreeSpeakers() returns (a: bool, b: bool, b': bool, c: bool)
    ensures a && !b && b' && !c
  {
    var m := new Monitor(5);
    a := m.RequestTalkStep();
    b := m.RequestTalkStep();
    m.EndTalk();
    b' := m.RequestTalkStep();
    c := m.RequestTalkStep();
  }
}
