/**
 The double-buffered pool of backend tensors: a consumer popping one deque while a refill
 thread fills the other, under every interleaving of the two.
 */
module TensorPool {
  /** Where the consumer is inside get_tensor. */
  datatype ConsumerAt = Outside | Checking | Waiting | Swapping | Restarting | Popping

  /** Tensors are numbered as they are created; deques are listed from front to back. */
  datatype State = State(
    pool: seq<nat>, other: seq<nat>,
    left: nat,
    created: nat,
    at: ConsumerAt,
    returned: seq<nat>)

  datatype Step = Push | Call | Check | WaitDone | Swap | Restart | Pop

  /** The constructor has just started the first refill. */
  function Initial(size: nat): State { State([], [], size, 0, Outside, []) }

  /** Push belongs to the refill thread; wait returns once nothing is left to push. */
  predicate Enabled(s: State, step: Step) {
    match step
    case Push => s.left > 0
    case Call => s.at == Outside
    case Check => s.at == Checking
    case WaitDone => s.at == Waiting && s.left == 0
    case Swap => s.at == Swapping
    case Restart => s.at == Restarting
    case Pop => s.at == Popping && s.pool != []
  }

  function Apply(s: State, step: Step, size: nat): State
    requires Enabled(s, step)
  {
    match step
    case Push => s.(other := [s.created] + s.other, left := s.left - 1, created := s.created + 1)
    case Call => s.(at := Checking)
    case Check => s.(at := if s.pool == [] then Waiting else Popping)
    case WaitDone => s.(at := Swapping)
    case Swap => s.(pool := s.other, other := s.pool, at := Restarting)
    case Restart => s.(left := size, at := Popping)
    case Pop => s.(pool := s.pool[..|s.pool| - 1], returned := s.returned + [s.pool[|s.pool| - 1]], at := Outside)
  }

  ghost predicate IsRun(run: seq<State>, size: nat) {
    && |run| > 0 && run[0] == Initial(size)
    && forall i :: 0 <= i < |run| - 1 ==> Steps(run[i], run[i + 1], size)
  }

  ghost predicate Steps(s: State, t: State, size: nat) { exists step :: Enabled(s, step) && t == Apply(s, step, size) }

  function FromBack(s: seq<nat>): (r: seq<nat>)
    ensures |r| == |s| && forall i :: 0 <= i < |s| ==> r[i] == s[|s| - 1 - i]
  {
    seq(|s|, i requires 0 <= i < |s| => s[|s| - 1 - i])
  }

  function UpTo(n: nat): (r: seq<nat>)
    ensures |r| == n && forall i :: 0 <= i < n ==> r[i] == i
  {
    seq(n, i => i)
  }

  /** Returned, pooled and prepared tensors are, in this order, the tensors created; the refill is between
      zero and size tensors through; past the wait it is finished, and the pool is empty until the swap. */
  ghost predicate Inv(s: State, size: nat) {
    && s.returned + FromBack(s.pool) + FromBack(s.other) == UpTo(s.created)
    && (if s.at == Restarting then s.left == 0 && s.other == [] && |s.pool| == size else |s.other| + s.left == size)
    && (s.at == Waiting || s.at == Swapping ==> s.pool == [])
    && (s.at == Swapping ==> s.left == 0)
    && (s.at == Popping && size > 0 ==> s.pool != [])
  }

  lemma PushKeeps(s: State, size: nat)
    requires Inv(s, size) && s.left > 0
    ensures Inv(Apply(s, Push, size), size)
  {
    assert FromBack([s.created] + s.other) == FromBack(s.other) + [s.created];
    assert UpTo(s.created + 1) == UpTo(s.created) + [s.created];
  }

  lemma PopKeeps(s: State, size: nat)
    requires Inv(s, size) && s.at == Popping && s.pool != []
    ensures Inv(Apply(s, Pop, size), size)
  {
    assert FromBack(s.pool) == [s.pool[|s.pool| - 1]] + FromBack(s.pool[..|s.pool| - 1]);
  }

  lemma StepKeepsInv(s: State, step: Step, size: nat)
    requires Inv(s, size) && Enabled(s, step)
    ensures Inv(Apply(s, step, size), size)
  {
    match step {
      case Push => PushKeeps(s, size);
      case Pop => PopKeeps(s, size);
      case Swap => assert FromBack([]) == [];
      case _ =>
    }
  }

  lemma {:induction false} RunKeepsInv(run: seq<State>, size: nat, i: nat)
    requires IsRun(run, size) && i < |run|
    ensures Inv(run[i], size)
  {
    if i > 0 {
      RunKeepsInv(run, size, i - 1);
      assert Steps(run[i - 1], run[i], size);
      var step :| Enabled(run[i - 1], step) && run[i] == Apply(run[i - 1], step, size);
      StepKeepsInv(run[i - 1], step, size);
    } else {
      assert UpTo(0) == [];
    }
  }

  /** With a positive pool size get_tensor never pops an empty deque, and the k-th tensor it returns is the
      k-th created: none twice, none skipped. */
  lemma NeverEmptyNeverTwice(run: seq<State>, size: nat, i: nat)
    requires IsRun(run, size) && i < |run| && size > 0
    ensures run[i].at == Popping ==> Enabled(run[i], Pop)
    ensures run[i].returned == UpTo(|run[i].returned|)
  {
    RunKeepsInv(run, size, i);
    var s := run[i];
    forall k | 0 <= k < |s.returned| ensures s.returned[k] == k {
      assert (s.returned + FromBack(s.pool) + FromBack(s.other))[k] == s.returned[k];
    }
  }

  // --- who touches which deque ---

  datatype Deque = Main | Other

  function Touches(step: Step): set<Deque> {
    match step
    case Push => {Other}
    case Check => {Main}
    case Swap => {Main, Other}
    case Pop => {Main}
    case _ => {}
  }

  /** Whenever the refill thread can move and the consumer can move, they touch different deques. */
  lemma NoSharedDeque(run: seq<State>, size: nat, i: nat, step: Step)
    requires IsRun(run, size) && i < |run|
    requires Enabled(run[i], Push) && Enabled(run[i], step) && step != Push
    ensures Touches(Push) !! Touches(step)
  {
    RunKeepsInv(run, size, i);
  }

  /** The consumer is never stuck: it moves, or it waits for a refill that still moves. */
  lemma SomeoneMoves(run: seq<State>, size: nat, i: nat)
    requires IsRun(run, size) && i < |run| && size > 0
    ensures exists step :: Enabled(run[i], step)
    ensures run[i].at == Waiting && run[i].left > 0 ==> Enabled(run[i], Push)
  {
    RunKeepsInv(run, size, i);
    var step := match run[i].at
      case Outside => Call
      case Checking => Check
      case Waiting => if run[i].left == 0 then WaitDone else Push
      case Swapping => Swap
      case Restarting => Restart
      case Popping => Pop;
    assert Enabled(run[i], step);
  }

  lemma Extend(run: seq<State>, size: nat, step: Step) returns (more: seq<State>)
    requires IsRun(run, size) && Enabled(run[|run| - 1], step)
    ensures IsRun(more, size) && more[|more| - 1] == Apply(run[|run| - 1], step, size)
  {
    more := run + [Apply(run[|run| - 1], step, size)];
    forall i | 0 <= i < |more| - 1 ensures Steps(more[i], more[i + 1], size) {
      if i < |run| - 1 { assert Steps(run[i], run[i + 1], size); }
    }
  }

  /** With a pool size of zero the first call already reaches the pop with an empty deque. */
  lemma EmptyPoolPopsNothing() returns (run: seq<State>)
    ensures IsRun(run, 0) && run[|run| - 1].at == Popping && run[|run| - 1].pool == []
  {
    run := [Initial(0)];
    run := Extend(run, 0, Call);
    run := Extend(run, 0, Check);
    run := Extend(run, 0, WaitDone);
    run := Extend(run, 0, Swap);
    run := Extend(run, 0, Restart);
  }

  /** The pool as its owner thread sees it, the refill run to completion where get_tensor waits for it. */
  class Pool {
    const size: nat
    var pool: seq<nat>
    var other: seq<nat>
    var created: nat
    ghost var returned: seq<nat>

    ghost predicate Valid()
      reads this
    {
      0 < size && |other| <= size && Inv(State(pool, other, size - |other|, created, Outside, returned), size)
    }

    constructor (size: nat)
      requires size > 0
      ensures Valid() && returned == [] && this.size == size
    {
      this.size := size;
      pool, other, created, returned := [], [], 0, [];
      new;
      assert UpTo(0) == [];
    }

    /** The refill thread runs for a while: at most what it still has to push. */
    method Refill(count: nat)
      requires Valid() && count <= size - |other|
      modifies `other, `created
      ensures Valid() && |other| == |old(other)| + count && created == old(created) + count
    {
      for i := 0 to count
        invariant Valid() && |other| == |old(other)| + i && created == old(created) + i
      {
        PushKeeps(State(pool, other, size - |other|, created, Outside, returned), size);
        other := [created] + other;
        created := created + 1;
      }
    }

    method GetTensor() returns (t: nat)
      requires Valid()
      modifies `pool, `other, `created, `returned
      ensures Valid() && t == |old(returned)| && returned == old(returned) + [t]
    {
      if pool == [] {
        Refill(size - |other|);
        pool, other := other, pool;
        assert FromBack([]) == [];
      }
      ghost var s := State(pool, other, size - |other|, created, Popping, returned);
      PopKeeps(s, size);
      assert (returned + FromBack(pool) + FromBack(other))[|returned|] == pool[|pool| - 1];
      t := pool[|pool| - 1];
      pool := pool[..|pool| - 1];
      returned := returned + [t];
    }
  }
}
