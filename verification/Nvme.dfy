/** One NVMe submission and completion queue pair, driven by the host one command at a time, and the
    controller at its other end. */
module Nvme {
  import opened Basics

  /** Both ends of a queue pair.  Phases are the bits themselves. */
  datatype Pair = Pair(
    size: nat,
    // host: struct nvme_queue
    tail: nat, head: nat, phase: bool,
    // shared: the submission and completion doorbells and the phase tags of the completion entries
    doorbell: nat, headDoorbell: nat, tags: seq<bool>,
    // controller: commands fetched, where the next completion goes, the tag it gets
    fetched: nat, ctrlTail: nat, ctrlTag: bool)

  /** After `laps` rounds: entries before the index carry the tag of this round, the others that of
      the round before, so at the index an old entry still carries the host's current phase. */
  ghost predicate Idle(q: Pair, laps: nat) {
    && q.size >= 2 && q.head < q.size && |q.tags| == q.size
    && q.tail == q.head && q.doorbell == q.head && q.headDoorbell == q.head && q.fetched == q.head &&
        q.ctrlTail == q.head
    && q.phase == (laps % 2 == 1) && q.ctrlTag == !q.phase
    && (forall i :: 0 <= i < q.head ==> q.tags[i] == !q.phase)
    && (forall i :: q.head <= i < q.size ==> q.tags[i] == q.phase)
  }

  /** The controller has a command to carry out and, as far as the host has reported, room for its
      completion: a queue is full when its tail is one place behind its head. */
  predicate HasWork(q: Pair) {
    q.doorbell != q.fetched && NextIndex(q.size, q.ctrlTail) != q.headDoorbell
  }

  /** Section 4.6 of NVM Express 1.4: the controller posts a completion at its tail with its current
      phase tag, which it inverts each time it wraps. */
  function Complete(q: Pair): Pair
    requires q.ctrlTail < |q.tags|
  {
    q.(tags := q.tags[q.ctrlTail := q.ctrlTag],
       fetched := NextIndex(q.size, q.fetched),
       ctrlTail := NextIndex(q.size, q.ctrlTail),
       ctrlTag := if q.ctrlTail + 1 > q.size - 1 then !q.ctrlTag else q.ctrlTag)
  }

  /** The host moves its tail and rings the doorbell. */
  function Submit(q: Pair): Pair {
    q.(tail := NextIndex(q.size, q.tail), doorbell := NextIndex(q.size, q.tail))
  }

  /** The host takes the completion at its head. */
  function Acknowledge(q: Pair): Pair {
    if q.head + 1 > q.size - 1 then q.(head := 0, phase := !q.phase) else q.(head := q.head + 1)
  }

  /** The host reports how far it has read. */
  function Report(q: Pair): Pair {
    q.(headDoorbell := q.head)
  }

  function LapsAfter(q: Pair, laps: nat): nat {
    if q.head + 1 > q.size - 1 then laps + 1 else laps
  }

  /** Until the controller has answered, the entry at the head looks old; afterwards it looks new. */
  lemma OldUntilAnswered(q: Pair, laps: nat)
    requires Idle(q, laps)
    ensures Submit(q).tags[q.head] == q.phase && HasWork(Submit(q))
    ensures Complete(Submit(q)).tags[q.head] == !q.phase
    ensures Complete(Submit(q)).head == q.head && Complete(Submit(q)).phase == q.phase
  {
  }

  /** A whole command brings both ends back in step, one place further on. */
  lemma RoundTrip(q: Pair, laps: nat)
    requires Idle(q, laps)
    ensures Idle(Report(Acknowledge(Complete(Submit(q)))), LapsAfter(q, laps))
    ensures var q' := Report(Acknowledge(Complete(Submit(q))));
            LapsAfter(q, laps) * q.size + q'.head == laps * q.size + q.head + 1 && q'.size == q.size
  {
    InStep(q, laps);
    OneFurther(laps, q.size, q.head);
  }

  lemma OneFurther(laps: nat, size: nat, head: nat)
    requires head < size
    ensures head + 1 == size ==> (laps + 1) * size == laps * size + head + 1
  {
    assert (laps + 1) * size == laps * size + size;
  }

  lemma InStep(q: Pair, laps: nat)
    requires Idle(q, laps)
    ensures Idle(Report(Acknowledge(Complete(Submit(q)))), LapsAfter(q, laps))
  {
    var q' := Report(Acknowledge(Complete(Submit(q))));
    assert q'.head == NextIndex(q.size, q.head) == q'.tail == q'.doorbell == q'.fetched == q'.ctrlTail;
  }

  class Queue {
    var q: Pair
    ghost var commands: nat    // calls so far
    ghost var posted: nat      // completions the controller has posted
    ghost var laps: nat

    ghost predicate Valid()
      reads this
    {
      Idle(q, laps) && posted == commands && commands == laps * q.size + q.head
    }

    /** Freshly allocated queues: zeroed entries, phase 0. */
    constructor (size: nat)
      requires size >= 2
      ensures Valid() && commands == 0 && q.size == size
    {
      q := Pair(size, 0, 0, false, 0, 0, seq(size, i => false), 0, 0, true);
      commands, posted, laps := 0, 0, 0;
    }

    /** Between calls: one index and one phase, both determined by the number of commands. */
    lemma Position()
      requires Valid()
      ensures q.head == q.tail == commands % q.size
      ensures q.phase == (commands / q.size % 2 == 1)
    {
      DivMod(laps, q.size, q.head);
    }

    /** nvme_do_one_cmd_synchronous, when the controller answers after `delay` polls. */
    method DoOneCommand(delay: nat) returns (ghost waited: nat)
      requires Valid()
      modifies this
      ensures Valid() && commands == old(commands) + 1 && q.size == old(q).size
      ensures waited == 1
    {
      hide Idle, Complete;
      ghost var q0, laps0 := q, laps;
      IdleFacts(q0, laps0);
      OldUntilAnswered(q0, laps0);
      RoundTrip(q0, laps0);
      q := q.(tail := q.tail + 1);
      if q.tail > q.size - 1 {
        q := q.(tail := 0);
      }
      q := q.(doorbell := q.tail);
      assert q == Submit(q0);
      var left := if q.head < q.tail then q.tail - q.head else (q.size - q.head) + q.tail;
      assert left == 1;
      commands := commands + 1;
      waited := 0;
      while left > 0
        invariant waited + left == 1
        invariant commands == old(commands) + 1
        invariant if left == 1 then q == Submit(q0) && posted == old(posted) && laps == laps0
                  else
                    && q == Acknowledge(Complete(Submit(q0)))
                    && posted == old(posted) + 1 && laps == LapsAfter(q0, laps0)
      {
        left := left - 1;
        AwaitCompletion(delay, q0, laps0);
        waited := waited + 1;
        q := q.(head := q.head + 1);
        if q.head > q.size - 1 {
          q := q.(head := 0, phase := !q.phase);
          laps := laps + 1;
        }
      }
      q := q.(headDoorbell := q.head);
    }

    /** The polling loop: it ends only after the controller has posted the new completion. */
    method AwaitCompletion(delay: nat, ghost q0: Pair, ghost laps0: nat)
      requires Idle(q0, laps0) && q == Submit(q0)
      modifies `q, `posted
      ensures q == Complete(Submit(q0)) && posted == old(posted) + 1
    {
      hide Idle, Complete, Submit;
      IdleFacts(q0, laps0);
      OldUntilAnswered(q0, laps0);
      SubmitFacts(q0);
      var patience := delay;
      while q.tags[q.head] == q.phase
        invariant (q == Submit(q0) && posted == old(posted)) || (q == Complete(Submit(q0)) && posted == old(posted) + 1)
        invariant q.head < |q.tags|
        decreases if posted == old(posted) then 1 else 0, patience
      {
        if patience > 0 {
          patience := patience - 1;
        } else {
          Controller();
          CompleteFacts(Submit(q0));
        }
      }
    }

    /** One step of the controller. */
    method Controller()
      requires HasWork(q) && q.ctrlTail < |q.tags|
      modifies `q, `posted
      ensures q == Complete(old(q)) && posted == old(posted) + 1
    {
      q := Complete(q);
      posted := posted + 1;
    }
  }

  lemma IdleFacts(q: Pair, laps: nat)
    requires Idle(q, laps)
    ensures q.size >= 2 && q.tail == q.head < q.size == |q.tags| && q.ctrlTail < |q.tags|
  {
  }

  lemma SubmitFacts(q: Pair)
    ensures Submit(q).tags == q.tags && Submit(q).head == q.head && Submit(q).phase == q.phase &&
        Submit(q).ctrlTail == q.ctrlTail
  {
  }

  lemma CompleteFacts(q: Pair)
    requires q.ctrlTail < |q.tags|
    ensures |Complete(q).tags| == |q.tags| && Complete(q).head == q.head
  {
  }
}
