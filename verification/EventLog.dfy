// The job's event log: spikes/s3-split-privilege/broker/src/job.rs. One
// producer appends numbered events, and commits a resume point at each stage
// boundary; a commit may fail.
module EventLog {

  const STAGES: nat := 7

  datatype StageState = Started | Progress(current: nat) | Done

  datatype Event =
    | StageEvent(seqNo: nat, stage: nat, state: StageState)
    | JobComplete(seqNo: nat)

  // ----- what a job of k ticks a stage writes -----

  /** The state the n-th event of a stage reports, counting from one. */
  function StateAt(k: nat, n: nat): StageState {
    if n <= 1 then Started else if n <= k + 1 then Progress(n - 1) else Done
  }

  /** The first n events of a stage, numbered on from a base. */
  function StageEvents(k: nat, stage: nat, base: nat, n: nat): (events: seq<Event>)
    ensures |events| == n
  {
    if n == 0 then []
    else StageEvents(k, stage, base, n - 1) + [StageEvent(base + n, stage, StateAt(k, n))]
  }

  /** Everything before a stage. */
  function BeforeStage(k: nat, stage: nat): seq<Event> {
    if stage == 0 then []
    else BeforeStage(k, stage - 1) + StageEvents(k, stage - 1, |BeforeStage(k, stage - 1)|, k + 2)
  }

  /** A log n events into a stage. */
  function Upto(k: nat, stage: nat, n: nat): seq<Event> {
    BeforeStage(k, stage) + StageEvents(k, stage, |BeforeStage(k, stage)|, n)
  }

  function Finished(k: nat): seq<Event> {
    BeforeStage(k, STAGES) + [JobComplete(|BeforeStage(k, STAGES)| + 1)]
  }

  /** An event's number is its place in the log. */
  ghost predicate Numbered(log: seq<Event>) {
    forall i :: 0 <= i < |log| ==> log[i].seqNo == i + 1
  }

  lemma {:induction false} StageIsNumbered(k: nat, stage: nat, base: nat, n: nat)
    ensures forall i :: 0 <= i < n ==>
              StageEvents(k, stage, base, n)[i] == StageEvent(base + i + 1, stage, StateAt(k, i + 1))
  {
    if n > 0 {
      StageIsNumbered(k, stage, base, n - 1);
    }
  }

  lemma {:induction false} BeforeLength(k: nat, stage: nat)
    ensures |BeforeStage(k, stage)| == stage * (k + 2)
  {
    if stage > 0 {
      BeforeLength(k, stage - 1);
      assert (stage - 1) * (k + 2) + (k + 2) == stage * (k + 2);
    }
  }

  lemma NumberedOn(head: seq<Event>, tail: seq<Event>, stage: nat)
    requires stage > 0 && Numbered(head) && forall e :: e in head ==> e.StageEvent? && e.stage < stage
    requires forall i :: 0 <= i < |tail| ==> tail[i].StageEvent? && tail[i].seqNo == |head| + i + 1 && tail[i].stage == stage - 1
    ensures Numbered(head + tail) && forall e :: e in head + tail ==> e.StageEvent? && e.stage < stage
  {
    forall i | 0 <= i < |head + tail| ensures (head + tail)[i].seqNo == i + 1 {
      assert i >= |head| ==> (head + tail)[i] == tail[i - |head|];
    }
  }

  lemma {:induction false} BeforeIsNumbered(k: nat, stage: nat)
    ensures Numbered(BeforeStage(k, stage))
    ensures forall e :: e in BeforeStage(k, stage) ==> e.StageEvent? && e.stage < stage
  {
    hide StageEvents;
    if stage > 0 {
      var head, tail := BeforeStage(k, stage - 1), StageEvents(k, stage - 1, |BeforeStage(k, stage - 1)|, k + 2);
      assert BeforeStage(k, stage) == head + tail;
      BeforeIsNumbered(k, stage - 1);
      StageIsNumbered(k, stage - 1, |head|, k + 2);
      hide BeforeStage;
      NumberedOn(head, tail, stage);
    }
  }

  lemma UptoIsNumbered(k: nat, stage: nat, n: nat)
    ensures Numbered(Upto(k, stage, n)) && |Upto(k, stage, n)| == |BeforeStage(k, stage)| + n
    ensures forall e :: e in Upto(k, stage, n) ==> e.StageEvent?
  {
    BeforeIsNumbered(k, stage);
    StageIsNumbered(k, stage, |BeforeStage(k, stage)|, n);
  }

  /** A finished log holds seven stages of k + 2 events and the completion, and
      nothing but its last event is the completion. */
  lemma FinishedIsNumbered(k: nat)
    ensures Numbered(Finished(k)) && |Finished(k)| == 7 * (k + 2) + 1
    ensures forall i :: 0 <= i < |Finished(k)| ==> (Finished(k)[i].JobComplete? <==> i == |Finished(k)| - 1)
  {
    BeforeIsNumbered(k, STAGES);
    BeforeLength(k, STAGES);
    assert forall i :: 0 <= i < |BeforeStage(k, STAGES)| ==> BeforeStage(k, STAGES)[i] in BeforeStage(k, STAGES);
  }

  /** And each stage's events are its start, its k ticks in order, and its end. */
  lemma StageOfFinished(k: nat, stage: nat, n: nat)
    requires stage < STAGES && 1 <= n <= k + 2
    ensures var at := |BeforeStage(k, stage)| + n;
            at <= |Finished(k)| && Finished(k)[at - 1] == StageEvent(at, stage, StateAt(k, n))
  {
    hide StageEvents; hide StateAt; hide BeforeStage;
    StageIsNumbered(k, stage, |BeforeStage(k, stage)|, k + 2);
    BeforeGrows(k, stage + 1, STAGES);
    BeforeNext(k, stage);
    StageAt(BeforeStage(k, stage), StageEvents(k, stage, |BeforeStage(k, stage)|, k + 2), n);
    PrefixAt(BeforeStage(k, stage + 1), BeforeStage(k, STAGES), [JobComplete(|BeforeStage(k, STAGES)| + 1)], |BeforeStage(k, stage)| + n - 1);
  }

  lemma BeforeNext(k: nat, stage: nat)
    ensures BeforeStage(k, stage + 1) == BeforeStage(k, stage) + StageEvents(k, stage, |BeforeStage(k, stage)|, k + 2)
  {
  }

  lemma StageAt(before: seq<Event>, events: seq<Event>, n: nat)
    requires 1 <= n <= |events|
    ensures (before + events)[|before| + n - 1] == events[n - 1]
  {
  }

  lemma PrefixAt(a: seq<Event>, b: seq<Event>, more: seq<Event>, i: nat)
    requires a <= b && i < |a|
    ensures (b + more)[i] == a[i]
  {
  }

  lemma {:induction false} BeforeGrows(k: nat, stage: nat, later: nat)
    requires stage <= later
    ensures BeforeStage(k, stage) <= BeforeStage(k, later)
  {
    if stage < later {
      BeforeGrows(k, stage, later - 1);
    }
  }

  // ----- the log -----

  class JobLog {
    var events: seq<Event>
    var finished: bool
    /** The resume point the database last committed. */
    var committed: nat

    constructor ()
      ensures events == [] && !finished && committed == 0
    {
      events, finished, committed := [], false, 0;
    }

    /** `push`: the next number is the length plus one. */
    method Push(stage: nat, state: StageState)
      modifies this`events
      ensures events == old(events) + [StageEvent(|old(events)| + 1, stage, state)]
    {
      events := events + [StageEvent(|events| + 1, stage, state)];
    }

    /** `stage_finished` and `job_finished`, as far as a resuming reader sees. */
    method Commit(lastSeq: nat, succeeds: bool)
      modifies this`committed
      ensures committed == if succeeds then lastSeq else old(committed)
    {
      if succeeds {
        committed := lastSeq;
      }
    }

    /** `events_after`, once its wait is over. */
    method EventsAfter(after: nat) returns (later: seq<Event>, done: bool)
      ensures later == (if after <= |events| then events[after..] else []) && done == finished
    {
      var start := if after < |events| then after else |events|;
      later, done := events[start..], finished;
      assert after > |events| ==> later == [];
    }

    /** `run`: the job from start to end, with the outcome of each commit. */
    method Run(k: nat, commits: seq<bool>)
      requires events == [] && !finished && committed == 0
      requires |commits| == STAGES + 1
      modifies this
      ensures finished && events == Finished(k)
      ensures committed < |events|
      ensures commits[STAGES] ==> committed == |events| - 1
    {
      for stage := 0 to STAGES
        invariant events == BeforeStage(k, stage) && !finished && committed <= |events|
      {
        Push(stage, Started);
        for progress := 1 to k + 1
          invariant events == Upto(k, stage, progress) && !finished && committed <= |BeforeStage(k, stage)|
        {
          Push(stage, Progress(progress));
        }
        Commit(|events|, commits[stage]);
        Push(stage, Done);
      }
      Commit(|events|, commits[STAGES]);
      events := events + [JobComplete(|events| + 1)];
      finished := true;
    }
  }
}
