// A stream can always be completed: whatever has happened so far, the client that
// is connected can still hear the job out, without reconnecting.
// spikes/s3-split-privilege/broker/src/main.rs, ui/Program.cs.
module Completion {
  import opened EventLog
  import opened Resume

  /** A step of the client or the server that neither ends the client nor another
      of the job. */
  predicate IsPatient(a: Action) {
    !a.Die? && !a.Notice? && !a.Connect?
  }

  /** A client that is connected, to a job that was started. */
  ghost predicate Listening(k: nat, s: State) {
    Inv(k, s) && s.client.Live? && !s.job.pc.NotStarted?
  }

  /** The job has ended, the stream is complete, and all of it was received and
      recorded. */
  ghost predicate HeardOut(k: nat, s: State) {
    && s.job.finished && s.server.Streamed? && s.client.Live? && s.wire == []
    && s.client.from <= |s.job.log| && s.client.seen == s.job.log[s.client.from..]
    && s.persisted == |s.job.log|
  }

  // ----- what is left to do -----

  function Remaining(k: nat, pc: Pc): nat
    requires InRange(k, pc)
  {
    match pc
    case NotStarted => (STAGES + 1) * (k + 5) + 4
    case Writing(stage, n) => (STAGES - stage) * (k + 5) + 4 - n
    case Reading(stage) => (STAGES - stage) * (k + 5) - k + 3
    case Committing(stage, _) => (STAGES - stage) * (k + 5) - k + 2
    case Closing(stage) => (STAGES - stage) * (k + 5) - k + 1
    case ReadingEnd => 3
    case CommittingEnd(_) => 2
    case Completing => 1
    case Ended => 0
  }

  lemma StageLeaves(k: nat, stage: nat)
    requires stage < STAGES
    ensures (STAGES - stage) * (k + 5) == (STAGES - stage - 1) * (k + 5) + k + 5
    ensures (STAGES - stage - 1) * (k + 5) >= 0
  {
  }

  /** What the server still has to do for a job that has ended. */
  function ServerWork(s: State): int {
    match s.server
    case Waiting => 0
    case Fetching(cursor) => 3 * (|s.job.log| - cursor) + 2
    case Sending(cursor, _, done) => 3 * (|s.job.log| - cursor) + if done then 1 else 3
    case Streamed(_) => 0
  }

  ghost predicate Less4(a: int, b: int, c: int, d: int, w: int, x: int, y: int, z: int) {
    a < w || (a == w && (b < x || (b == x && (c < y || (c == y && d < z)))))
  }

  function Unsaved(s: State): nat
    requires s.client.Live?
  {
    if s.persisted == Last(s.client) then 0 else 1
  }

  /** The next thing to do: record, receive, produce, and only then serve. */
  function Next(s: State): Action
    requires s.client.Live?
  {
    if s.persisted != Last(s.client) then Save
    else if s.wire != [] then Receive
    else if !s.job.pc.Ended? then Produce(true)
    else if s.server.Fetching? then Fetch
    else if s.server.Sending? && s.server.batch != [] then Send
    else EndBatch
  }

  lemma Produces(k: nat, job: Job)
    requires JobInv(k, job) && !job.pc.NotStarted? && !job.pc.Ended?
    ensures var next := Produced(k, job, true);
            InRange(k, next.pc) && !next.pc.NotStarted? && Remaining(k, next.pc) < Remaining(k, job.pc)
  {
    hide Written; hide StateAt;
    match job.pc
    case Writing(stage, n) => StageLeaves(k, stage);
    case Reading(stage) => StageLeaves(k, stage);
    case Committing(stage, _) => StageLeaves(k, stage);
    case Closing(stage) =>
      StageLeaves(k, stage);
      if stage + 1 < STAGES {
        StageLeaves(k, stage + 1);
      }
    case _ =>
  }

  lemma RangeOf(k: nat, s: State)
    requires Inv(k, s)
    ensures InRange(k, s.job.pc)
  {
    hide Written; hide Numbered;
  }

  /** Unless all is heard, the next thing can be done, and less is left. */
  lemma NextIsProgress(k: nat, s: State)
    requires Listening(k, s) && !HeardOut(k, s)
    ensures var a := Next(s);
            && Enabled(s, a) && IsPatient(a)
            && var t := Taken(k, s, a);
               && Listening(k, t) && InRange(k, t.job.pc) && InRange(k, s.job.pc)
               && Less4(Remaining(k, t.job.pc), ServerWork(t), |t.wire|, Unsaved(t),
                        Remaining(k, s.job.pc), ServerWork(s), |s.wire|, Unsaved(s))
  {
    RangeOf(k, s);
    var a := Next(s);
    if s.persisted != Last(s.client) {
      SaveRecords(k, s);
    } else if s.wire != [] {
      StepKeeps(k, s, Taken(k, s, a), a);
      RangeOf(k, Taken(k, s, a));
      hide Inv;
    } else if !s.job.pc.Ended? {
      StepKeeps(k, s, Taken(k, s, a), a);
      JobOf(k, s);
      hide Inv; hide Produced; hide InRange; hide Remaining;
      Produces(k, s.job);
    } else {
      ServerProgress(k, s);
    }
  }

  lemma JobOf(k: nat, s: State)
    requires Inv(k, s)
    ensures JobInv(k, s.job)
  {
    hide JobInv;
  }

  lemma SaveRecords(k: nat, s: State)
    requires Listening(k, s) && s.persisted != Last(s.client)
    ensures Enabled(s, Save)
    ensures var t := Taken(k, s, Save); Listening(k, t) && t.persisted == Last(t.client) && t == s.(persisted := t.persisted)
  {
    var t := Taken(k, s, Save);
    StepKeeps(k, s, t, Save);
    hide JobInv;
    SeenIsNumbered(s);
    if s.client.seen != [] {
      assert (s.client.seen + s.wire)[|s.client.seen| - 1] == s.client.seen[|s.client.seen| - 1];
    }
  }

  /** With the job ended and everything sent received, the server moves on. */
  lemma ServerProgress(k: nat, s: State)
    requires Listening(k, s) && !HeardOut(k, s) && s.job.pc.Ended? && s.wire == [] && s.persisted == Last(s.client)
    ensures var a := Next(s);
            && Enabled(s, a) && IsPatient(a)
            && var t := Taken(k, s, a);
               Listening(k, t) && t.job == s.job && ServerWork(t) < ServerWork(s)
  {
    ServerIs(k, s);
    var a := Next(s);
    hide Inv;
    StepKeeps(k, s, Taken(k, s, a), a);
  }

  lemma ServerIs(k: nat, s: State)
    requires Listening(k, s) && s.job.pc.Ended? && s.wire == [] && s.persisted == Last(s.client)
    ensures s.job.finished && !s.server.Waiting?
    ensures s.server.Streamed? ==> HeardOut(k, s)
    ensures s.server.Fetching? ==> s.server.cursor <= |s.job.log|
    ensures s.server.Sending? ==>
              && s.server.cursor + |s.server.batch| <= |s.job.log|
              && (s.server.done ==> s.server.cursor + |s.server.batch| == |s.job.log|)
              && forall i :: 0 <= i < |s.server.batch| ==> s.server.batch[i].seqNo == s.server.cursor + i + 1
  {
    hide Written;
    assert s.client.seen + [] == s.client.seen;
    if s.server.Streamed? {
      assert s.job.log[s.client.from..|s.job.log|] == s.job.log[s.client.from..];
    }
    if s.server.Sending? {
      forall i | 0 <= i < |s.server.batch| ensures s.server.batch[i].seqNo == s.server.cursor + i + 1 {
        assert s.server.batch[i] == s.job.log[s.server.cursor + i];
      }
    }
  }

  // ----- what is committed -----

  /** The database's number moves only when a commit succeeds, and then to the
      number of the last event in the log; a commit that fails leaves it. */
  lemma CommitsExactly(k: nat, states: seq<State>, actions: seq<Action>, i: nat)
    requires Run(k, states, actions) && i < |actions|
    ensures var s, t, a := states[i], states[i + 1], actions[i];
            t.job.committed == if a.Produce? && a.commits && (s.job.pc.Committing? || s.job.pc.CommittingEnd?)
                               then |s.job.log| else s.job.committed
    ensures states[i].job.pc.CommittingEnd? && actions[i].Produce? ==>
              states[i + 1].job.endCommitted == actions[i].commits
  {
    RunKeeps(k, states, actions, i);
    assert Step(k, states[i], states[i + 1], actions[i]);
    hide Written; hide Numbered;
  }

  // ----- to the end -----

  /** Some steps, none of which ends the client or begins another. */
  ghost predicate Goes(k: nat, states: seq<State>, actions: seq<Action>) {
    && |states| == |actions| + 1
    && forall i :: 0 <= i < |actions| ==> IsPatient(actions[i]) && Step(k, states[i], states[i + 1], actions[i])
  }

  lemma {:induction false} HearsOut(k: nat, s: State) returns (states: seq<State>, actions: seq<Action>)
    requires Listening(k, s)
    ensures Goes(k, states, actions) && states[0] == s && HeardOut(k, states[|states| - 1])
    decreases Left(k, s), WorkLeft(s), |s.wire|, Unsaved(s)
  {
    if HeardOut(k, s) {
      states, actions := [s], [];
    } else {
      NextIsProgress(k, s);
      var a := Next(s);
      var t := Taken(k, s, a);
      WorkIsLeft(k, s);
      WorkIsLeft(k, t);
      hide Listening; hide HeardOut; hide Taken; hide Next; hide ServerWork; hide Remaining;
      var more, rest := HearsOut(k, t);
      states, actions := [s] + more, [a] + rest;
    }
  }

  ghost function Left(k: nat, s: State): nat {
    if InRange(k, s.job.pc) then Remaining(k, s.job.pc) else 0
  }

  ghost function WorkLeft(s: State): nat {
    if ServerWork(s) < 0 then 0 else ServerWork(s)
  }

  lemma WorkIsLeft(k: nat, s: State)
    requires Listening(k, s)
    ensures WorkLeft(s) == ServerWork(s) && InRange(k, s.job.pc)
  {
    hide Written; hide Numbered;
  }

  lemma {:induction false} LiveJobsAreStarted(k: nat, states: seq<State>, actions: seq<Action>, i: nat)
    requires Run(k, states, actions) && i < |states|
    ensures states[i].client.Live? ==> !states[i].job.pc.NotStarted?
  {
    if i > 0 {
      LiveJobsAreStarted(k, states, actions, i - 1);
      assert Step(k, states[i - 1], states[i - 1 + 1], actions[i - 1]);
      hide Upto;
    }
  }

  /** From every state of every run, the client that is connected can be served to
      the end of the job: some steps, none of them a death or a reconnection, end
      with the stream complete and every event since it began received. */
  lemma EveryStreamCanComplete(k: nat, states: seq<State>, actions: seq<Action>, i: nat)
    returns (more: seq<State>, steps: seq<Action>)
    requires Run(k, states, actions) && i < |states| && states[i].client.Live?
    ensures Goes(k, more, steps) && more[0] == states[i] && HeardOut(k, more[|more| - 1])
  {
    RunKeeps(k, states, actions, i);
    LiveJobsAreStarted(k, states, actions, i);
    more, steps := HearsOut(k, states[i]);
  }
}
