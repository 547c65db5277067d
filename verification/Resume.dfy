// A stream that outlives its reader: the broker's producer and serving loop
// (spikes/s3-split-privilege/broker/src/job.rs, main.rs), and the client that
// dies and resumes from the sequence number it persisted
// (spikes/s3-split-privilege/ui/Program.cs), as steps that interleave freely.
module Resume {
  import opened Prelude
  import opened EventLog

  // ----- the producer -----

  /** Where `run` is, between two visits to the lock or the database. */
  datatype Pc =
    | NotStarted
    | Writing(stage: nat, n: nat)
    | Reading(stage: nat)
    | Committing(stage: nat, lastSeq: nat)
    | Closing(stage: nat)
    | ReadingEnd
    | CommittingEnd(lastSeq: nat)
    | Completing
    | Ended

  datatype Job = Job(pc: Pc, log: seq<Event>, finished: bool, committed: nat, endCommitted: bool)

  function Opened(stage: nat): Pc {
    if stage < STAGES then Writing(stage, 0) else ReadingEnd
  }

  /** One step of `run`; a commit succeeds or fails as given. */
  function Produced(k: nat, job: Job, commits: bool): Job {
    match job.pc
    case NotStarted => job
    case Writing(stage, n) =>
      job.(log := job.log + [StageEvent(|job.log| + 1, stage, StateAt(k, n + 1))],
           pc := if n < k then Writing(stage, n + 1) else Reading(stage))
    case Reading(stage) => job.(pc := Committing(stage, |job.log|))
    case Committing(stage, lastSeq) =>
      job.(pc := Closing(stage), committed := if commits then lastSeq else job.committed)
    case Closing(stage) =>
      job.(log := job.log + [StageEvent(|job.log| + 1, stage, Done)], pc := Opened(stage + 1))
    case ReadingEnd => job.(pc := CommittingEnd(|job.log|))
    case CommittingEnd(lastSeq) =>
      job.(pc := Completing, committed := if commits then lastSeq else job.committed, endCommitted := commits)
    case Completing => job.(pc := Ended, log := job.log + [JobComplete(|job.log| + 1)], finished := true)
    case Ended => job
  }

  /** The log the producer has written by the time it is at a point. */
  function Written(k: nat, pc: Pc): seq<Event> {
    match pc
    case NotStarted => []
    case Writing(stage, n) => Upto(k, stage, n)
    case Reading(stage) => Upto(k, stage, k + 1)
    case Committing(stage, _) => Upto(k, stage, k + 1)
    case Closing(stage) => Upto(k, stage, k + 1)
    case ReadingEnd => BeforeStage(k, STAGES)
    case CommittingEnd(_) => BeforeStage(k, STAGES)
    case Completing => BeforeStage(k, STAGES)
    case Ended => Finished(k)
  }

  predicate InRange(k: nat, pc: Pc) {
    match pc
    case Writing(stage, n) => stage < STAGES && n <= k
    case Reading(stage) => stage < STAGES
    case Committing(stage, _) => stage < STAGES
    case Closing(stage) => stage < STAGES
    case _ => true
  }

  /** The resume point a commit in flight carries is the log as it stands. */
  ghost predicate Register(job: Job) {
    match job.pc
    case Committing(_, lastSeq) => lastSeq == |job.log|
    case CommittingEnd(lastSeq) => lastSeq == |job.log|
    case _ => true
  }

  ghost predicate JobInv(k: nat, job: Job) {
    && InRange(k, job.pc) && Register(job)
    && job.log == Written(k, job.pc)
    && (job.finished <==> job.pc.Ended?)
    && job.committed <= |job.log|
    && (job.endCommitted ==> job.pc.Completing? || job.pc.Ended?)
    && (job.endCommitted ==> |job.log| == job.committed + if job.pc.Ended? then 1 else 0)
  }

  lemma UptoMore(k: nat, stage: nat, n: nat)
    ensures Upto(k, stage, n) + [StageEvent(|Upto(k, stage, n)| + 1, stage, StateAt(k, n + 1))] == Upto(k, stage, n + 1)
    ensures Upto(k, stage, 0) == BeforeStage(k, stage)
    ensures Upto(k, stage, k + 2) == BeforeStage(k, stage + 1)
  {
    assert |Upto(k, stage, n)| == |BeforeStage(k, stage)| + n;
  }

  lemma FinishedMore(k: nat)
    ensures Finished(k) == BeforeStage(k, STAGES) + [JobComplete(|BeforeStage(k, STAGES)| + 1)]
  {
  }

  lemma ProducedKeeps(k: nat, job: Job, commits: bool)
    requires JobInv(k, job)
    ensures JobInv(k, Produced(k, job, commits))
    ensures job.log <= Produced(k, job, commits).log && job.committed <= Produced(k, job, commits).committed
  {
    hide Upto; hide BeforeStage; hide Finished;
    match job.pc
    case Writing(stage, n) => UptoMore(k, stage, n);
    case Closing(stage) => UptoMore(k, stage, k + 1); UptoMore(k, stage + 1, 0);
    case Completing => FinishedMore(k);
    case _ =>
  }

  // ----- the server and the client -----

  datatype Server =
    | Waiting
    | Fetching(cursor: nat)
    | Sending(cursor: nat, batch: seq<Event>, done: bool)
    | Streamed(cursor: nat)

  /** A live client: where its stream began, and what it has received on it. */
  datatype Client = Dead | Live(from: nat, seen: seq<Event>)

  datatype State = State(
    job: Job,
    server: Server,
    client: Client,
    wire: seq<Event>,
    persisted: nat,
    highest: nat)

  function Initial(): State {
    State(Job(NotStarted, [], false, 0, false), Waiting, Dead, [], 0, 0)
  }

  /** The number of the last event a live client has received. */
  function Last(client: Client): nat
    requires client.Live?
  {
    client.from + |client.seen|
  }

  datatype Action =
    | Produce(commits: bool)
    | Connect
    | Fetch
    | Send
    | EndBatch
    | Receive
    | Save
    | Die
    | Notice

  /** `events_after` returns: the wait is over when there is something new or
      the job has ended, and with nothing at its timeout. */
  function Suffix(log: seq<Event>, cursor: nat): seq<Event> {
    if cursor <= |log| then log[cursor..] else []
  }

  predicate Enabled(s: State, a: Action) {
    match a
    case Produce(_) => true
    case Connect => s.client.Dead? && s.server.Waiting?
    case Fetch => s.server.Fetching?
    case Send => s.server.Sending? && s.server.batch != []
    case EndBatch => s.server.Sending? && s.server.batch == []
    case Receive => s.client.Live? && s.wire != [] && s.persisted == Last(s.client)
    case Save => s.client.Live?
    case Die => s.client.Live?
    case Notice => s.client.Dead? && !s.server.Waiting?
  }

  /** What each step does. `Connect` is Hello with the persisted number, then
      ApplyPlan, which starts a job that was not started, or JobResume. */
  function Taken(k: nat, s: State, a: Action): State
    requires Enabled(s, a)
  {
    match a
    case Produce(commits) => s.(job := Produced(k, s.job, commits))
    case Connect =>
      s.(job := if s.job.pc.NotStarted? then s.job.(pc := Writing(0, 0)) else s.job,
         server := Fetching(s.persisted), client := Live(s.persisted, []), wire := [])
    case Fetch => s.(server := Sending(s.server.cursor, Suffix(s.job.log, s.server.cursor), s.job.finished))
    case Send =>
      var event := s.server.batch[0];
      s.(server := Sending(event.seqNo, s.server.batch[1..], s.server.done),
         wire := if s.client.Live? then s.wire + [event] else [])
    case EndBatch =>
      s.(server := if s.server.done && |s.job.log| <= s.server.cursor then Streamed(s.server.cursor)
                   else Fetching(s.server.cursor))
    case Receive =>
      s.(client := Live(s.client.from, s.client.seen + [s.wire[0]]), wire := s.wire[1..],
         highest := if s.highest < s.wire[0].seqNo then s.wire[0].seqNo else s.highest)
    case Save => s.(persisted := if s.client.seen == [] then s.client.from else s.client.seen[|s.client.seen| - 1].seqNo)
    case Die => s.(client := Dead, wire := [])
    case Notice => s.(server := Waiting)
  }

  predicate Step(k: nat, s: State, t: State, a: Action) {
    Enabled(s, a) && t == Taken(k, s, a)
  }

  // ----- the invariant -----

  /** How far the server has sent, on the stream it is serving. */
  function Cursor(server: Server): nat
    requires !server.Waiting?
  {
    server.cursor
  }

  ghost predicate ServerInv(s: State) {
    match s.server
    case Waiting => true
    case Fetching(cursor) => cursor <= |s.job.log|
    case Sending(cursor, batch, done) =>
      && cursor + |batch| <= |s.job.log| && batch == s.job.log[cursor..cursor + |batch|]
      && (done ==> s.job.finished && cursor + |batch| == |s.job.log|)
    case Streamed(cursor) => s.job.finished && cursor == |s.job.log|
  }

  /** A live client has received, and the wire holds, exactly the part of the
      log between where its stream began and where the server is. */
  ghost predicate StreamInv(s: State) {
    && (s.client.Live? ==>
          && !s.server.Waiting?
          && Last(s.client) + |s.wire| == Cursor(s.server) <= |s.job.log|
          && s.client.seen + s.wire == s.job.log[s.client.from..Cursor(s.server)])
    && (s.client.Dead? ==> s.wire == [])
  }

  /** What is persisted is the last event any client received, or the one
      before it. */
  ghost predicate PersistedInv(s: State) {
    && s.persisted <= s.highest <= s.persisted + 1 && s.highest <= |s.job.log|
    && (s.client.Live? ==> s.client.from <= s.persisted <= Last(s.client) <= s.highest)
  }

  ghost predicate Inv(k: nat, s: State) {
    && JobInv(k, s.job) && Numbered(s.job.log)
    && ServerInv(s) && StreamInv(s) && PersistedInv(s)
  }

  lemma WrittenIsNumbered(k: nat, pc: Pc)
    ensures Numbered(Written(k, pc))
    ensures pc.Ended? ==> |Written(k, pc)| == 7 * (k + 2) + 1
  {
    hide Numbered; hide BeforeStage; hide Upto; hide Finished;
    assert Numbered([]) by { NothingIsNumbered(); }
    BeforeIsNumbered(k, STAGES);
    FinishedIsNumbered(k);
    match pc
    case Writing(stage, n) => UptoIsNumbered(k, stage, n);
    case Reading(stage) => UptoIsNumbered(k, stage, k + 1);
    case Committing(stage, _) => UptoIsNumbered(k, stage, k + 1);
    case Closing(stage) => UptoIsNumbered(k, stage, k + 1);
    case _ =>
  }

  lemma NothingIsNumbered()
    ensures Numbered([])
  {
  }

  lemma InitialKeeps(k: nat)
    ensures Inv(k, Initial())
  {
  }

  lemma ProduceKeeps(k: nat, s: State, commits: bool)
    requires Inv(k, s)
    ensures Inv(k, Taken(k, s, Produce(commits)))
  {
    hide Written; hide Produced; hide Numbered; hide JobInv;
    ProducedKeeps(k, s.job, commits);
    WrittenIsNumbered(k, Produced(k, s.job, commits).pc);
    ProducedStays(k, s.job, commits);
    var log, later := s.job.log, Produced(k, s.job, commits).log;
    JobIs(k, s.job);
    JobIs(k, Produced(k, s.job, commits));
    if s.client.Live? {
      SamePart(log, later, s.client.from, Cursor(s.server));
    }
    if s.server.Sending? {
      SamePart(log, later, s.server.cursor, s.server.cursor + |s.server.batch|);
    }
  }

  lemma JobIs(k: nat, job: Job)
    requires JobInv(k, job)
    ensures job.log == Written(k, job.pc) && (job.finished <==> job.pc.Ended?)
  {
    hide Written; hide InRange; hide Register;
  }

  lemma SamePart(log: seq<Event>, later: seq<Event>, i: nat, j: nat)
    requires log <= later && i <= j <= |log|
    ensures log[i..j] == later[i..j]
  {
  }

  lemma ProducedStays(k: nat, job: Job, commits: bool)
    ensures job.pc.Ended? ==> Produced(k, job, commits) == job
  {
  }

  lemma ConnectKeeps(k: nat, s: State)
    requires Inv(k, s) && Enabled(s, Connect)
    ensures Inv(k, Taken(k, s, Connect))
  {
    UptoMore(k, 0, 0);
    hide Upto;
  }

  lemma FetchKeeps(k: nat, s: State)
    requires Inv(k, s) && Enabled(s, Fetch)
    ensures Inv(k, Taken(k, s, Fetch))
  {
    hide JobInv;
    var log, cursor := s.job.log, s.server.cursor;
    assert log[cursor..] == log[cursor..cursor + |log[cursor..]|];
  }

  lemma SendKeeps(k: nat, s: State)
    requires Inv(k, s) && Enabled(s, Send)
    ensures Inv(k, Taken(k, s, Send))
  {
    hide JobInv;
    var log, cursor, batch := s.job.log, s.server.cursor, s.server.batch;
    assert batch[0] == log[cursor] && batch[0].seqNo == cursor + 1;
    hide Numbered;
    BatchSent(log, cursor, cursor + |batch|);
    if s.client.Live? {
      WireGrows(s.client.seen, s.wire, log, s.client.from, cursor);
    }
  }

  lemma BatchSent(log: seq<Event>, i: nat, j: nat)
    requires i < j <= |log|
    ensures log[i..j][1..] == log[i + 1..j]
  {
  }

  lemma WireGrows(seen: seq<Event>, wire: seq<Event>, log: seq<Event>, from: nat, cursor: nat)
    requires from <= cursor < |log| && seen + wire == log[from..cursor]
    ensures seen + (wire + [log[cursor]]) == log[from..cursor + 1]
  {
    assert seen + (wire + [log[cursor]]) == (seen + wire) + [log[cursor]];
  }

  lemma EndKeeps(k: nat, s: State, a: Action)
    requires Inv(k, s) && Enabled(s, a) && (a.EndBatch? || a.Notice? || a.Die?)
    ensures Inv(k, Taken(k, s, a))
  {
    hide JobInv;
  }

  /** What a live client has received is numbered on from where it began. */
  lemma SeenIsNumbered(s: State)
    requires StreamInv(s) && Numbered(s.job.log) && s.client.Live?
    ensures forall i :: 0 <= i < |s.client.seen + s.wire| ==> (s.client.seen + s.wire)[i].seqNo == s.client.from + i + 1
  {
    var part := s.job.log[s.client.from..Cursor(s.server)];
    assert forall i :: 0 <= i < |part| ==> part[i] == s.job.log[s.client.from + i];
  }

  lemma ReceiveKeeps(k: nat, s: State, a: Action)
    requires Inv(k, s) && Enabled(s, a) && (a.Receive? || a.Save?)
    ensures Inv(k, Taken(k, s, a))
  {
    hide JobInv;
    SeenIsNumbered(s);
    var seen, wire := s.client.seen, s.wire;
    if a.Receive? {
      assert (seen + wire)[|seen|] == wire[0];
      assert (seen + [wire[0]]) + wire[1..] == seen + wire;
    } else if seen != [] {
      assert (seen + wire)[|seen| - 1] == seen[|seen| - 1];
    }
  }

  /** Every step keeps the invariant. */
  lemma StepKeeps(k: nat, s: State, t: State, a: Action)
    requires Inv(k, s) && Step(k, s, t, a)
    ensures Inv(k, t)
  {
    hide Inv; hide Taken;
    match a
    case Produce(commits) => ProduceKeeps(k, s, commits);
    case Connect => ConnectKeeps(k, s);
    case Fetch => FetchKeeps(k, s);
    case Send => SendKeeps(k, s);
    case EndBatch => EndKeeps(k, s, a);
    case Notice => EndKeeps(k, s, a);
    case Die => EndKeeps(k, s, a);
    case Receive => ReceiveKeeps(k, s, a);
    case Save => ReceiveKeeps(k, s, a);
  }

  // ----- runs -----

  /** A run: states, and the action between each and the next. */
  ghost predicate Run(k: nat, states: seq<State>, actions: seq<Action>) {
    && |states| == |actions| + 1 && states[0] == Initial()
    && forall i :: 0 <= i < |actions| ==> Step(k, states[i], states[i + 1], actions[i])
  }

  lemma {:induction false} RunKeeps(k: nat, states: seq<State>, actions: seq<Action>, i: nat)
    requires Run(k, states, actions) && i < |states|
    ensures Inv(k, states[i])
  {
    hide Inv; hide Step;
    if i == 0 {
      InitialKeeps(k);
    } else {
      RunKeeps(k, states, actions, i - 1);
      assert Step(k, states[i - 1], states[i - 1 + 1], actions[i - 1]);
      StepKeeps(k, states[i - 1], states[i], actions[i - 1]);
    }
  }

  // ----- what every run shows -----

  /** What a visible end of the job means: the whole log is there, and it ends
      in the completion. */
  ghost predicate Complete(k: nat, log: seq<Event>) {
    && log == Finished(k) && |log| == 7 * (k + 2) + 1
    && forall i :: 0 <= i < |log| ==> (log[i].JobComplete? <==> i == |log| - 1)
  }

  /** `finished` is set exactly when the completion is in the log, and then the
      log holds seven stages of k + 2 events and the completion. */
  lemma FinishedIsComplete(k: nat, states: seq<State>, actions: seq<Action>, i: nat)
    requires Run(k, states, actions) && i < |states|
    ensures states[i].job.finished <==> exists e :: e in states[i].job.log && e.JobComplete?
    ensures states[i].job.finished ==> Complete(k, states[i].job.log)
    ensures states[i].server.Sending? && states[i].server.done ==>
              Complete(k, states[i].job.log) && states[i].server.cursor + |states[i].server.batch| == |states[i].job.log|
  {
    RunKeeps(k, states, actions, i);
    FinishedIsNumbered(k);
    var job := states[i].job;
    if job.finished {
      assert job.log[|job.log| - 1] in job.log;
    } else {
      NotYetComplete(k, job.pc);
    }
  }

  lemma NotYetComplete(k: nat, pc: Pc)
    ensures !pc.Ended? ==> forall e :: e in Written(k, pc) ==> e.StageEvent?
  {
    BeforeIsNumbered(k, STAGES);
    match pc
    case Writing(stage, n) => UptoIsNumbered(k, stage, n);
    case Reading(stage) => UptoIsNumbered(k, stage, k + 1);
    case Committing(stage, _) => UptoIsNumbered(k, stage, k + 1);
    case Closing(stage) => UptoIsNumbered(k, stage, k + 1);
    case _ =>
  }

  /** The committed resume point never runs ahead of the log, and when the last
      commit succeeded it ends exactly one event behind. */
  lemma CommittedTrailsTheLog(k: nat, states: seq<State>, actions: seq<Action>, i: nat)
    requires Run(k, states, actions) && i < |states|
    ensures states[i].job.committed <= |states[i].job.log|
    ensures states[i].job.finished && states[i].job.endCommitted ==> states[i].job.committed == |states[i].job.log| - 1
  {
    RunKeeps(k, states, actions, i);
  }

  lemma StepGrows(k: nat, s: State, t: State, a: Action)
    requires Inv(k, s) && Step(k, s, t, a)
    ensures s.job.log <= t.job.log && s.job.committed <= t.job.committed && s.highest <= t.highest
  {
    hide Produced; hide JobInv; hide ServerInv; hide StreamInv; hide PersistedInv; hide Numbered;
    if a.Produce? {
      ProducedKeeps(k, s.job, a.commits);
    }
  }

  /** The log and the resume point only grow. */
  lemma {:induction false} LogOnlyGrows(k: nat, states: seq<State>, actions: seq<Action>, i: nat, j: nat)
    requires Run(k, states, actions) && i <= j < |states|
    ensures states[i].job.log <= states[j].job.log && states[i].job.committed <= states[j].job.committed
    ensures states[i].highest <= states[j].highest
  {
    hide Inv; hide Step;
    if i < j {
      LogOnlyGrows(k, states, actions, i, j - 1);
      RunKeeps(k, states, actions, j - 1);
      assert Step(k, states[j - 1], states[j - 1 + 1], actions[j - 1]);
      StepGrows(k, states[j - 1], states[j - 1 + 1], actions[j - 1]);
    }
  }

  /** What a client has received is a contiguous part of the log that begins
      right after the number it resumed from. */
  lemma ReceivedIsContiguous(k: nat, states: seq<State>, actions: seq<Action>, i: nat)
    requires Run(k, states, actions) && i < |states| && states[i].client.Live?
    ensures var s := states[i];
            && Last(s.client) <= |s.job.log| && s.client.seen == s.job.log[s.client.from..Last(s.client)]
            && forall n :: 0 <= n < |s.client.seen| ==> s.client.seen[n].seqNo == s.client.from + n + 1
  {
    RunKeeps(k, states, actions, i);
    var s := states[i];
    SeenIsNumbered(s);
    hide JobInv;
    var both := s.client.seen + s.wire;
    assert both[..|s.client.seen|] == s.client.seen;
    assert s.job.log[s.client.from..Cursor(s.server)][..|s.client.seen|] == s.job.log[s.client.from..Last(s.client)];
    assert forall n :: 0 <= n < |s.client.seen| ==> both[n] == s.client.seen[n];
  }

  /** Across deaths and reconnections there is no gap, and at most the last
      event again: each event received is the one after the highest so far, or
      that one once more. */
  lemma ReceiptIsNextOrAgain(k: nat, states: seq<State>, actions: seq<Action>, i: nat)
    requires Run(k, states, actions) && i < |actions| && actions[i].Receive?
    ensures var s := states[i];
            && s.wire != [] && s.highest <= s.wire[0].seqNo <= s.highest + 1
            && 1 <= s.wire[0].seqNo <= |s.job.log| && s.wire[0] == s.job.log[s.wire[0].seqNo - 1]
            && states[i + 1].highest == s.wire[0].seqNo
  {
    RunKeeps(k, states, actions, i);
    var s := states[i];
    assert Step(k, s, states[i + 1], actions[i]);
    SeenIsNumbered(s);
    hide JobInv;
    assert (s.client.seen + s.wire)[|s.client.seen|] == s.wire[0];
    assert s.wire[0] == s.job.log[Last(s.client)];
  }

  /** So every event up to the highest has been received by some client. */
  lemma {:induction false} NothingIsSkipped(k: nat, states: seq<State>, actions: seq<Action>, i: nat, n: nat)
    requires Run(k, states, actions) && i < |states| && 1 <= n <= states[i].highest
    ensures exists j :: 0 <= j < i && actions[j].Receive? && states[j].wire != [] && states[j].wire[0].seqNo == n
  {
    if i > 0 {
      var s, a := states[i - 1], actions[i - 1];
      assert Step(k, s, states[i - 1 + 1], a);
      if n <= s.highest {
        NothingIsSkipped(k, states, actions, i - 1, n);
      } else {
        assert a.Receive?;
        ReceiptIsNextOrAgain(k, states, actions, i - 1);
      }
    }
  }

  /** When the server reports a stream complete, its client has been sent the
      log to its end. */
  lemma CompleteStreamIsWhole(k: nat, states: seq<State>, actions: seq<Action>, i: nat)
    requires Run(k, states, actions) && i < |states| && states[i].server.Streamed? && states[i].client.Live?
    ensures var s := states[i];
            Complete(k, s.job.log) && s.client.from <= |s.job.log| && s.client.seen + s.wire == s.job.log[s.client.from..]
  {
    RunKeeps(k, states, actions, i);
    FinishedIsComplete(k, states, actions, i);
    var s := states[i];
    assert s.job.log[s.client.from..|s.job.log|] == s.job.log[s.client.from..];
  }

  /** Resuming from the database's number replays the completion and nothing
      else, which is why that number is recorded one early. */
  lemma DatabaseReplaysTheCompletion(k: nat, states: seq<State>, actions: seq<Action>, i: nat)
    requires Run(k, states, actions) && i < |states| && states[i].job.finished && states[i].job.endCommitted
    ensures var job := states[i].job;
            job.committed < |job.log| && job.log[job.committed..] == [JobComplete(|job.log|)]
  {
    CommittedTrailsTheLog(k, states, actions, i);
    FinishedIsComplete(k, states, actions, i);
    RunKeeps(k, states, actions, i);
    var log := states[i].job.log;
    assert log[|log| - 1] == JobComplete(|log|);
  }

  /** But a client that persisted the completion itself hears nothing when it
      resumes: its stream is complete before it begins. */
  lemma ResumedAtTheEndHearsNothing(k: nat, states: seq<State>, actions: seq<Action>, i: nat)
    requires Run(k, states, actions) && i < |states| && states[i].client.Live? && states[i].job.finished
    requires states[i].client.from == |states[i].job.log|
    ensures states[i].client.seen == [] && states[i].wire == []
  {
    RunKeeps(k, states, actions, i);
  }
}
