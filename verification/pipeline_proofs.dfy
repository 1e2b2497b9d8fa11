/** Properties of the orchestrator: the invariants every record written to
    the store keeps, the outcome of an execution as a function of which
    collaborator fails first, and what a publish run writes. The public
    operations as a client of the store sees them, the manual publish
    path included, are in `OperationProofs`. */
module PipelineProofs {
  import opened Wrappers
  import opened PipelineTypes
  import opened Pipeline

  // ----- Invariants of a written record ---------------------------------

  /** Publish leaves `locked` only once script, video, audio and captions
      all report ready. */
  ghost predicate PublishGated(j: JobRecord) {
    j.stages.publish.Locked? || j.UpstreamReady()
  }

  /** A stage's artifact is present only while the stage is ready. */
  ghost predicate ArtifactsFollowReady(j: JobRecord) {
    forall s :: j.artifacts.Get(s).Some? ==> j.stages.Get(s).ready()
  }

  /** A completed job has published: publish is ready and its payload stored. */
  ghost predicate CompletedIsPublished(j: JobRecord) {
    j.status == JobCompleted ==> j.stages.publish.ready() && j.artifacts.publish.Some?
  }

  /** An upstream stage has left idle only if every stage before it is ready. */
  ghost predicate InOrder(j: JobRecord) {
    forall a, b :: a != Publish && b != Publish && Rank(a) < Rank(b) && !j.stages.Get(b).Idle?
      ==> j.stages.Get(a).ready()
  }

  ghost predicate Coherent(j: JobRecord) {
    PublishGated(j) && ArtifactsFollowReady(j) && CompletedIsPublished(j) && InOrder(j)
  }

  /** A job in error status has a stage in error. */
  ghost predicate ErrorExplained(j: JobRecord) {
    j.status == JobError ==> exists s :: j.stages.Get(s).Error?
  }

  /** Every write from index `from` on keeps both invariants. */
  ghost predicate SoundFrom(ws: seq<JobRecord>, from: nat) {
    forall i :: from <= i < |ws| ==> Coherent(ws[i]) && ErrorExplained(ws[i])
  }

  // ----- The reference outcome of an execution ---------------------------

  /** Rank of the first upstream stage whose collaborator fails; 4 when
      script, video, audio and captions all succeed. */
  function Reach(replies: Replies): (k: nat)
    ensures k <= 4
    ensures forall s :: s != Publish && Rank(s) < k ==> replies.Get(s).Success?
    ensures k < 4 ==> replies.Get(Upstream[k]).Failure?
  {
    if replies.script.Failure? then 0
    else if replies.video.Failure? then 1
    else if replies.audio.Failure? then 2
    else if replies.captions.Failure? then 3
    else 4
  }

  /** Where each stage of a fresh job ends up: stages before the first
      failure are ready, the failing one is in error, later ones never left
      their initial state; after full upstream success publish is either
      settled by the publisher (auto) or waiting for a manual trigger. */
  function ExpectedStage(replies: Replies, autoPublish: bool, s: StageName): StageState {
    var k := Reach(replies);
    if s == Publish then
      if k < 4 then Locked(Some(WaitingForUpstream))
      else if autoPublish then Settled(replies.publish)
      else Idle(Some(AwaitingManualTrigger))
    else if Rank(s) < k then Ready(None)
    else if Rank(s) == k then Error(MessageOf(replies.Get(s).error))
    else Idle(None)
  }

  /** Exactly the stages that succeeded hold their collaborator's payload. */
  function ExpectedArtifact(replies: Replies, autoPublish: bool, s: StageName): Option<Payload> {
    var k := Reach(replies);
    if s == Publish then
      if k == 4 && autoPublish && replies.publish.Success? then Some(replies.publish.value) else None
    else if Rank(s) < k then Some(replies.Get(s).value)
    else None
  }

  function ExpectedStatus(replies: Replies, autoPublish: bool): JobStatus {
    if Reach(replies) < 4 then JobError
    else if !autoPublish then JobAwaitingPublish
    else if replies.publish.Success? then JobCompleted
    else JobError
  }

  /** The collaborators called: in stage order, up to and including the
      first failure; publish only when auto-publishing. */
  function ExpectedCalls(replies: Replies, autoPublish: bool): seq<StageName> {
    var k := Reach(replies);
    if k < 4 then Upstream[..k + 1]
    else if autoPublish then Upstream + [Publish]
    else Upstream
  }

  /** The failure the execution raises: the first failing collaborator's. */
  function ExpectedOutcome(replies: Replies, autoPublish: bool): Outcome<Thrown> {
    var k := Reach(replies);
    if k < 4 then Fail(replies.Get(Upstream[k]).error)
    else if autoPublish && replies.publish.Failure? then Fail(replies.publish.error)
    else Pass
  }

  // ----- The upstream phase ----------------------------------------------

  /** A record part-way through the upstream stages: the `done` first are
      ready with their payloads stored, the next one is in state `current`
      with no payload, later ones are untouched, publish is still locked,
      and the job is running, or in error once `current` is. */
  ghost predicate UpstreamPhase(j: JobRecord, done: nat, current: StageState, replies: Replies) {
    && done <= 4
    && (forall s :: s != Publish && Rank(s) < done ==>
          replies.Get(s).Success? && j.stages.Get(s) == Ready(None) && j.artifacts.Get(s) == Some(replies.Get(s).value))
    && (forall s :: s != Publish && Rank(s) == done ==> j.stages.Get(s) == current && j.artifacts.Get(s) == None)
    && (forall s :: s != Publish && Rank(s) > done ==> j.stages.Get(s) == Idle(None) && j.artifacts.Get(s) == None)
    && j.stages.publish == Locked(Some(WaitingForUpstream))
    && j.artifacts.publish == None
    && j.status == (if done < 4 && current.Error? then JobError else JobRunning)
  }

  lemma UpstreamPhaseSound(j: JobRecord, done: nat, current: StageState, replies: Replies)
    requires UpstreamPhase(j, done, current, replies)
    ensures Coherent(j) && ErrorExplained(j)
  {
    if j.status == JobError {
      UpstreamOrder();
      assert j.stages.Get(Upstream[done]).Error?;
    }
  }

  /** One upstream stage, run from the phase where it is next: its
      running write, its settled state, and (on success) the record after
      its payload is stored are all phases of the upstream run. */
  lemma UpstreamStep(r: Run, p: nat, replies: Replies, clock: Clock)
    requires p < 4 && UpstreamPhase(r.job, p, Idle(None), replies)
    ensures var (ran, reply) := RunStage(r, Upstream[p], replies.Get(Upstream[p]), clock);
      && UpstreamPhase(ran.writes[|r.writes|], p, Running(None), replies)
      && UpstreamPhase(ran.job, p, Settled(reply), replies)
      && (reply.Success? ==>
            UpstreamPhase(ran.job.(artifacts := ran.job.artifacts.Set(Upstream[p], Some(reply.value))), p + 1, Idle(None), replies))
  {
    UpstreamOrder();
    var stage := Upstream[p];
    var (ran, reply) := RunStage(r, stage, replies.Get(stage), clock);
    assert Rank(stage) == p;
    var w := ran.writes[|r.writes|];
    assert w.stages == r.job.stages.Set(stage, Running(None));
    if reply.Success? {
      var stored := ran.job.(artifacts := ran.job.artifacts.Set(stage, Some(reply.value)));
      assert UpstreamPhase(stored, p + 1, Idle(None), replies) by {
        forall s | s != Publish && Rank(s) < p + 1
          ensures replies.Get(s).Success? && stored.stages.Get(s) == Ready(None)
               && stored.artifacts.Get(s) == Some(replies.Get(s).value)
        {
          if s != stage {
            assert Rank(s) < p;
          }
        }
      }
    }
  }

  /** What the upstream run promises from the phase where `p` stages are
      done, given its result `out`. */
  ghost predicate UpstreamResult(r: Run, p: nat, replies: Replies, out: (Run, Outcome<Thrown>)) {
    var k := Reach(replies);
    && p <= k
    && out.0.calls == r.calls + Upstream[p..(if k < 4 then k + 1 else 4)]
    && (k == 4 ==> out.1 == Pass && UpstreamPhase(out.0.job, 4, Idle(None), replies))
    && (k < 4 ==> out.1 == Fail(replies.Get(Upstream[k]).error)
                  && UpstreamPhase(out.0.job, k, Error(MessageOf(replies.Get(Upstream[k]).error)), replies))
    && SoundFrom(out.0.writes, |r.writes|)
    && (|out.0.writes| > |r.writes| ==> out.0.writes[|out.0.writes| - 1] == out.0.job)
    && (|out.0.writes| == |r.writes| ==> out.0 == r)
  }

  /** The stage ranked `p` fails: the run stops right there. */
  lemma UpstreamFailsAt(r: Run, p: nat, replies: Replies, clock: Clock)
    requires p < 4 && UpstreamPhase(r.job, p, Idle(None), replies)
    requires replies.Get(Upstream[p]).Failure?
    ensures UpstreamResult(r, p, replies, RunUpstream(r, p, replies, clock))
  {
    UpstreamOrder();
    var stage := Upstream[p];
    var (ran, reply) := RunStage(r, stage, replies.Get(stage), clock);
    UpstreamStep(r, p, replies, clock);
    UpstreamPhaseSound(ran.writes[|r.writes|], p, Running(None), replies);
    UpstreamPhaseSound(ran.job, p, Settled(reply), replies);
    assert ran.writes == r.writes + [ran.writes[|r.writes|], ran.job];
    assert Reach(replies) == p;
    assert |Upstream[p..p + 1]| == 1 && Upstream[p..p + 1][0] == stage;
    assert Upstream[p..p + 1] == [stage];
    assert RunUpstream(r, p, replies, clock) == (ran, Fail(reply.error));
  }

  /** The stage ranked `p` succeeds: the run goes on from the next phase,
      after three writes that keep the invariants. */
  lemma UpstreamPassesAt(r: Run, p: nat, replies: Replies, clock: Clock) returns (stored: Run)
    requires p < 4 && UpstreamPhase(r.job, p, Idle(None), replies)
    requires replies.Get(Upstream[p]).Success?
    ensures RunUpstream(r, p, replies, clock) == RunUpstream(stored, p + 1, replies, clock)
    ensures UpstreamPhase(stored.job, p + 1, Idle(None), replies)
    ensures stored.calls == r.calls + [Upstream[p]]
    ensures |stored.writes| == |r.writes| + 3 && stored.writes[..|r.writes|] == r.writes
    ensures SoundFrom(stored.writes, |r.writes|)
    ensures stored.writes[|stored.writes| - 1] == stored.job
  {
    UpstreamOrder();
    var stage := Upstream[p];
    var (ran, reply) := RunStage(r, stage, replies.Get(stage), clock);
    UpstreamStep(r, p, replies, clock);
    stored := Persist(ran, ran.job.(artifacts := ran.job.artifacts.Set(stage, Some(reply.value))), clock);
    UpstreamPhaseSound(ran.writes[|r.writes|], p, Running(None), replies);
    UpstreamPhaseSound(ran.job, p, Settled(reply), replies);
    UpstreamPhaseSound(stored.job, p + 1, Idle(None), replies);
    assert stored.writes == r.writes + [ran.writes[|r.writes|], ran.job, stored.job];
  }

  /** A result promised from phase `p + 1` is promised from phase `p` when
      the step between them called stage `p` and wrote sound records. */
  lemma UpstreamContinues(r: Run, stored: Run, p: nat, replies: Replies, out: (Run, Outcome<Thrown>))
    requires p < 4 && UpstreamPhase(r.job, p, Idle(None), replies)
    requires stored.calls == r.calls + [Upstream[p]]
    requires |stored.writes| > |r.writes| && SoundFrom(stored.writes, |r.writes|)
    requires stored.writes[|stored.writes| - 1] == stored.job
    requires |out.0.writes| >= |stored.writes| && out.0.writes[..|stored.writes|] == stored.writes
    requires UpstreamResult(stored, p + 1, replies, out)
    ensures UpstreamResult(r, p, replies, out)
  {
    var k := Reach(replies);
    var e := if k < 4 then k + 1 else 4;
    assert Upstream[p..e] == [Upstream[p]] + Upstream[p + 1..e];
    forall i | |r.writes| <= i < |out.0.writes|
      ensures Coherent(out.0.writes[i]) && ErrorExplained(out.0.writes[i])
    {
      if i < |stored.writes| {
        assert out.0.writes[i] == stored.writes[i];
      }
    }
  }

  /** The upstream run from the phase where `p` stages are done: it calls
      the remaining stages in order up to and including the first failure,
      raises that failure or passes, leaves the record in the matching
      phase, and every record it writes keeps the invariants. */
  lemma {:induction false} UpstreamRuns(r: Run, p: nat, replies: Replies, clock: Clock)
    requires p <= 4 && UpstreamPhase(r.job, p, Idle(None), replies)
    ensures UpstreamResult(r, p, replies, RunUpstream(r, p, replies, clock))
    decreases 4 - p
  {
    if p == 4 {
      assert Reach(replies) == 4;
    } else if replies.Get(Upstream[p]).Failure? {
      UpstreamFailsAt(r, p, replies, clock);
    } else {
      var stored := UpstreamPassesAt(r, p, replies, clock);
      UpstreamRuns(stored, p + 1, replies, clock);
      UpstreamContinues(r, stored, p, replies, RunUpstream(stored, p + 1, replies, clock));
    }
  }

  // ----- The publish stage ------------------------------------------------

  /** The records the publish stage writes: publish running, publish
      settled (the job in error on failure) and, on success, the payload
      stored with the job completed. */
  lemma RunPublishTrace(r: Run, reply: Reply, clock: Clock)
    ensures var out := RunPublish(r, reply, clock);
      var w1 := r.job.(stages := r.job.stages.Set(Publish, Running(None)), updatedAt := clock(|r.writes|));
      var w2 := r.job.(stages := r.job.stages.Set(Publish, Settled(reply)),
                       status := if reply.Success? then r.job.status else JobError,
                       updatedAt := clock(|r.writes| + 1));
      && out.0.writes == r.writes + [w1, w2]
           + (if reply.Success?
              then [w2.(artifacts := w2.artifacts.Set(Publish, Some(reply.value)), status := JobCompleted,
                        updatedAt := clock(|r.writes| + 2))]
              else [])
      && out.0.job == out.0.writes[|out.0.writes| - 1]
      && out.1 == (if reply.Success? then Pass else Fail(reply.error))
  {
  }

  /** Publishing a coherent job whose upstream is ready keeps every write
      coherent; when the job was not already in error, every write also
      explains an error status. */
  lemma RunPublishSound(r: Run, reply: Reply, clock: Clock)
    requires Coherent(r.job) && r.job.UpstreamReady() && !r.job.stages.publish.ready()
    ensures var out := RunPublish(r, reply, clock);
      && (forall i :: |r.writes| <= i < |out.0.writes| ==> Coherent(out.0.writes[i]))
      && (r.job.status != JobError ==> SoundFrom(out.0.writes, |r.writes|))
  {
    RunPublishTrace(r, reply, clock);
    var out := RunPublish(r, reply, clock);
    assert r.job.artifacts.publish == None by {
      assert r.job.artifacts.Get(Publish).Some? ==> r.job.stages.Get(Publish).ready();
    }
    forall i | |r.writes| <= i < |out.0.writes|
      ensures Coherent(out.0.writes[i])
      ensures r.job.status != JobError ==> ErrorExplained(out.0.writes[i])
    {
      var w := out.0.writes[i];
      assert forall s :: s != Publish ==> w.stages.Get(s) == r.job.stages.Get(s) && w.artifacts.Get(s) == r.job.artifacts.Get(s);
      if w.status == JobError && r.job.status != JobError {
        assert w.stages.Get(Publish).Error?;
      }
    }
  }

  // ----- The whole execution ----------------------------------------------

  /** Every stage, every artifact slot and the status are where the
      reference outcome puts them. */
  ghost predicate Finished(j: JobRecord, replies: Replies, autoPublish: bool) {
    && (forall s :: j.stages.Get(s) == ExpectedStage(replies, autoPublish, s))
    && (forall s :: j.artifacts.Get(s) == ExpectedArtifact(replies, autoPublish, s))
    && j.status == ExpectedStatus(replies, autoPublish)
  }

  /** A job whose upstream stages are as the upstream run leaves them after
      full success is finished once publish, its artifact and the status
      are where the reference outcome puts them. */
  lemma FinishedAfterUpstream(j0: JobRecord, j: JobRecord, replies: Replies, autoPublish: bool)
    requires UpstreamPhase(j0, 4, Idle(None), replies)
    requires forall s :: s != Publish ==> j.stages.Get(s) == j0.stages.Get(s) && j.artifacts.Get(s) == j0.artifacts.Get(s)
    requires j.stages.publish == ExpectedStage(replies, autoPublish, Publish)
    requires j.artifacts.publish == ExpectedArtifact(replies, autoPublish, Publish)
    requires j.status == ExpectedStatus(replies, autoPublish)
    ensures Finished(j, replies, autoPublish)
  {
  }

  /** The record with publish unlocked after full upstream success keeps
      the invariants. */
  lemma UnlockSound(r: Run, replies: Replies, clock: Clock) returns (unlocked: Run)
    requires UpstreamPhase(r.job, 4, Idle(None), replies)
    ensures Reach(replies) == 4 && r.job.UpstreamReady()
    ensures unlocked == Persist(r, r.job.(stages := r.job.stages.Set(Publish, Unlocked(r.job.options.autoPublish))), clock)
    ensures Coherent(unlocked.job) && ErrorExplained(unlocked.job)
    ensures Conclude(r, replies.publish, clock) == Decide(unlocked, replies.publish, clock)
  {
    UpstreamOrder();
    assert Reach(replies) == 4;
    assert r.job.stages.Get(Script) == Ready(None) && r.job.stages.Get(Video) == Ready(None);
    assert r.job.stages.Get(Audio) == Ready(None) && r.job.stages.Get(Captions) == Ready(None);
    unlocked := Persist(r, r.job.(stages := r.job.stages.Set(Publish, Unlocked(r.job.options.autoPublish))), clock);
  }

  /** Manual publishing: after full upstream success the job parks at
      awaiting-publish with publish waiting for a trigger. */
  lemma ConcludeManual(r: Run, replies: Replies, clock: Clock)
    requires UpstreamPhase(r.job, 4, Idle(None), replies) && !r.job.options.autoPublish
    ensures var out := Conclude(r, replies.publish, clock);
      && Finished(out.0.job, replies, false)
      && out.0.calls == r.calls && out.1 == Pass
      && SoundFrom(out.0.writes, |r.writes|)
      && out.0.writes[|out.0.writes| - 1] == out.0.job
  {
    var unlocked := UnlockSound(r, replies, clock);
    var out := Conclude(r, replies.publish, clock);
    FinishedAfterUpstream(r.job, out.0.job, replies, false);
    assert out.0.writes == r.writes + [unlocked.job, out.0.job];
  }

  /** Auto-publishing: after full upstream success publish runs, and the
      job completes or fails with the publisher's error. */
  lemma ConcludeAuto(r: Run, replies: Replies, clock: Clock)
    requires UpstreamPhase(r.job, 4, Idle(None), replies) && r.job.options.autoPublish
    ensures var out := Conclude(r, replies.publish, clock);
      && Finished(out.0.job, replies, true)
      && out.0.calls == r.calls + [Publish]
      && out.1 == ExpectedOutcome(replies, true)
      && SoundFrom(out.0.writes, |r.writes|)
      && out.0.writes[|out.0.writes| - 1] == out.0.job
  {
    var unlocked := UnlockSound(r, replies, clock);
    var out := Conclude(r, replies.publish, clock);
    RunPublishTrace(unlocked, replies.publish, clock);
    RunPublishSound(unlocked, replies.publish, clock);
    FinishedAfterUpstream(r.job, out.0.job, replies, true);
    forall i | |r.writes| <= i < |out.0.writes|
      ensures Coherent(out.0.writes[i]) && ErrorExplained(out.0.writes[i])
    {
      if i == |r.writes| {
        assert out.0.writes[i] == unlocked.job;
      }
    }
  }

  /** An upstream failure leaves the job exactly where the reference
      outcome puts it, whatever the publish mode. */
  lemma FinishedAfterFailure(j: JobRecord, replies: Replies, autoPublish: bool)
    requires Reach(replies) < 4
    requires UpstreamPhase(j, Reach(replies), Error(MessageOf(replies.Get(Upstream[Reach(replies)]).error)), replies)
    ensures Finished(j, replies, autoPublish)
  {
    UpstreamOrder();
  }

  /** The fresh record marked running is the start of the upstream phase. */
  lemma StartPhase(r: Run, replies: Replies, clock: Clock) returns (started: Run)
    requires r.job.stages == CreateStageMap() && r.job.artifacts == NoArtifacts
    ensures started == Persist(r, r.job.(status := JobRunning), clock)
    ensures UpstreamPhase(started.job, 0, Idle(None), replies)
    ensures SoundFrom(started.writes, |r.writes|)
  {
    started := Persist(r, r.job.(status := JobRunning), clock);
    UpstreamPhaseSound(started.job, 0, Idle(None), replies);
  }

  /** Soundness of the writes carries over a continuation. */
  lemma SoundChain(early: Run, later: Run, from: nat)
    requires Extends(later, early) && from <= |early.writes|
    requires SoundFrom(early.writes, from) && SoundFrom(later.writes, |early.writes|)
    ensures SoundFrom(later.writes, from)
  {
    forall i | from <= i < |early.writes|
      ensures Coherent(later.writes[i]) && ErrorExplained(later.writes[i])
    {
      assert later.writes[i] == later.writes[..|early.writes|][i];
    }
  }

  /** `executeJob` is the running write, the upstream run from there, and
      the conclusion when upstream passed. */
  lemma ExecuteJobSteps(r: Run, replies: Replies, clock: Clock) returns (started: Run, up: (Run, Outcome<Thrown>))
    ensures started == Persist(r, r.job.(status := JobRunning), clock)
    ensures up == RunUpstream(started, 0, replies, clock)
    ensures Extends(up.0, started)
    ensures ExecuteJob(r, replies, clock) == if up.1.Fail? then up else Conclude(up.0, replies.publish, clock)
  {
    started := Persist(r, r.job.(status := JobRunning), clock);
    up := RunUpstream(started, 0, replies, clock);
  }

  /** What an execution of a fresh record promises, given its result. */
  ghost predicate ExecutionResult(r: Run, replies: Replies, out: (Run, Outcome<Thrown>)) {
    var auto := r.job.options.autoPublish;
    && Finished(out.0.job, replies, auto)
    && out.0.calls == r.calls + ExpectedCalls(replies, auto)
    && out.1 == ExpectedOutcome(replies, auto)
    && SoundFrom(out.0.writes, |r.writes|)
    && |out.0.writes| > |r.writes|
    && out.0.writes[|out.0.writes| - 1] == out.0.job
  }

  /** An upstream failure ends the execution as the reference outcome says. */
  lemma FailingResult(r: Run, started: Run, up: (Run, Outcome<Thrown>), replies: Replies)
    requires Reach(replies) < 4 && started.calls == r.calls && |started.writes| > |r.writes|
    requires Extends(started, r) && SoundFrom(started.writes, |r.writes|)
    requires Extends(up.0, started) && UpstreamResult(started, 0, replies, up)
    requires |up.0.writes| > |started.writes|
    ensures ExecutionResult(r, replies, up)
  {
    FinishedAfterFailure(up.0.job, replies, r.job.options.autoPublish);
    SoundChain(started, up.0, |r.writes|);
  }

  /** Full upstream success ends the execution as the reference outcome says. */
  lemma SucceedingResult(r: Run, started: Run, up: (Run, Outcome<Thrown>), replies: Replies, clock: Clock)
    requires Reach(replies) == 4 && started.calls == r.calls && |started.writes| > |r.writes|
    requires Extends(started, r) && SoundFrom(started.writes, |r.writes|)
    requires Extends(up.0, started) && UpstreamResult(started, 0, replies, up)
    ensures ExecutionResult(r, replies, Conclude(up.0, replies.publish, clock))
  {
    var out := Conclude(up.0, replies.publish, clock);
    assert Upstream[0..4] == Upstream;
    assert up.0.job.options == r.job.options;
    if r.job.options.autoPublish {
      ConcludeAuto(up.0, replies, clock);
    } else {
      ConcludeManual(up.0, replies, clock);
    }
    SoundChain(started, up.0, |r.writes|);
    SoundChain(up.0, out.0, |r.writes|);
  }

  /** `executeJob` on a freshly created record: the collaborators are
      called in stage order up to the first failure (publish only when
      auto-publishing), the execution raises exactly that failure, the
      job ends with every stage, artifact and the status where the
      reference outcome puts them, every record it writes keeps the
      invariants, and the last one is the final record. */
  lemma ExecuteJobOutcome(r: Run, replies: Replies, clock: Clock)
    requires r.job.stages == CreateStageMap() && r.job.artifacts == NoArtifacts
    ensures ExecutionResult(r, replies, ExecuteJob(r, replies, clock))
  {
    var started, up := ExecuteJobSteps(r, replies, clock);
    var _ := StartPhase(r, replies, clock);
    UpstreamRuns(started, 0, replies, clock);
    if Reach(replies) < 4 {
      FailingResult(r, started, up, replies);
    } else {
      SucceedingResult(r, started, up, replies, clock);
    }
  }

  /** A failing upstream stage aborts the job: it is in error with the
      failure's message, the job is in error, every later stage is still
      idle with no artifact, publish is still locked, and no collaborator
      after it was called. */
  lemma ExecuteJobAborts(r: Run, replies: Replies, clock: Clock)
    requires r.job.stages == CreateStageMap() && r.job.artifacts == NoArtifacts
    requires Reach(replies) < 4
    ensures var out := ExecuteJob(r, replies, clock);
      var k := Reach(replies);
      && out.1 == Fail(replies.Get(Upstream[k]).error)
      && out.0.job.status == JobError
      && out.0.job.stages.Get(Upstream[k]) == Error(MessageOf(replies.Get(Upstream[k]).error))
      && (forall s :: s != Publish && Rank(s) > k ==> out.0.job.stages.Get(s) == Idle(None) && out.0.job.artifacts.Get(s) == None)
      && out.0.job.stages.publish == Locked(Some(WaitingForUpstream)) && out.0.job.artifacts.publish == None
      && out.0.calls == r.calls + Upstream[..k + 1]
  {
    ExecuteJobOutcome(r, replies, clock);
    UpstreamOrder();
    var out := ExecuteJob(r, replies, clock);
    assert out.0.job.stages.Get(Upstream[Reach(replies)]) == ExpectedStage(replies, r.job.options.autoPublish, Upstream[Reach(replies)]);
  }

  /** Without auto-publishing, full upstream success parks the job at
      awaiting-publish with publish waiting for a manual trigger and no
      publish artifact, and the publisher is not called. */
  lemma ExecuteJobParks(r: Run, replies: Replies, clock: Clock)
    requires r.job.stages == CreateStageMap() && r.job.artifacts == NoArtifacts
    requires Reach(replies) == 4 && !r.job.options.autoPublish
    ensures var out := ExecuteJob(r, replies, clock);
      && out.1 == Pass
      && out.0.job.status == JobAwaitingPublish
      && out.0.job.stages.publish == Idle(Some(AwaitingManualTrigger))
      && out.0.job.artifacts.publish == None
      && out.0.job.UpstreamReady()
      && out.0.calls == r.calls + Upstream
  {
    ExecuteJobOutcome(r, replies, clock);
    var j := ExecuteJob(r, replies, clock).0.job;
    assert j.stages.Get(Publish) == ExpectedStage(replies, false, Publish);
    assert j.stages.Get(Script) == ExpectedStage(replies, false, Script);
    assert j.stages.Get(Video) == ExpectedStage(replies, false, Video);
    assert j.stages.Get(Audio) == ExpectedStage(replies, false, Audio);
    assert j.stages.Get(Captions) == ExpectedStage(replies, false, Captions);
    assert j.artifacts.Get(Publish) == ExpectedArtifact(replies, false, Publish);
  }

  /** With auto-publishing, full upstream success runs the publisher: on
      success the job completes with publish ready and its payload
      stored; on failure publish and the job are in error and the failure
      is raised. */
  lemma ExecuteJobAutoPublishes(r: Run, replies: Replies, clock: Clock)
    requires r.job.stages == CreateStageMap() && r.job.artifacts == NoArtifacts
    requires Reach(replies) == 4 && r.job.options.autoPublish
    ensures AutoPublished(r, replies, ExecuteJob(r, replies, clock))
  {
    ExecuteJobOutcome(r, replies, clock);
    AutoPublishedFromResult(r, replies, ExecuteJob(r, replies, clock));
  }

  /** What an auto-publishing execution after full upstream success ends with. */
  ghost predicate AutoPublished(r: Run, replies: Replies, out: (Run, Outcome<Thrown>)) {
    && out.0.calls == r.calls + Upstream + [Publish]
    && (replies.publish.Success? ==>
          && out.1 == Pass && out.0.job.status == JobCompleted
          && out.0.job.stages.publish == Ready(None) && out.0.job.artifacts.publish == Some(replies.publish.value))
    && (replies.publish.Failure? ==>
          && out.1 == Fail(replies.publish.error) && out.0.job.status == JobError
          && out.0.job.stages.publish == Error(MessageOf(replies.publish.error)) && out.0.job.artifacts.publish == None)
  }

  lemma AutoPublishedFromResult(r: Run, replies: Replies, out: (Run, Outcome<Thrown>))
    requires Reach(replies) == 4 && r.job.options.autoPublish
    requires ExecutionResult(r, replies, out)
    ensures AutoPublished(r, replies, out)
  {
    assert out.0.job.stages.Get(Publish) == ExpectedStage(replies, true, Publish);
    assert out.0.job.artifacts.Get(Publish) == ExpectedArtifact(replies, true, Publish);
  }
}
