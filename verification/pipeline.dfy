/** The orchestrator: the stage runner, the job executor, the two ways of
    starting a job and the manual publish trigger. Every collaborator call
    (script, video, voice, captions, publish) is an input reply, the clock and
    the id generator are parameters, and each operation returns every record
    it wrote to the store, in order, so that what polling clients can see is
    part of the model. */
module Pipeline {
  import opened Wrappers
  import opened PipelineTypes
  import JobStore

  const WaitingForUpstream := "Waiting for upstream readiness"
  const AwaitingManualTrigger := "Awaiting manual trigger"
  const UnknownError := "Unknown error"
  const JobNotFound := "Job not found"
  const UpstreamNotReady := "Upstream stages are not ready"
  const PublishAlreadyRunning := "Publish already running"

  /** What a collaborator can throw: an `Error` object with its message, or
      some other value. */
  datatype Thrown = ErrorObject(message: string) | NonError

  /** The message the stage runner records for a failure. */
  function MessageOf(t: Thrown): string {
    match t
    case ErrorObject(m) => m
    case NonError => UnknownError
  }

  /** One collaborator call: the payload it resolves with, or what it throws. */
  type Reply = Result<Payload, Thrown>

  /** How each stage's collaborator answers during one call. */
  type Replies = PerStage<Reply>

  /** The clock: reading `k` is the time of the k-th store write of a call. */
  type Clock = nat -> Timestamp

  /** The course of an operation on one job so far: the live record, every
      record written to the store (`saveJob` or `updateJob`), and the stages
      whose collaborator was called, each in order. */
  datatype Run = Run(job: JobRecord, writes: seq<JobRecord>, calls: seq<StageName>)

  /** What a public operation leaves in the store, wrote, called and returns. */
  datatype Call<T> = Call(store: JobStore.Store, writes: seq<JobRecord>, calls: seq<StageName>, result: T)

  /** The store after the given records were written to it in order. */
  function ApplyWrites(s: JobStore.Store, writes: seq<JobRecord>): (r: JobStore.Store)
    requires s.Valid()
    ensures r.Valid()
    decreases |writes|
  {
    if |writes| == 0 then s else ApplyWrites(JobStore.Save(s, writes[0]), writes[1..])
  }

  /** The fields that no transition changes. */
  predicate SameJob(a: JobRecord, b: JobRecord) {
    a.id == b.id && a.idea == b.idea && a.options == b.options && a.createdAt == b.createdAt
  }

  /** `later` continues `r`: it kept every earlier write, and everything it
      wrote since, like its live record, is the same job. */
  ghost predicate Extends(later: Run, r: Run) {
    && SameJob(later.job, r.job)
    && |later.writes| >= |r.writes|
    && later.writes[..|r.writes|] == r.writes
    && forall i :: |r.writes| <= i < |later.writes| ==> SameJob(later.writes[i], r.job)
  }

  lemma ExtendsTransitive(c: Run, b: Run, a: Run)
    requires Extends(b, a) && Extends(c, b)
    ensures Extends(c, a)
  {
    assert c.writes[..|a.writes|] == c.writes[..|b.writes|][..|a.writes|];
  }

  /** The state a finished stage is left in. */
  function Settled(reply: Reply): StageState {
    match reply
    case Success(_) => Ready(None)
    case Failure(t) => Error(MessageOf(t))
  }

  /** `createStageMap`: upstream stages idle, publish locked. */
  function CreateStageMap(): (m: StageMap)
    ensures forall s :: !m.Get(s).ready()
    ensures forall s :: s != Publish ==> m.Get(s) == Idle(None)
    ensures m.publish == Locked(Some(WaitingForUpstream))
  {
    PerStage(Idle(None), Idle(None), Idle(None), Idle(None), Locked(Some(WaitingForUpstream)))
  }

  const NoArtifacts: Artifacts := PerStage(None, None, None, None, None)

  /** `createJobRecord`, with the fresh id and the current time as inputs. */
  function CreateJobRecord(idea: UserIdea, autoPublish: bool, id: JobId, now: Timestamp): (j: JobRecord)
    ensures j.id == id && j.idea == idea && j.options.autoPublish == autoPublish
    ensures j.status == JobPending
    ensures j.stages == CreateStageMap()
    ensures forall s :: j.artifacts.Get(s) == None
    ensures j.createdAt == now && j.updatedAt == now
  {
    JobRecord(id, idea, JobPending, CreateStageMap(), NoArtifacts, JobOptions(autoPublish), now, now)
  }

  /** `updateJob` on the live record, stamped with the next clock reading. */
  function Persist(r: Run, job: JobRecord, clock: Clock): (r': Run)
    ensures r'.job == job.(updatedAt := clock(|r.writes|))
    ensures r'.writes == r.writes + [r'.job]
    ensures r'.calls == r.calls
    ensures SameJob(job, r.job) ==> Extends(r', r)
  {
    var stamped := job.(updatedAt := clock(|r.writes|));
    Run(stamped, r.writes + [stamped], r.calls)
  }

  /** `runStage`: mark the stage running, call its collaborator, then mark it
      ready and hand back the payload unchanged, or record the error on the
      stage and the job and re-raise what was thrown. */
  function RunStage(r: Run, stage: StageName, reply: Reply, clock: Clock): (out: (Run, Reply))
    ensures out.1 == reply
    ensures out.0.calls == r.calls + [stage]
    ensures out.0.job.stages == r.job.stages.Set(stage, Settled(reply))
    ensures out.0.job.status == (if reply.Success? then r.job.status else JobError)
    ensures SameJob(out.0.job, r.job) && out.0.job.artifacts == r.job.artifacts
    ensures out.0.writes
         == r.writes + [r.job.(stages := r.job.stages.Set(stage, Running(None)), updatedAt := clock(|r.writes|))]
                     + [out.0.job]
    ensures Extends(out.0, r)
  {
    var started := Persist(r, r.job.(stages := r.job.stages.Set(stage, Running(None))), clock);
    var called := started.(calls := started.calls + [stage]);
    match reply
    case Success(_) =>
      (Persist(called, called.job.(stages := called.job.stages.Set(stage, Ready(None))), clock), reply)
    case Failure(t) =>
      var failed := called.job.(stages := called.job.stages.Set(stage, Error(MessageOf(t))), status := JobError);
      (Persist(called, failed, clock), reply)
  }

  /** The upstream part of `executeJob` from the stage ranked `from` on: run
      each stage, store its payload in its artifact slot, and stop at the
      first failure. */
  function RunUpstream(r: Run, from: nat, replies: Replies, clock: Clock): (out: (Run, Outcome<Thrown>))
    requires from <= |Upstream|
    ensures Extends(out.0, r)
    ensures from < |Upstream| ==> |out.0.writes| >= |r.writes| + 2
    decreases |Upstream| - from
  {
    if from == |Upstream| then (r, Pass)
    else
      var stage := Upstream[from];
      var (ran, reply) := RunStage(r, stage, replies.Get(stage), clock);
      match reply
      case Failure(t) => (ran, Fail(t))
      case Success(v) =>
        var stored := Persist(ran, ran.job.(artifacts := ran.job.artifacts.Set(stage, Some(v))), clock);
        var out := RunUpstream(stored, from + 1, replies, clock);
        ExtendsTransitive(stored, ran, r);
        ExtendsTransitive(out.0, stored, r);
        out
  }

  /** Run the publish stage, store its payload and mark the job completed;
      shared by the automatic and the manual publish path. */
  function RunPublish(r: Run, reply: Reply, clock: Clock): (out: (Run, Outcome<Thrown>))
    ensures Extends(out.0, r) && |out.0.writes| >= |r.writes| + 2
    ensures out.0.calls == r.calls + [Publish]
    ensures out.1.Pass? <==> reply.Success?
  {
    var (published, result) := RunStage(r, Publish, reply, clock);
    match result
    case Failure(t) => (published, Fail(t))
    case Success(v) =>
      var done := published.job.(artifacts := published.job.artifacts.Set(Publish, Some(v)), status := JobCompleted);
      var finished := Persist(published, done, clock);
      ExtendsTransitive(finished, published, r);
      (finished, Pass)
  }

  /** The publish state `executeJob` unlocks once upstream is ready. */
  function Unlocked(autoPublish: bool): StageState {
    if autoPublish then Running(None) else Idle(Some(AwaitingManualTrigger))
  }

  /** Publish now when the job asks for auto-publishing; otherwise leave it
      awaiting a manual trigger. */
  function Decide(r: Run, publishReply: Reply, clock: Clock): (out: (Run, Outcome<Thrown>))
    ensures Extends(out.0, r) && |out.0.writes| > |r.writes|
  {
    if r.job.options.autoPublish then
      RunPublish(r, publishReply, clock)
    else
      (Persist(r, r.job.(status := JobAwaitingPublish), clock), Pass)
  }

  /** What `executeJob` does once the four upstream stages have succeeded:
      unlock publish if upstream reports ready, then decide. */
  function Conclude(r: Run, publishReply: Reply, clock: Clock): (out: (Run, Outcome<Thrown>))
    ensures Extends(out.0, r) && |out.0.writes| > |r.writes|
  {
    if r.job.UpstreamReady() then
      var unlocked := Persist(r, r.job.(stages := r.job.stages.Set(Publish, Unlocked(r.job.options.autoPublish))), clock);
      var out := Decide(unlocked, publishReply, clock);
      ExtendsTransitive(out.0, unlocked, r);
      out
    else
      Decide(r, publishReply, clock)
  }

  /** `executeJob`: mark the job running, run script, video, audio and
      captions in order, unlock publish, then either publish (auto) and
      complete, or park at awaiting-publish. A stage failure ends it early. */
  function ExecuteJob(r: Run, replies: Replies, clock: Clock): (out: (Run, Outcome<Thrown>))
    ensures Extends(out.0, r) && |out.0.writes| >= |r.writes| + 3
  {
    var started := Persist(r, r.job.(status := JobRunning), clock);
    var (up, outcome) := RunUpstream(started, 0, replies, clock);
    ExtendsTransitive(up, started, r);
    if outcome.Fail? then (up, outcome)
    else
      var out := Conclude(up, replies.publish, clock);
      ExtendsTransitive(out.0, up, r);
      out
  }

  /** `options?.autoPublish ?? process.env.AUTO_PUBLISH === 'true'`: an
      explicit choice, even `false`, wins over the process-wide flag. */
  function ResolveAutoPublish(explicit: Option<bool>, autoPublishVar: Option<string>): (b: bool)
    ensures explicit.Some? ==> b == explicit.value
    ensures explicit.None? ==> (b <==> autoPublishVar == Some("true"))
  {
    explicit.GetOr(autoPublishVar == Some("true"))
  }

  /** Build the record (clock reading 0) and `saveJob` it: the launch's first
      write: a pending record that nothing has touched yet (`LaunchIsSave`
      states what it leaves in the store). */
  function Launch(idea: UserIdea, autoPublish: bool, id: JobId, clock: Clock): (r: Run)
    ensures r.job == CreateJobRecord(idea, autoPublish, id, clock(0))
    ensures r.job.id == id && r.job.idea == idea && r.job.options.autoPublish == autoPublish
    ensures r.job.status == JobPending && r.job.stages == CreateStageMap()
    ensures r.job.createdAt == clock(0) && r.job.updatedAt == clock(0)
    ensures r.writes == [r.job] && r.calls == []
  {
    var job := CreateJobRecord(idea, autoPublish, id, clock(0));
    Run(job, [job], [])
  }

  /** `startJob`: launch the job and run it detached. The caller gets the
      record as it stands when the executor first suspends (job running,
      script running); a failure of the detached run is only logged, so the
      result is never an error. The store is the one the run leaves behind. */
  function StartJob(store: JobStore.Store, idea: UserIdea, explicit: Option<bool>, autoPublishVar: Option<string>,
                    id: JobId, replies: Replies, clock: Clock): (c: Call<JobRecord>)
    requires store.Valid()
    ensures c.result.id == id && c.result.idea == idea && c.result.createdAt == clock(0)
    ensures c.result.options.autoPublish == ResolveAutoPublish(explicit, autoPublishVar)
  {
    var launched := Launch(idea, ResolveAutoPublish(explicit, autoPublishVar), id, clock);
    var (ran, _) := ExecuteJob(launched, replies, clock);
    Call(ApplyWrites(store, ran.writes), ran.writes, ran.calls, ran.writes[2])
  }

  /** `runJobSync`: launch the job and wait for it; the executor's failure
      propagates to the caller. */
  function RunJobSync(store: JobStore.Store, idea: UserIdea, explicit: Option<bool>, autoPublishVar: Option<string>,
                      id: JobId, replies: Replies, clock: Clock): (c: Call<Result<JobRecord, Thrown>>)
    requires store.Valid()
    ensures c.result.Success? ==> c.result.value.id == id && c.result.value.idea == idea
    ensures c.result.Success? ==> c.result.value.options.autoPublish == ResolveAutoPublish(explicit, autoPublishVar)
  {
    var launched := Launch(idea, ResolveAutoPublish(explicit, autoPublishVar), id, clock);
    var (ran, outcome) := ExecuteJob(launched, replies, clock);
    var result := match outcome
      case Pass => Success(ran.job)
      case Fail(t) => Failure(t);
    Call(ApplyWrites(store, ran.writes), ran.writes, ran.calls, result)
  }

  /** `triggerPublish`: the manual publish path. Its guards are checked in
      order (unknown job, upstream not ready, publish already running) and
      none of them writes anything; an already published job comes back as
      it is, without calling the publisher; otherwise publish runs and, on
      success, the job completes. */
  function TriggerPublish(store: JobStore.Store, id: JobId, reply: Reply, clock: Clock): (c: Call<Result<JobRecord, Thrown>>)
    requires store.Valid()
    ensures JobStore.Get(store, id).None? ==> c == Call(store, [], [], Failure(ErrorObject(JobNotFound)))
    ensures JobStore.Get(store, id).Some? && !JobStore.Get(store, id).value.UpstreamReady()
            ==> c == Call(store, [], [], Failure(ErrorObject(UpstreamNotReady)))
    ensures JobStore.Get(store, id).Some? && JobStore.Get(store, id).value.UpstreamReady()
            && JobStore.Get(store, id).value.stages.publish.Running?
            ==> c == Call(store, [], [], Failure(ErrorObject(PublishAlreadyRunning)))
    ensures JobStore.Get(store, id).Some? && JobStore.Get(store, id).value.UpstreamReady()
            && JobStore.Get(store, id).value.stages.publish.Ready?
            ==> c == Call(store, [], [], Success(JobStore.Get(store, id).value))
    ensures c.calls != [] ==> c.calls == [Publish]
  {
    match JobStore.Get(store, id)
    case None => Call(store, [], [], Failure(ErrorObject(JobNotFound)))
    case Some(job) =>
      if !job.UpstreamReady() then Call(store, [], [], Failure(ErrorObject(UpstreamNotReady)))
      else if job.stages.publish.Running? then Call(store, [], [], Failure(ErrorObject(PublishAlreadyRunning)))
      else if job.stages.publish.Ready? then Call(store, [], [], Success(job))
      else
        var (published, outcome) := RunPublish(Run(job, [], []), reply, clock);
        var result := match outcome
          case Pass => Success(published.job)
          case Fail(t) => Failure(t);
        Call(ApplyWrites(store, published.writes), published.writes, published.calls, result)
  }
}
