/** Properties of the public operations as a client of the job store sees
    them: what `runJobSync` and `startJob` leave in the store and return,
    and the guards, effect and idempotence of `triggerPublish`. */
module OperationProofs {
  import opened Wrappers
  import opened PipelineTypes
  import opened Pipeline
  import opened PipelineProofs
  import JobStore

  // ----- Writing one job's records ----------------------------------------

  /** Writing a sequence of records of one job leaves the store as saving
      only the last one would: that record is stored and every other job
      is untouched. */
  lemma {:induction false} ApplyWritesSavesLast(s: JobStore.Store, ws: seq<JobRecord>)
    requires s.Valid() && |ws| > 0
    requires forall i :: 0 <= i < |ws| ==> ws[i].id == ws[0].id
    ensures ApplyWrites(s, ws) == JobStore.Save(s, ws[|ws| - 1])
    decreases |ws|
  {
    if |ws| > 1 {
      ApplyWritesSavesLast(JobStore.Save(s, ws[0]), ws[1..]);
      JobStore.SaveTwice(s, ws[0], ws[|ws| - 1]);
    }
  }

  /** Launching into any store is one `saveJob` of the fresh record. */
  lemma LaunchIsSave(s: JobStore.Store, idea: UserIdea, autoPublish: bool, id: JobId, clock: Clock)
    requires s.Valid()
    ensures var r := Launch(idea, autoPublish, id, clock);
      ApplyWrites(s, r.writes) == JobStore.Save(s, r.job)
  {
    var r := Launch(idea, autoPublish, id, clock);
    assert r.writes[1..] == [];
  }

  /** Writing one more record is one more save. */
  lemma {:induction false} ApplyWritesAppend(s: JobStore.Store, ws: seq<JobRecord>, w: JobRecord)
    requires s.Valid()
    ensures ApplyWrites(s, ws + [w]) == JobStore.Save(ApplyWrites(s, ws), w)
    decreases |ws|
  {
    if |ws| > 0 {
      ApplyWritesAppend(JobStore.Save(s, ws[0]), ws[1..], w);
      assert (ws + [w])[1..] == ws[1..] + [w];
    }
  }

  /** Each write of a run is `updateJob`: the store after it is the store
      before it with the record stamped by the next clock reading. */
  lemma PersistIsUpdate(s: JobStore.Store, r: Run, job: JobRecord, clock: Clock)
    requires s.Valid()
    ensures ApplyWrites(s, Persist(r, job, clock).writes)
         == JobStore.Update(ApplyWrites(s, r.writes), job, clock(|r.writes|)).0
    ensures Persist(r, job, clock).job == JobStore.Update(ApplyWrites(s, r.writes), job, clock(|r.writes|)).1
  {
    ApplyWritesAppend(s, r.writes, Persist(r, job, clock).job);
  }

  /** The records a run wrote since it was launched all belong to its job. */
  lemma OneJob(launched: Run, later: Run)
    requires |launched.writes| == 1 && launched.writes[0] == launched.job
    requires Extends(later, launched)
    ensures forall i :: 0 <= i < |later.writes| ==> later.writes[i].id == later.writes[0].id == launched.job.id
  {
    assert later.writes[0] == later.writes[..1][0];
  }

  /** A freshly created record keeps the invariants. */
  lemma CreatedSound(idea: UserIdea, autoPublish: bool, id: JobId, now: Timestamp)
    ensures var j := CreateJobRecord(idea, autoPublish, id, now);
      Coherent(j) && ErrorExplained(j)
  {
  }

  // ----- runJobSync ---------------------------------------------------------

  /** `runJobSync` is the launch, the execution, and the store after the
      execution's writes. */
  lemma RunJobSyncSteps(store: JobStore.Store, idea: UserIdea, explicit: Option<bool>, autoPublishVar: Option<string>,
                        id: JobId, replies: Replies, clock: Clock)
    returns (launched: Run, out: (Run, Outcome<Thrown>))
    requires store.Valid()
    ensures launched == Launch(idea, ResolveAutoPublish(explicit, autoPublishVar), id, clock)
    ensures out == ExecuteJob(launched, replies, clock)
    ensures RunJobSync(store, idea, explicit, autoPublishVar, id, replies, clock)
         == Call(ApplyWrites(store, out.0.writes), out.0.writes, out.0.calls,
                 if out.1.Pass? then Success(out.0.job) else Failure(out.1.error))
    ensures StartJob(store, idea, explicit, autoPublishVar, id, replies, clock)
         == Call(ApplyWrites(store, out.0.writes), out.0.writes, out.0.calls, out.0.writes[2])
  {
    launched := Launch(idea, ResolveAutoPublish(explicit, autoPublishVar), id, clock);
    out := ExecuteJob(launched, replies, clock);
  }

  /** What `runJobSync` promises, given what it returned. */
  ghost predicate SyncResult(store: JobStore.Store, idea: UserIdea, auto: bool, id: JobId, replies: Replies,
                             created: Timestamp, c: Call<Result<JobRecord, Thrown>>) {
    var expected := ExpectedOutcome(replies, auto);
    && c.calls == ExpectedCalls(replies, auto)
    && (expected.Fail? ==> c.result == Failure(expected.error))
    && JobStore.Get(c.store, id).Some?
    && var stored := JobStore.Get(c.store, id).value;
    && (expected.Pass? ==> c.result == Success(stored))
    && Finished(stored, replies, auto)
    && stored.idea == idea && stored.options.autoPublish == auto && stored.createdAt == created
    && (forall other :: other != id ==> JobStore.Get(c.store, other) == JobStore.Get(store, other))
    && (forall i :: 0 <= i < |c.writes| ==> Coherent(c.writes[i]) && ErrorExplained(c.writes[i]))
  }

  /** The launched execution's result, written to the store, keeps the
      promises of `runJobSync`. */
  lemma SyncResultHolds(store: JobStore.Store, launched: Run, out: (Run, Outcome<Thrown>), replies: Replies)
    requires store.Valid()
    requires launched.writes == [launched.job] && launched.calls == []
    requires Coherent(launched.job) && ErrorExplained(launched.job)
    requires Extends(out.0, launched) && ExecutionResult(launched, replies, out)
    ensures SyncResult(store, launched.job.idea, launched.job.options.autoPublish, launched.job.id, replies,
                       launched.job.createdAt,
                       Call(ApplyWrites(store, out.0.writes), out.0.writes, out.0.calls,
                            if out.1.Pass? then Success(out.0.job) else Failure(out.1.error)))
  {
    OneJob(launched, out.0);
    ApplyWritesSavesLast(store, out.0.writes);
    assert out.0.writes[0] == launched.job by {
      assert out.0.writes[0] == out.0.writes[..1][0];
    }
  }

  /** `runJobSync`: the collaborators called, the failure raised and the
      final record are those of the reference outcome; the final record is
      what the store holds under the new id and what a successful call
      returns; no other job changes; every record written keeps the
      invariants. */
  lemma RunJobSyncOutcome(store: JobStore.Store, idea: UserIdea, explicit: Option<bool>, autoPublishVar: Option<string>,
                          id: JobId, replies: Replies, clock: Clock)
    requires store.Valid()
    ensures SyncResult(store, idea, ResolveAutoPublish(explicit, autoPublishVar), id, replies, clock(0),
                       RunJobSync(store, idea, explicit, autoPublishVar, id, replies, clock))
  {
    var launched, out := RunJobSyncSteps(store, idea, explicit, autoPublishVar, id, replies, clock);
    ExecuteJobOutcome(launched, replies, clock);
    CreatedSound(idea, launched.job.options.autoPublish, id, clock(0));
    SyncResultHolds(store, launched, out, replies);
  }

  // ----- startJob -----------------------------------------------------------

  /** The first record the upstream run writes: its first stage running. */
  lemma UpstreamFirstWrite(r: Run, p: nat, replies: Replies, clock: Clock)
    requires p < |Upstream|
    ensures var out := RunUpstream(r, p, replies, clock);
      |out.0.writes| > |r.writes|
      && out.0.writes[|r.writes|] == r.job.(stages := r.job.stages.Set(Upstream[p], Running(None)), updatedAt := clock(|r.writes|))
  {
    var (ran, reply) := RunStage(r, Upstream[p], replies.Get(Upstream[p]), clock);
    var out := RunUpstream(r, p, replies, clock);
    if reply.Success? {
      var stored := Persist(ran, ran.job.(artifacts := ran.job.artifacts.Set(Upstream[p], Some(reply.value))), clock);
      assert out == RunUpstream(stored, p + 1, replies, clock);
      assert out.0.writes[|r.writes|] == out.0.writes[..|stored.writes|][|r.writes|];
    }
  }

  /** The records `executeJob` writes first: the job running, then the
      script stage running. */
  lemma ExecuteJobFirstWrites(r: Run, replies: Replies, clock: Clock)
    ensures var out := ExecuteJob(r, replies, clock);
      var started := r.job.(status := JobRunning, updatedAt := clock(|r.writes|));
      && |out.0.writes| > |r.writes| + 1
      && out.0.writes[|r.writes|] == started
      && out.0.writes[|r.writes| + 1]
         == started.(stages := started.stages.Set(Script, Running(None)), updatedAt := clock(|r.writes| + 1))
  {
    var started, up := ExecuteJobSteps(r, replies, clock);
    UpstreamFirstWrite(started, 0, replies, clock);
    var out := ExecuteJob(r, replies, clock);
    assert out.0.writes[|r.writes| + 1] == out.0.writes[..|up.0.writes|][|r.writes| + 1];
    assert out.0.writes[|r.writes|] == out.0.writes[..|up.0.writes|][|r.writes|];
    assert up.0.writes[|r.writes|] == up.0.writes[..|started.writes|][|r.writes|];
  }

  /** `startJob` answers at once with the record as the executor first
      suspends: the job running with its script stage running and nothing
      else started; the detached run still happens, leaving the store,
      writes and collaborator calls exactly as `runJobSync` does. */
  lemma StartJobOutcome(store: JobStore.Store, idea: UserIdea, explicit: Option<bool>, autoPublishVar: Option<string>,
                        id: JobId, replies: Replies, clock: Clock)
    requires store.Valid()
    ensures var c := StartJob(store, idea, explicit, autoPublishVar, id, replies, clock);
      var sync := RunJobSync(store, idea, explicit, autoPublishVar, id, replies, clock);
      && c.result.status == JobRunning
      && c.result.stages == CreateStageMap().Set(Script, Running(None))
      && (forall s :: c.result.artifacts.Get(s) == None)
      && c.result.createdAt == clock(0) && c.result.updatedAt == clock(2)
      && c.store == sync.store && c.writes == sync.writes && c.calls == sync.calls
  {
    var launched, out := RunJobSyncSteps(store, idea, explicit, autoPublishVar, id, replies, clock);
    ExecuteJobFirstWrites(launched, replies, clock);
  }

  // ----- triggerPublish -----------------------------------------------------

  /** The guards `triggerPublish` checks before it calls the publisher. */
  predicate Publishable(job: JobRecord) {
    job.UpstreamReady() && !job.stages.publish.Running? && !job.stages.publish.Ready?
  }

  /** `triggerPublish` past its guards is the publish stage run on the
      stored record, written to the store. */
  lemma TriggerPublishSteps(store: JobStore.Store, id: JobId, reply: Reply, clock: Clock)
    returns (job: JobRecord, published: (Run, Outcome<Thrown>))
    requires store.Valid() && JobStore.Get(store, id).Some? && Publishable(JobStore.Get(store, id).value)
    ensures job == JobStore.Get(store, id).value
    ensures published == RunPublish(Run(job, [], []), reply, clock)
    ensures TriggerPublish(store, id, reply, clock)
         == Call(ApplyWrites(store, published.0.writes), published.0.writes, published.0.calls,
                 if published.1.Pass? then Success(published.0.job) else Failure(published.1.error))
  {
    job := JobStore.Get(store, id).value;
    published := RunPublish(Run(job, [], []), reply, clock);
  }

  /** The store after the publish stage ran on a stored record: only that
      record changed, to the publish stage's last write. */
  lemma PublishStored(store: JobStore.Store, job: JobRecord, reply: Reply, clock: Clock)
    requires store.Valid() && JobStore.Keyed(store) && JobStore.Get(store, job.id) == Some(job)
    ensures var out := RunPublish(Run(job, [], []), reply, clock);
      var after := ApplyWrites(store, out.0.writes);
      && after.Valid() && JobStore.Keyed(after)
      && JobStore.Get(after, job.id) == Some(out.0.job)
      && forall other :: other != job.id ==> JobStore.Get(after, other) == JobStore.Get(store, other)
  {
    var out := RunPublish(Run(job, [], []), reply, clock);
    RunPublishTrace(Run(job, [], []), reply, clock);
    ApplyWritesSavesLast(store, out.0.writes);
  }

  /** `triggerPublish` on a job past its guards calls only the publisher;
      on success the job is completed with the payload stored and returned,
      on failure publish and the job are in error and the failure is
      raised; either way the store holds the new record and no other job
      changes. */
  lemma TriggerPublishRuns(store: JobStore.Store, id: JobId, reply: Reply, clock: Clock)
    requires store.Valid() && JobStore.Keyed(store)
    requires JobStore.Get(store, id).Some? && Publishable(JobStore.Get(store, id).value)
    ensures var c := TriggerPublish(store, id, reply, clock);
      var job := JobStore.Get(store, id).value;
      && c.calls == [Publish]
      && JobStore.Keyed(c.store)
      && JobStore.Get(c.store, id).Some?
      && var stored := JobStore.Get(c.store, id).value;
      && stored.stages == job.stages.Set(Publish, Settled(reply))
      && stored.artifacts == (if reply.Success? then job.artifacts.Set(Publish, Some(reply.value)) else job.artifacts)
      && stored.status == (if reply.Success? then JobCompleted else JobError)
      && c.result == (if reply.Success? then Success(stored) else Failure(reply.error))
      && (forall other :: other != id ==> JobStore.Get(c.store, other) == JobStore.Get(store, other))
  {
    var job, published := TriggerPublishSteps(store, id, reply, clock);
    RunPublishTrace(Run(job, [], []), reply, clock);
    PublishStored(store, job, reply, clock);
  }

  /** A successful `triggerPublish` is final: triggering again, whatever
      the publisher would answer, returns the same record without calling
      the publisher or writing anything. */
  lemma TriggerPublishIdempotent(store: JobStore.Store, id: JobId, reply: Reply, clock: Clock, again: Reply, later: Clock)
    requires store.Valid() && JobStore.Keyed(store)
    ensures var c := TriggerPublish(store, id, reply, clock);
      c.result.Success? ==> TriggerPublish(c.store, id, again, later) == Call(c.store, [], [], Success(c.result.value))
  {
    var c := TriggerPublish(store, id, reply, clock);
    if JobStore.Get(store, id).Some? && Publishable(JobStore.Get(store, id).value) {
      TriggerPublishRuns(store, id, reply, clock);
    }
  }

  /** `triggerPublish` keeps the invariants: every record it writes is
      coherent, and so the stored record stays coherent; when the job was
      not in error, an error status is explained in every write. */
  lemma TriggerPublishSound(store: JobStore.Store, id: JobId, reply: Reply, clock: Clock)
    requires store.Valid() && JobStore.Keyed(store)
    requires JobStore.Get(store, id).Some? ==> Coherent(JobStore.Get(store, id).value)
    ensures var c := TriggerPublish(store, id, reply, clock);
      && (forall i :: 0 <= i < |c.writes| ==> Coherent(c.writes[i]))
      && (JobStore.Get(c.store, id).Some? ==> Coherent(JobStore.Get(c.store, id).value))
      && (JobStore.Get(store, id).Some? && JobStore.Get(store, id).value.status != JobError
          ==> forall i :: 0 <= i < |c.writes| ==> ErrorExplained(c.writes[i]))
  {
    if JobStore.Get(store, id).Some? && Publishable(JobStore.Get(store, id).value) {
      var job, published := TriggerPublishSteps(store, id, reply, clock);
      RunPublishSound(Run(job, [], []), reply, clock);
      PublishStored(store, job, reply, clock);
    }
  }

  /** Retrying a publish that failed: the job is in error with publish in
      error, and the first record the retry writes keeps the error status
      while publish is running and no stage is in error. */
  lemma RetryLeavesErrorUnexplained(store: JobStore.Store, id: JobId, reply: Reply, clock: Clock)
    requires store.Valid() && JobStore.Keyed(store) && JobStore.Get(store, id).Some?
    requires var job := JobStore.Get(store, id).value;
      job.UpstreamReady() && job.stages.publish.Error? && job.status == JobError
    ensures var c := TriggerPublish(store, id, reply, clock);
      |c.writes| > 0 && c.writes[0].status == JobError && !ErrorExplained(c.writes[0])
  {
    var job, published := TriggerPublishSteps(store, id, reply, clock);
    RunPublishTrace(Run(job, [], []), reply, clock);
    var w := published.0.writes[0];
    assert forall s :: !w.stages.Get(s).Error? by {
      assert w.stages == job.stages.Set(Publish, Running(None));
    }
  }

  /** Such a job is what an auto-publishing run whose upstream succeeded
      and whose publisher failed leaves in the store. */
  lemma AutoPublishFailureIsRetryable(store: JobStore.Store, idea: UserIdea, explicit: Option<bool>, autoPublishVar: Option<string>,
                                      id: JobId, replies: Replies, clock: Clock)
    requires store.Valid()
    requires ResolveAutoPublish(explicit, autoPublishVar) && Reach(replies) == 4 && replies.publish.Failure?
    ensures var c := RunJobSync(store, idea, explicit, autoPublishVar, id, replies, clock);
      && JobStore.Get(c.store, id).Some?
      && var job := JobStore.Get(c.store, id).value;
      && job.UpstreamReady() && job.stages.publish.Error? && job.status == JobError
  {
    RunJobSyncOutcome(store, idea, explicit, autoPublishVar, id, replies, clock);
    var job := JobStore.Get(RunJobSync(store, idea, explicit, autoPublishVar, id, replies, clock).store, id).value;
    assert job.stages.Get(Script) == ExpectedStage(replies, true, Script);
    assert job.stages.Get(Video) == ExpectedStage(replies, true, Video);
    assert job.stages.Get(Audio) == ExpectedStage(replies, true, Audio);
    assert job.stages.Get(Captions) == ExpectedStage(replies, true, Captions);
    assert job.stages.Get(Publish) == ExpectedStage(replies, true, Publish);
  }
}
