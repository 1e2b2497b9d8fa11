/** The shared shapes of the idea-to-video pipeline: stage names, the
    five-way stage state, the per-stage map and the job record. */
module PipelineTypes {
  import opened Wrappers

  /** An ISO-8601 time string, as `Date.prototype.toISOString` produces. */
  type Timestamp = string

  type JobId = string

  /** Whatever a collaborator produced; the pipeline never looks inside it. */
  type Payload = string

  datatype StageName = Script | Video | Audio | Captions | Publish

  /** Position of a stage in the fixed running order. */
  function Rank(s: StageName): nat {
    match s
    case Script => 0
    case Video => 1
    case Audio => 2
    case Captions => 3
    case Publish => 4
  }

  /** The four stages that must all be ready before publishing, in the
      order the executor runs them. */
  const Upstream: seq<StageName> := [Script, Video, Audio, Captions]

  /** The state of one stage: exactly one of five shapes. Only the error
      shape requires its payload; the others' are optional. */
  datatype StageState =
    | Idle(reason: Option<string>)
    | Running(detail: Option<string>)
    | Ready(outputRef: Option<string>)
    | Locked(reason: Option<string>)
    | Error(error: string)
  {
    /** The `ready` flag, the only readiness signal the pipeline consults:
        true for the ready shape, false for the other four. */
    predicate ready() {
      Ready?
    }
  }

  /** A value for each of the five stages; none can be missing or added.
      Used for the stage map, the artifact bag and the collaborators'
      replies. */
  datatype PerStage<T> = PerStage(script: T, video: T, audio: T, captions: T, publish: T) {

    function Get(s: StageName): T {
      match s
      case Script => script
      case Video => video
      case Audio => audio
      case Captions => captions
      case Publish => publish
    }

    /** `map[s] = v`: stage `s` reads back as `v`, every other stage as before. */
    function Set(s: StageName, v: T): (r: PerStage<T>)
      ensures r.Get(s) == v
      ensures forall o :: o != s ==> r.Get(o) == Get(o)
    {
      match s
      case Script => this.(script := v)
      case Video => this.(video := v)
      case Audio => this.(audio := v)
      case Captions => this.(captions := v)
      case Publish => this.(publish := v)
    }
  }

  type StageMap = PerStage<StageState>

  /** One optional slot per stage. */
  type Artifacts = PerStage<Option<Payload>>

  datatype JobStatus = JobPending | JobRunning | JobAwaitingPublish | JobCompleted | JobError

  datatype UserIdea = UserIdea(topic: string, durationSeconds: real, brandVoice: string)

  datatype JobOptions = JobOptions(autoPublish: bool)

  datatype JobRecord = JobRecord(
    id: JobId,
    idea: UserIdea,
    status: JobStatus,
    stages: StageMap,
    artifacts: Artifacts,
    options: JobOptions,
    createdAt: Timestamp,
    updatedAt: Timestamp)
  {
    /** Script, video, audio and captions all report ready. */
    predicate UpstreamReady() {
      stages.script.ready() && stages.video.ready() && stages.audio.ready() && stages.captions.ready()
    }
  }

  /** Every stage in `Upstream` sits at its own rank, so `Upstream` runs in
      rank order and holds each non-publish stage exactly once. */
  lemma UpstreamOrder()
    ensures |Upstream| == 4
    ensures forall i :: 0 <= i < |Upstream| ==> Rank(Upstream[i]) == i
    ensures forall s :: s in Upstream <==> s != Publish
  {
  }
}
