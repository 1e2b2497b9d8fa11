# Idea-to-video pipeline: job state machine, in Dafny

This project models the core of an idea-to-video pipeline service and
proves properties of the model. The core is:

- the job/stage state machine: the record types, the in-memory job store and
  the orchestrator that runs script, video, audio, captions and publish;
- the face registry map;
- the strict environment check with the configuration defaults;
- the logger's level gate.

Every collaborator call (script generation, video, voice track, captions,
publishing) is an input reply: the payload, or what the call throws. The
clock and the fresh job id are inputs too. Each operation of the orchestrator
is a pure function that returns what it leaves in the store and the records
it wrote, in order, so that what a polling client could see at any moment is
part of the model. The collaborators it called, in order, and what it
returns or raises are returned as well.

Modules, one per file:

- `Wrappers` (`wrappers.dfy`): `Option`, `Result` and `Outcome`.
- `Text` (`text.dfy`): lexicographic order by character (code point) and
  `join`.
- `OrderedMaps` (`ordered_map.dfy`): a JavaScript `Map`. It keeps keys in
  first-insertion order, a set keeps an existing key's position, and a
  delete drops the key.
- `PipelineTypes` (`types.dfy`):
  - stage names, the five stage states and the stage map;
  - job status, the job record and the idea.
- `JobStore` (`job_store.dfy`): `saveJob`, `getJob`, `listJobs`, `updateJob`
  and `clearJobs`.
- `Pipeline` (`pipeline.dfy`):
  - `createStageMap`, `createJobRecord`, `runStage` and `executeJob`;
  - `startJob`, `runJobSync` and `triggerPublish`.
- `PipelineProofs` (`pipeline_proofs.dfy`):
  - the record invariants;
  - a reference outcome of an execution, computed from the rank of the first
    failing collaborator;
  - the theorem that `executeJob` ends there.
- `OperationProofs` (`operations_proofs.dfy`): the public operations as a
  client of the store sees them.
- `FaceStore` (`face_store.dfy`): the face registry map operations and the
  start-up load.
- `Env` (`env.dfy`): `assertEnv` and the `env` record.
- `Logger` (`logger.dfy`): the level order, the threshold default, the
  suppression test and the line layout.

The record invariants (`PipelineProofs.Coherent` and
`PipelineProofs.ErrorExplained`) are:

- publish stays locked until script, video, audio and captions are all
  ready;
- an artifact is present only while its stage is ready;
- a completed job has published;
- an upstream stage leaves idle only after every earlier one is ready;
- a job in error status has a stage in error.

Every record `executeJob` writes keeps all five. Every record `triggerPublish`
writes keeps the first four. It also keeps the fifth unless the job was
already in error (see below).

Behaviour of the code that the model keeps:

- `startJob` returns the live record, which `executeJob` has already
  changed by then: `executeJob` runs synchronously up to its first
  suspension, so the record is `running` with script `running`
  (pipeline.ts:63-66 and 43-44). `Pipeline.StartJob` returns that record:
  the third write of the run.
- The reason recorded when publish waits for a manual trigger is the text
  "Awaiting manual trigger" (pipeline.ts:85).
- A stage error's message is the thrown `Error`'s message, which may be the
  empty text. Only a non-`Error` value becomes "Unknown error"
  (pipeline.ts:53).
- An error status is not always explained by a stage in error. When an
  auto-publish fails, the job is left in error with publish in error.
  `triggerPublish` on that job first writes publish `running` while the
  status stays `error`, so for that moment no stage is in error.
  `OperationProofs.RetryLeavesErrorUnexplained` and
  `OperationProofs.AutoPublishFailureIsRetryable` state this.

## Model

| member | source | states |
|---|---|---|
| JobStore.Save | src/orchestrator/store.ts:5-7 | after a save the record is found under its id and every other id is unaffected; there is at most one entry per id, and the entry count grows only for a new id |
| JobStore.SaveTwice | src/orchestrator/store.ts:5-7 | saving a second record with the same id replaces the first: the result equals saving only the second |
| JobStore.Update | src/orchestrator/store.ts:17-20 | the stored record is the given one with only `updatedAt` set to now (so `createdAt` and all else unchanged), stored under its id; other entries unchanged |
| JobStore.Clear | src/orchestrator/store.ts:22-24 | after clearing no id is found and the listing is empty |
| JobStore.Get | src/orchestrator/store.ts:9-11 | a record is found exactly for a stored id, and in a keyed store it carries that id |
| JobStore.SaveStored | src/orchestrator/store.ts:5-7 | saving a record already stored under its id leaves the store unchanged |
| JobStore.List | src/orchestrator/store.ts:13-15 | the listing is a permutation of the stored records, newest first, with records created at the same time in insertion order |
| JobStore.TiesAreSameTime | src/orchestrator/store.ts:14 | two records tie under the comparator exactly when they were created at the same time |
| JobStore.SortByRecencyCorrect | src/orchestrator/store.ts:13-15 | the recency sort is a permutation, ordered by `createdAt` non-increasing, and stable: records with equal `createdAt` keep their relative order |
| JobStore.ListJobs | src/orchestrator/store.ts:13-15 | the listing holds every stored record exactly once, each retrievable by its id, newest first, ties in insertion order |
| Text.LexLeTotal | src/orchestrator/store.ts:14 | the timestamp comparison relates every pair of texts |
| Text.LexLeTransitive | src/orchestrator/store.ts:14 | the timestamp comparison is transitive, so the sort order is well defined |
| PipelineTypes.UpstreamOrder | src/types/pipeline.ts:1 | the four upstream stages are exactly the stages other than publish, listed by rank |
| Pipeline.CreateStageMap | src/orchestrator/pipeline.ts:12-22 | a fresh stage map has no stage ready, the four upstream stages idle without reason, and publish locked with the reason "Waiting for upstream readiness" |
| Pipeline.CreateJobRecord | src/orchestrator/pipeline.ts:24-36 | a fresh record is pending with the fresh stage map, no artifact, the given id, idea and publish mode, and `createdAt = updatedAt` |
| Pipeline.Launch | src/orchestrator/pipeline.ts:105-106 | the launch writes one pending record with the given id, idea and mode, the fresh stage map, and the first clock reading as both creation and update time; nothing is called |
| OperationProofs.LaunchIsSave | src/orchestrator/pipeline.ts:105-106 | on any store the launch is one `saveJob` of the fresh record |
| Pipeline.RunStage | src/orchestrator/pipeline.ts:38-60 | the stage is marked running, then ready (payload handed back unchanged, status untouched) or in error with the thrown message (job in error, failure re-raised); no other stage or artifact changes, and exactly two records are written |
| Pipeline.RunUpstream | src/orchestrator/pipeline.ts:62-80 | the upstream phase only appends records of this job, at least two while a stage remains; which stages run and how they end is stated by `PipelineProofs.UpstreamRuns` |
| Pipeline.Decide | src/orchestrator/pipeline.ts:89-100 | publishing or parking appends at least one record of this job; the two branches are stated by `PipelineProofs.ConcludeAuto` and `PipelineProofs.ConcludeManual` |
| Pipeline.Conclude | src/orchestrator/pipeline.ts:82-100 | the step after the upstream phase appends at least one record of this job; its effect is stated by `PipelineProofs.ConcludeAuto` and `PipelineProofs.ConcludeManual` |
| Pipeline.ExecuteJob | src/orchestrator/pipeline.ts:62-101 | an execution only appends records of this job, at least three; its full outcome against the reference is stated by `PipelineProofs.ExecuteJobOutcome` |
| Pipeline.RunPublish | src/orchestrator/pipeline.ts:89-97 | the publish run calls only the publisher and passes exactly when the publisher succeeds |
| Pipeline.ResolveAutoPublish | src/orchestrator/pipeline.ts:104 | an explicit option, even `false`, wins; otherwise auto-publish is on exactly when `AUTO_PUBLISH` is the text "true" |
| Pipeline.Persist | src/orchestrator/store.ts:17-20 | every write appends the record stamped with the next clock reading and calls no collaborator; writing the same job extends the run |
| Pipeline.StartJob | src/orchestrator/pipeline.ts:103-111 | the returned job carries the new id, the idea, the first clock reading as creation time and the resolved publish mode |
| Pipeline.RunJobSync | src/orchestrator/pipeline.ts:113-119 | a returned job carries the new id, the idea and the resolved publish mode |
| Pipeline.TriggerPublish | src/orchestrator/pipeline.ts:129-145 | guards in order: unknown id, upstream not ready, publish running each fail with their message and write nothing; publish already ready returns the job unchanged without calling anything; only the publisher is ever called |
| PipelineProofs.UpstreamRuns | src/orchestrator/pipeline.ts:62-80 | from any point of the upstream phase the stages are called in order up to and including the first failure, that failure is raised, the record ends in the matching phase, and every record written keeps the invariants |
| PipelineProofs.RunPublishTrace | src/orchestrator/pipeline.ts:89-97 | the publish stage writes publish running, then publish settled (job in error on failure), then on success the payload with the job completed |
| PipelineProofs.RunPublishSound | src/orchestrator/pipeline.ts:147-159 | publishing a coherent job with upstream ready keeps every write coherent, and explains an error status when the job was not already in error |
| PipelineProofs.ConcludeManual | src/orchestrator/pipeline.ts:82-100 | after full upstream success without auto-publish, publish is unlocked to awaiting a manual trigger and the job parks at awaiting-publish, without calling the publisher |
| PipelineProofs.ConcludeAuto | src/orchestrator/pipeline.ts:82-97 | after full upstream success with auto-publish, publish runs and the job completes, or fails with the publisher's error |
| PipelineProofs.ExecuteJobOutcome | src/orchestrator/pipeline.ts:62-101 | for a fresh record, every stage, artifact and the status end where the reference outcome puts them, the collaborators called and the failure raised are the reference ones, and every record written keeps all five invariants |
| PipelineProofs.ExecuteJobAborts | src/orchestrator/pipeline.ts:62-80 | a failure at stage k leaves k in error with its message, the job in error, every later stage idle without artifact, publish locked, and no later collaborator called |
| PipelineProofs.ExecuteJobParks | src/orchestrator/pipeline.ts:82-100 | with auto-publish off, full success ends awaiting-publish, publish idle with "Awaiting manual trigger", no publish artifact, upstream ready |
| PipelineProofs.ExecuteJobAutoPublishes | src/orchestrator/pipeline.ts:89-97 | with auto-publish on, full success then publish success completes the job with publish ready and its artifact stored; a publish failure leaves publish and the job in error and is raised |
| OperationProofs.ApplyWritesSavesLast | src/orchestrator/store.ts:5-7 | writing a sequence of records of one job leaves the store as saving only the last one |
| OperationProofs.PersistIsUpdate | src/orchestrator/store.ts:17-20 | each write of a run is an `updateJob` stamped with the next clock reading |
| OperationProofs.RunJobSyncOutcome | src/orchestrator/pipeline.ts:113-119 | `runJobSync` calls the reference collaborators, raises the reference failure or returns the stored final record, stores it under the new id without touching other jobs, and every record written keeps the invariants |
| OperationProofs.StartJobOutcome | src/orchestrator/pipeline.ts:103-111 | `startJob` returns the job running with script running and nothing else started, never an error; the detached run leaves store, writes and calls exactly as `runJobSync` |
| OperationProofs.TriggerPublishRuns | src/orchestrator/pipeline.ts:147-160 | past the guards, only the publisher is called; on success the stored and returned job is completed with publish ready and its payload; on failure publish and the job are in error and the failure raised; no other job changes |
| OperationProofs.TriggerPublishIdempotent | src/orchestrator/pipeline.ts:143-145 | after a successful trigger, triggering again returns the same record without calling the publisher or writing |
| OperationProofs.TriggerPublishSound | src/orchestrator/pipeline.ts:129-161 | triggering keeps a coherent stored job coherent in every write, and explains an error status when the job was not in error |
| OperationProofs.RetryLeavesErrorUnexplained | src/orchestrator/pipeline.ts:139-147 | retrying a failed publish writes a record whose status is error while no stage is in error |
| OperationProofs.AutoPublishFailureIsRetryable | src/orchestrator/pipeline.ts:89-97 | an auto-publish whose publisher fails leaves a stored job with upstream ready, publish in error and status error |
| FaceStore.Apply | src/storage/faceStore.ts:60 | every key the update carries replaces the field, even with `undefined`; fields it does not carry are kept |
| FaceStore.ApplyNoChange | src/storage/faceStore.ts:60 | an update carrying no key leaves the face as it is |
| FaceStore.ApplyTwice | src/storage/faceStore.ts:60 | two successive updates equal one update by their merged keys |
| FaceStore.RenameOnlyName | src/routes/faces.ts:106-107 | the rename update changes the name only, to `undefined` when no name was sent |
| FaceStore.AddFace | src/storage/faceStore.ts:34-38 | the face is found under its id and returned; other ids unaffected; an existing id keeps its position, a new one goes last |
| FaceStore.GetFace | src/storage/faceStore.ts:40-42 | a face is found exactly for a stored id, and in a keyed store it carries that id |
| FaceStore.GetAllFaces | src/storage/faceStore.ts:44-46 | one face per stored id, in key order |
| FaceStore.DeleteFace | src/storage/faceStore.ts:48-54 | answers true exactly when the id was present; afterwards it is absent, other entries unchanged, and an absent id changes nothing |
| FaceStore.UpdateFace | src/storage/faceStore.ts:56-64 | a missing id changes nothing and answers undefined; otherwise the updated face is stored under the original key, in place, and returned |
| FaceStore.Load | src/storage/faceStore.ts:15-18 | loading leaves a well-formed map; which face each id holds is stated by `FaceStore.LoadLastWins` |
| FaceStore.LastWith | src/storage/faceStore.ts:15-18 | the last face in a list carrying the given id, or none when no face carries it |
| FaceStore.LoadLastWins | src/storage/faceStore.ts:15-18 | loading keeps, for each id, the last face in the list with that id; other ids keep what they had |
| FaceStore.LoadKeepsOrder | src/storage/faceStore.ts:15-18 | loading only appends keys after those already present |
| FaceStore.SaveThenLoad | src/storage/faceStore.ts:15-28 | loading the saved list of faces into an empty map restores the store, order included |
| Env.MissingFrom | src/config/env.ts:17 | the filter keeps exactly the keys that are absent or empty |
| Env.Missing | src/config/env.ts:17 | exactly the required keys that are absent or empty, in the listed order |
| Env.MissingInOrder | src/config/env.ts:17 | the filter keeps the listed order |
| Env.AssertEnv | src/config/env.ts:12-21 | lenient mode passes; strict mode fails exactly when a required key is absent or empty, with the prefix followed by the missing keys joined by ", " |
| Env.AssertEnvNamesMissing | src/config/env.ts:17-20 | the failure message names every required key that is absent or empty |
| Env.JoinShowsParts | src/config/env.ts:19 | each joined part appears in the joined text |
| Text.Join | src/config/env.ts:19 | no parts join to the empty text; otherwise the text starts with the first part and ends with the last, and with two or more parts it is at least as long as the first part, the separator and the last part together |
| Text.JoinOne | src/config/env.ts:19 | a single part joins to itself, with no separator |
| Text.JoinAppend | src/config/env.ts:19 | joining two non-empty lists is joining each with exactly one separator between them; with `Text.JoinOne` this fixes the joined text as the parts in order with one separator between neighbours |
| Env.OrDefault | src/config/env.ts:25-33 | only an absent variable takes the fallback; one set to the empty text keeps it |
| Env.LoadConfig | src/config/env.ts:23-34 | development unless `NODE_ENV` is exactly "production"; each of the nine text fields is its variable's text when set, even empty, and otherwise the empty text, or "local-cache" for the storage bucket |
| Env.CredentialsRead | src/config/env.ts:25-32 | each credential is its variable's text, or empty when absent |
| Env.StrictCheckGuardsCredentials | src/config/env.ts:12-32 | the strict check passes exactly when no credential of the configuration is empty |
| Logger.RankOf | src/lib/logger.ts:3-8 | only the four level names have an order |
| Logger.RankOfName | src/lib/logger.ts:3-8 | each level's name has that level's rank: error 0, warn 1, info 2, debug 3 |
| Logger.Threshold | src/lib/logger.ts:10 | the threshold is `LOG_LEVEL` as set, even empty, or "info" when absent |
| Logger.Suppressed | src/lib/logger.ts:13 | a level is suppressed exactly when the threshold is a level name of lower rank, so an unknown threshold suppresses nothing |
| Logger.Log | src/lib/logger.ts:12-20 | nothing is written exactly when the level is suppressed |
| Logger.EmittedIff | src/lib/logger.ts:13-15 | a line is written exactly when its rank is at most a recognised threshold's rank, and always under an unrecognised one |
| Logger.ErrorsAlwaysEmitted | src/lib/logger.ts:3-13 | error lines are written whatever the threshold |
| Logger.EmittedDownward | src/lib/logger.ts:13 | a threshold that lets a level through lets every more severe level through |
| Logger.EmittedUnderRaisedThreshold | src/lib/logger.ts:13 | raising a recognised threshold never drops a line the lower one let through |
| Logger.DefaultDropsOnlyDebug | src/lib/logger.ts:10-13 | with `LOG_LEVEL` absent only debug lines are dropped |
| Logger.UnknownThresholdDropsNothing | src/lib/logger.ts:10-13 | a `LOG_LEVEL` that is not a level name, the empty text included, drops nothing |
| Logger.LineLayout | src/lib/logger.ts:16-19 | the line is the bracketed time and upper-case tag, then the message, then a space and the metadata only when there is some |
| Logger.TagsDistinct | src/lib/logger.ts:19 | the tag in a line determines the level |

## Left out

- Collaborators (script generation, video generation with its polling loop,
  voice track, captions, publishing): these are HTTP calls, validation and
  delays. Each is one input reply per stage.
- Concurrency: independent jobs interleave, and `startJob`'s detached run can
  race a manual `triggerPublish` on the same job. The model runs each call to
  completion and does not model interleavings.
- The detached run's logging of its failure, and all logging side effects:
  console output, `JSON.stringify` of metadata (taken as given text) and
  reading the clock (an input).
- `randomUUID`: the fresh id is an input, and collisions with stored ids are
  not ruled out. A colliding id would overwrite the stored job, as `saveJob`
  does.
- `getJobById` and `listAllJobs` only delegate to `JobStore.Get` and
  `JobStore.List`.
- Text comparison: `localeCompare` is modelled as lexicographic order by
  character, that is, by Unicode code point. On the ASCII text that
  `toISOString` produces this agrees with UTF-16 code-unit order and with
  `localeCompare` on ISO-8601 timestamps. Locale collation of arbitrary
  text is not modelled.
- Artifact payloads are modelled as present values. A collaborator resolving
  with `undefined` is not distinguished from one that resolves with a value.
- Face persistence: reading and writing the faces file, `JSON.parse` and
  turning `createdAt` back into a `Date` are I/O. The map logic of the
  start-up load and the saved list (the map's values in order) are modelled.
- FaceStore.Apply: an update that sets `id`, `imageUrl`, `descriptor` or
  `createdAt` to `undefined` is not modelled, because these fields are typed
  as always present. Only `name` may be set to `undefined`, as the rename
  route does.
- The HTTP layer, the upload handling, the web front end and the command-line
  entry point are outside the core.
