/** The in-memory job store: one process-wide map from job id to record,
    kept in insertion order, listed most recent first. */
module JobStore {
  import opened Wrappers
  import opened Text
  import opened OrderedMaps
  import opened PipelineTypes

  type Store = OrderedMap<JobId, JobRecord>

  /** Every record is stored under its own id. */
  ghost predicate Keyed(s: Store) {
    s.Valid() && forall id :: id in s.items ==> s.items[id].id == id
  }

  /** The store at process start, and after `clearJobs`. */
  function Clear(): (s: Store)
    ensures Keyed(s)
    ensures forall id :: Get(s, id) == None
    ensures List(s) == []
  {
    Empty()
  }

  /** `saveJob`: insert or overwrite the record under its id. */
  function Save(s: Store, job: JobRecord): (r: Store)
    requires s.Valid()
    ensures r.Valid()
    ensures Get(r, job.id) == Some(job)
    ensures forall id :: id != job.id ==> Get(r, id) == Get(s, id)
    ensures Keyed(s) ==> Keyed(r)
    ensures |r.keys| == |s.keys| + (if job.id in s.keys then 0 else 1)
  {
    s.Put(job.id, job)
  }

  /** Saving twice under one id leaves what saving the second record once does. */
  lemma SaveTwice(s: Store, a: JobRecord, b: JobRecord)
    requires s.Valid() && a.id == b.id
    ensures Save(Save(s, a), b) == Save(s, b)
  {
  }

  /** Saving a record the store already holds changes nothing. */
  lemma SaveStored(s: Store, j: JobRecord)
    requires s.Valid() && Get(s, j.id) == Some(j)
    ensures Save(s, j) == s
  {
    assert s.items[j.id := j] == s.items;
  }

  /** `getJob`: absent, not an error, for an unknown id. */
  function Get(s: Store, id: JobId): (r: Option<JobRecord>)
    ensures s.Valid() ==> (r.Some? <==> id in s.keys)
    ensures Keyed(s) && r.Some? ==> r.value.id == id
  {
    s.Get(id)
  }

  /** `updateJob`: stamp the record with the current time and store it
      under its id. Returns the stamped record, which the caller keeps
      using (`updateJob` mutates it in place). */
  function Update(s: Store, job: JobRecord, now: Timestamp): (r: (Store, JobRecord))
    requires s.Valid()
    ensures r.1.updatedAt == now
    ensures r.1 == job.(updatedAt := now)
    ensures r.0.Valid()
    ensures Get(r.0, job.id) == Some(r.1)
    ensures forall id :: id != job.id ==> Get(r.0, id) == Get(s, id)
    ensures Keyed(s) ==> Keyed(r.0)
  {
    var stamped := job.(updatedAt := now);
    (Save(s, stamped), stamped)
  }

  /** `listJobs`: every stored record, most recently created first; records
      created at the same instant stay in insertion order. */
  function List(s: Store): (r: seq<JobRecord>)
    requires s.Valid()
    ensures multiset(r) == multiset(s.Values()) && |r| == |s.keys|
    ensures ByRecency(r)
    ensures forall t :: CreatedAt(r, t) == CreatedAt(s.Values(), t)
  {
    SortByRecencyCorrect(s.Values());
    SortByRecency(s.Values())
  }

  /** `a` may be listed before `b`: it was created at the same time or later. */
  predicate NewerOrSame(a: JobRecord, b: JobRecord) {
    LexLe(b.createdAt, a.createdAt)
  }

  ghost predicate ByRecency(js: seq<JobRecord>) {
    forall i, j :: 0 <= i < j < |js| ==> NewerOrSame(js[i], js[j])
  }

  /** The records created at time `t`, in their order in `js`. */
  function CreatedAt(js: seq<JobRecord>, t: Timestamp): seq<JobRecord>
    decreases |js|
  {
    if |js| == 0 then []
    else (if js[0].createdAt == t then [js[0]] else []) + CreatedAt(js[1..], t)
  }

  /** Two records tie under the comparator (each is newer than or as new as
      the other) exactly when they were created at the same time, so the
      records `CreatedAt` groups are exactly the comparator's ties. */
  lemma TiesAreSameTime(a: JobRecord, b: JobRecord)
    ensures NewerOrSame(a, b) && NewerOrSame(b, a) <==> a.createdAt == b.createdAt
  {
    if NewerOrSame(a, b) && NewerOrSame(b, a) {
      LexLeAntisymmetric(a.createdAt, b.createdAt);
    } else {
      LexLeReflexive(a.createdAt);
    }
  }

  /** Place `x` before the first record that is not strictly newer than it. */
  function InsertByRecency(x: JobRecord, js: seq<JobRecord>): (r: seq<JobRecord>)
    ensures multiset(r) == multiset(js) + multiset{x}
    decreases |js|
  {
    if |js| == 0 then [x]
    else if NewerOrSame(x, js[0]) then [x] + js
    else
      assert js == [js[0]] + js[1..];
      [js[0]] + InsertByRecency(x, js[1..])
  }

  /** A stable sort on `createdAt`, descending: the effect of `Array.prototype.sort`
      with the comparator `b.createdAt.localeCompare(a.createdAt)`. */
  function SortByRecency(js: seq<JobRecord>): (r: seq<JobRecord>)
    ensures multiset(r) == multiset(js)
    decreases |js|
  {
    if |js| == 0 then []
    else
      assert js == [js[0]] + js[1..];
      InsertByRecency(js[0], SortByRecency(js[1..]))
  }

  lemma {:induction false} InsertKeepsOrder(x: JobRecord, js: seq<JobRecord>)
    requires ByRecency(js)
    ensures ByRecency(InsertByRecency(x, js))
    decreases |js|
  {
    if |js| > 0 && !NewerOrSame(x, js[0]) {
      var rest := InsertByRecency(x, js[1..]);
      InsertKeepsOrder(x, js[1..]);
      LexLeTotal(x.createdAt, js[0].createdAt);
      var r := [js[0]] + rest;
      forall i, j | 0 <= i < j < |r| ensures NewerOrSame(r[i], r[j]) {
        if i == 0 {
          assert r[j] in multiset(rest);
          assert r[j] == x || r[j] in js[1..];
          if r[j] != x {
            var k :| 1 <= k < |js| && js[k] == r[j];
          }
        }
      }
    } else if |js| > 0 {
      var r := [x] + js;
      forall j | 0 < j < |r| ensures NewerOrSame(r[0], r[j]) {
        if j > 1 {
          LexLeTransitive(js[j - 1].createdAt, js[0].createdAt, x.createdAt);
        }
      }
    }
  }

  /** Filtering distributes over a leading element. */
  lemma CreatedAtCons(x: JobRecord, js: seq<JobRecord>, t: Timestamp)
    ensures CreatedAt([x] + js, t) == (if x.createdAt == t then [x] else []) + CreatedAt(js, t)
  {
    assert ([x] + js)[1..] == js;
  }

  /** Inserting past a strictly newer head: the head and `x` were created
      at different times, so at most one of them joins a group. */
  lemma InsertPastHeadShape(x: JobRecord, js: seq<JobRecord>)
    requires |js| > 0 && !NewerOrSame(x, js[0])
    ensures InsertByRecency(x, js) == [js[0]] + InsertByRecency(x, js[1..])
  {
  }

  lemma CreatedAtSplit(js: seq<JobRecord>, t: Timestamp)
    requires |js| > 0
    ensures CreatedAt(js, t) == (if js[0].createdAt == t then [js[0]] else []) + CreatedAt(js[1..], t)
  {
  }

  lemma InsertPastHead(x: JobRecord, js: seq<JobRecord>, t: Timestamp)
    requires |js| > 0 && !NewerOrSame(x, js[0]) && x.createdAt != js[0].createdAt
    requires CreatedAt(InsertByRecency(x, js[1..]), t) == (if x.createdAt == t then [x] else []) + CreatedAt(js[1..], t)
    ensures CreatedAt(InsertByRecency(x, js), t)
         == (if x.createdAt == t then [x] else []) + CreatedAt(js, t)
  {
    var rest := InsertByRecency(x, js[1..]);
    var tail := CreatedAt(js[1..], t);
    InsertPastHeadShape(x, js);
    CreatedAtCons(js[0], rest, t);
    CreatedAtSplit(js, t);
    if x.createdAt == t {
      assert CreatedAt(rest, t) == [x] + tail;
      assert CreatedAt(js, t) == tail;
    } else if js[0].createdAt == t {
      assert CreatedAt(rest, t) == tail;
      assert CreatedAt(js, t) == [js[0]] + tail;
    } else {
      assert CreatedAt(rest, t) == tail;
      assert CreatedAt(js, t) == tail;
    }
  }

  lemma {:induction false} InsertKeepsTies(x: JobRecord, js: seq<JobRecord>, t: Timestamp)
    ensures CreatedAt(InsertByRecency(x, js), t)
         == (if x.createdAt == t then [x] else []) + CreatedAt(js, t)
    decreases |js|
  {
    if |js| == 0 {
      CreatedAtCons(x, [], t);
    } else if NewerOrSame(x, js[0]) {
      CreatedAtCons(x, js, t);
    } else {
      InsertKeepsTies(x, js[1..], t);
      LexLeReflexive(x.createdAt);
      InsertPastHead(x, js, t);
    }
  }

  /** `SortByRecency` is a stable descending sort: the result is a
      permutation of the input, ordered newest first, and the records that
      share a creation time keep their relative order. */
  lemma {:induction false} SortByRecencyCorrect(js: seq<JobRecord>)
    ensures multiset(SortByRecency(js)) == multiset(js)
    ensures ByRecency(SortByRecency(js))
    ensures forall t :: CreatedAt(SortByRecency(js), t) == CreatedAt(js, t)
    decreases |js|
  {
    if |js| > 0 {
      SortByRecencyCorrect(js[1..]);
      InsertKeepsOrder(js[0], SortByRecency(js[1..]));
      forall t ensures CreatedAt(SortByRecency(js), t) == CreatedAt(js, t) {
        InsertKeepsTies(js[0], SortByRecency(js[1..]), t);
      }
    }
  }

  /** `listJobs` returns every stored record exactly once, newest first,
      with same-time records in insertion order, and does not change the store. */
  lemma ListJobs(s: Store)
    requires Keyed(s)
    ensures multiset(List(s)) == multiset(s.Values())
    ensures |List(s)| == |s.keys|
    ensures forall id :: id in s.items ==> s.items[id] in List(s)
    ensures forall j :: j in List(s) ==> Get(s, j.id) == Some(j)
    ensures ByRecency(List(s))
    ensures forall t :: CreatedAt(List(s), t) == CreatedAt(s.Values(), t)
  {
    var vs := s.Values();
    SortByRecencyCorrect(vs);
    assert |multiset(List(s))| == |vs|;
    forall id | id in s.items ensures s.items[id] in List(s) {
      var i :| 0 <= i < |s.keys| && s.keys[i] == id;
      assert vs[i] in multiset(vs);
    }
    forall j | j in List(s) ensures Get(s, j.id) == Some(j) {
      assert j in multiset(vs);
      var i :| 0 <= i < |vs| && vs[i] == j;
    }
  }
}
