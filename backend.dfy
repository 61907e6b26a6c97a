/** The job service's handlers (backend/index.js) read as operations on an
    in-memory copy of the `jobs` table (backend/db.js). */
module Backend {
  import opened Wrappers
  import opened Json

  /** A point in time. The service stores ISO-8601 text of the wall clock;
      here the caller supplies it. */
  type Timestamp = int

  const Pending := "pending"
  const Running := "running"
  const Completed := "completed"

  /** Acknowledgement sent by the run handler, whether or not the id exists. */
  const JobStarted := "Job started"

  /** The largest rowid SQLite hands out; an AUTOINCREMENT table whose
      counter has reached it refuses further inserts with SQLITE_FULL. */
  const MaxRowId: int := 0x7FFF_FFFF_FFFF_FFFF

  /** One row of the `jobs` table. The text columns carry no NOT NULL
      constraint, so a field missing from the request is stored as NULL. */
  datatype Job = Job(
    id: int,
    taskName: Option<string>,
    payload: Option<string>,
    priority: Option<string>,
    status: string,
    createdAt: Timestamp,
    updatedAt: Timestamp)

  /** The body POSTed to the webhook when a job completes. */
  datatype Notification = Notification(
    jobId: int,
    taskName: Option<string>,
    priority: Option<string>,
    payload: Json,
    completedAt: Timestamp)

  /** The one store failure the model exhibits: the rowid counter is spent. */
  datatype StoreError = TableFull

  /** The rows of the table, keyed by id. */
  type Table = map<int, Job>

  /** JSON.parse of a stored payload column. JSON.parse turns its argument
      into text first, so a NULL column is read as the text "null". */
  function ParseStored(c: Codec, stored: Option<string>): (r: Option<Json>)
    ensures stored.Some? ==> r == c.decode(stored.value)
    ensures c.Lawful() && stored.None? ==> r == Some(JNull)
  {
    c.decode(stored.GetOr("null"))
  }

  /** JSON.stringify of the request's payload as bound into the INSERT: a
      missing payload stringifies to undefined, which is bound as NULL.
      Reading the column back gives the request's payload, or null when
      there was none, whenever the JSON library is lawful. */
  function Serialize(c: Codec, payload: Option<Json>): (stored: Option<string>)
    ensures stored.Some? <==> payload.Some?
    ensures c.Lawful() ==> ParseStored(c, stored) == Some(payload.GetOr(JNull))
  {
    match payload
    case None => None
    case Some(v) => Some(c.encode(v))
  }

  /** Two versions of a row agree on every column a status update leaves alone. */
  predicate SameIdentity(a: Job, b: Job) {
    && a.id == b.id
    && a.taskName == b.taskName
    && a.payload == b.payload
    && a.priority == b.priority
    && a.createdAt == b.createdAt
  }

  /** The effect on the rows of `UPDATE jobs SET status=…, updatedAt=…
      WHERE id=…`: there is no guard on the previous status, and an id that
      matches no row changes nothing. */
  function Update(t: Table, id: int, status: string, at: Timestamp): (r: Table)
    ensures r.Keys == t.Keys
    ensures id in t ==> r[id].status == status && r[id].updatedAt == at && SameIdentity(r[id], t[id])
    ensures forall k :: k in t && k != id ==> r[k] == t[k]
    ensures id !in t ==> r == t
  {
    if id in t then t[id := t[id].(status := status, updatedAt := at)] else t
  }

  /** `rows` is the result of `SELECT * FROM jobs`: every stored row exactly
      once, in no promised order. */
  ghost predicate IsListing(rows: seq<Job>, t: Table) {
    && (forall i :: 0 <= i < |rows| ==> rows[i].id in t && t[rows[i].id] == rows[i])
    && (forall id :: id in t ==> t[id] in rows)
    && (forall i, j :: 0 <= i < j < |rows| ==> rows[i].id != rows[j].id)
  }

  /** Every row is stored under its own id. */
  ghost predicate KeyedById(t: Table) {
    forall id :: id in t ==> t[id].id == id
  }

  /** The ids of a sequence of rows. */
  ghost function Ids(rows: seq<Job>): set<int> {
    if rows == [] then {} else Ids(rows[..|rows| - 1]) + {rows[|rows| - 1].id}
  }

  /** Rows with pairwise distinct ids have as many ids as rows, and an id is
      among them exactly when some row carries it. */
  lemma {:induction false} IdsOfDistinct(rows: seq<Job>)
    requires forall i, j :: 0 <= i < j < |rows| ==> rows[i].id != rows[j].id
    ensures |Ids(rows)| == |rows|
    ensures forall id :: id in Ids(rows) <==> exists i :: 0 <= i < |rows| && rows[i].id == id
  {
    if rows != [] {
      var rest := rows[..|rows| - 1];
      IdsOfDistinct(rest);
      assert Ids(rows) == Ids(rest) + {rows[|rows| - 1].id};
      assert rows[|rows| - 1].id !in Ids(rest);
      forall id | id in Ids(rows) ensures exists i :: 0 <= i < |rows| && rows[i].id == id {
        if id != rows[|rows| - 1].id {
          var i :| 0 <= i < |rest| && rest[i].id == id;
          assert rows[i].id == id;
        }
      }
    }
  }

  /** A listing holds as many rows as the table. */
  lemma ListingLength(rows: seq<Job>, t: Table)
    requires KeyedById(t) && IsListing(rows, t)
    ensures |rows| == |t|
  {
    IdsOfDistinct(rows);
    forall id ensures id in Ids(rows) <==> id in t {
      if id in t {
        var i :| 0 <= i < |rows| && rows[i] == t[id];
        assert rows[i].id == id;
      }
    }
    assert Ids(rows) == t.Keys;
  }

  /** What the deferred completion step did. */
  datatype Completion =
    | JobGone                             // no row has the id: nothing happens
    | Sent(notification: Notification)    // the row is completed and the notification sent
    | PayloadUnparsable                   // the row is completed, then JSON.parse throws: nothing is sent

  /** The table together with the notifications the completion step has
      sent so far. */
  class JobStore {
    const codec: Codec
    var jobs: Table
    /** The AUTOINCREMENT counter: one more than the largest id ever used. */
    var nextId: int
    /** Every webhook body sent, oldest first. */
    ghost var outbox: seq<Notification>
    /** The payload each row's create request carried (None when missing). */
    ghost var requested: map<int, Option<Json>>

    ghost predicate Valid()
      reads this
    {
      && 1 <= nextId
      && KeyedById(jobs)
      && requested.Keys == jobs.Keys
      && forall id :: id in jobs ==>
           && 1 <= id < nextId
           && jobs[id].payload == Serialize(codec, requested[id])
    }

    constructor (codec: Codec)
      ensures Valid()
      ensures this.codec == codec && jobs == map[] && nextId == 1 && outbox == [] && requested == map[]
    {
      this.codec := codec;
      jobs := map[];
      nextId := 1;
      outbox := [];
      requested := map[];
    }

    /** POST /jobs: insert a pending row built from the request's fields as
        they arrive (nothing is validated) and return its fresh id. */
    method Create(taskName: Option<string>, payload: Option<Json>, priority: Option<string>, now: Timestamp)
      returns (r: Result<int, StoreError>)
      requires Valid()
      modifies this
      ensures Valid() && outbox == old(outbox)
      ensures r.Ok? <==> old(nextId) <= MaxRowId
      ensures r.Ok? ==>
        && r.value == old(nextId)
        && r.value !in old(jobs)
        && (forall k :: k in old(jobs) ==> k < r.value)
        && jobs == old(jobs)[r.value := Job(r.value, taskName, Serialize(codec, payload), priority, Pending, now, now)]
        && nextId == r.value + 1
        && requested == old(requested)[r.value := payload]
      ensures r.Err? ==> jobs == old(jobs) && nextId == old(nextId) && requested == old(requested)
    {
      if nextId > MaxRowId {
        return Err(TableFull);
      }
      var id := nextId;
      jobs := jobs[id := Job(id, taskName, Serialize(codec, payload), priority, Pending, now, now)];
      requested := requested[id := payload];
      nextId := nextId + 1;
      r := Ok(id);
    }

    /** GET /jobs: every row, each once. The scan visits the possible ids
        in turn; callers are promised nothing about the order. */
    method List() returns (rows: seq<Job>)
      requires Valid()
      ensures IsListing(rows, jobs)
      ensures |rows| == |jobs|
    {
      rows := [];
      for k := 1 to nextId
        invariant forall i :: 0 <= i < |rows| ==> rows[i].id in jobs && rows[i].id < k && jobs[rows[i].id] == rows[i]
        invariant forall id :: id in jobs && id < k ==> jobs[id] in rows
        invariant forall i, j :: 0 <= i < j < |rows| ==> rows[i].id < rows[j].id
      {
        if k in jobs {
          rows := rows + [jobs[k]];
        }
      }
      ListingLength(rows, jobs);
    }

    /** GET /jobs/:id: the row, or nothing (an empty body, not an error). */
    method Get(id: int) returns (row: Option<Job>)
      ensures row.Some? <==> id in jobs
      ensures row.Some? ==> row.value == jobs[id]
    {
      row := if id in jobs then Some(jobs[id]) else None;
    }

    /** POST /run-job/:id, up to the point where the completion is
        scheduled: mark the row running without looking at its status, and
        acknowledge even when no row has that id. */
    method RunStart(id: int, now: Timestamp) returns (message: string)
      requires Valid()
      modifies this
      ensures Valid()
      ensures message == JobStarted
      ensures jobs == Update(old(jobs), id, Running, now)
      ensures nextId == old(nextId) && outbox == old(outbox) && requested == old(requested)
    {
      jobs := Update(jobs, id, Running, now);
      message := JobStarted;
    }

    /** The deferred completion step of POST /run-job/:id: re-read the row,
        stop if it is gone, otherwise mark it completed and send one
        notification built from the row as read and the time read before
        it. The update is issued before the stored payload is parsed, so a
        payload JSON.parse rejects leaves the row completed and sends
        nothing. With a lawful JSON library that cannot happen, and the
        notification carries the create request's own payload. */
    method Complete(id: int, completedAt: Timestamp) returns (outcome: Completion)
      requires Valid()
      modifies this
      ensures Valid()
      ensures nextId == old(nextId) && requested == old(requested)
      ensures jobs == Update(old(jobs), id, Completed, completedAt)
      ensures outcome == JobGone <==> id !in old(jobs)
      ensures outcome == PayloadUnparsable <==>
        id in old(jobs) && ParseStored(codec, old(jobs)[id].payload).None?
      ensures !outcome.Sent? ==> outbox == old(outbox)
      ensures outcome.Sent? ==>
        && outcome.notification.jobId == id
        && outcome.notification.taskName == old(jobs)[id].taskName
        && outcome.notification.priority == old(jobs)[id].priority
        && ParseStored(codec, old(jobs)[id].payload) == Some(outcome.notification.payload)
        && outcome.notification.completedAt == completedAt
        && outbox == old(outbox) + [outcome.notification]
      ensures codec.Lawful() && id in old(jobs) ==>
        outcome.Sent? && outcome.notification.payload == old(requested)[id].GetOr(JNull)
    {
      if id !in jobs {
        return JobGone;
      }
      var job := jobs[id];
      jobs := Update(jobs, id, Completed, completedAt);
      var parsed := ParseStored(codec, job.payload);
      if parsed.None? {
        return PayloadUnparsable;
      }
      var n := Notification(job.id, job.taskName, job.priority, parsed.value, completedAt);
      outbox := outbox + [n];
      outcome := Sent(n);
    }
  }

  /** The scenario of a single job's life: create, list, run, complete, and
      run again after completion. */
  method Scenario(c: Codec, body: Json)
    requires c.Lawful()
  {
    var store := new JobStore(c);
    var created := store.Create(Some("send-email"), Some(body), Some("High"), 100);
    assert created == Ok(1);

    var rows := store.List();
    assert |rows| == 1 && rows[0].id == 1 && rows[0].status == Pending;

    var message := store.RunStart(1, 101);
    var row := store.Get(1);
    assert row.Some? && row.value.status == Running && row.value.updatedAt == 101;

    var done := store.Complete(1, 104);
    assert done == Sent(Notification(1, Some("send-email"), Some("High"), body, 104));
    assert store.outbox == [done.notification];

    // No guard: a completed job goes back to running.
    message := store.RunStart(1, 200);
    assert store.jobs[1].status == Running;

    // An unknown id is acknowledged, changes nothing and notifies nobody.
    var before := store.jobs;
    message := store.RunStart(7, 201);
    done := store.Complete(7, 204);
    assert message == JobStarted && done == JobGone && store.jobs == before;
    row := store.Get(7);
    assert row == None;
  }
}
