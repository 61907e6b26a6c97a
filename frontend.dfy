/** The single-page client (frontend/app.js): the job-list filter, the
    create form's checks and reset, and the reloads after create and run.
    The client's HTTP calls are modelled as direct calls on a `JobStore`. */
module Frontend {
  import opened Wrappers
  import opened Json
  import opened Backend

  /** The filter value that lets every job through. */
  const All := "All"

  /** The predicate handed to `jobs.filter`: a set status filter rejects a
      job with another status, then a set priority filter rejects a job with
      another (or no) priority. */
  predicate Shown(j: Job, statusFilter: string, priorityFilter: string) {
    if statusFilter != All && j.status != statusFilter then false
    else if priorityFilter != All && j.priority != Some(priorityFilter) then false
    else true
  }

  /** The jobs the table displays: `jobs.filter(Shown)`. */
  function Visible(jobs: seq<Job>, statusFilter: string, priorityFilter: string): (r: seq<Job>)
    ensures |r| <= |jobs|
    ensures forall k :: 0 <= k < |r| ==> Shown(r[k], statusFilter, priorityFilter)
  {
    if jobs == [] then []
    else (if Shown(jobs[0], statusFilter, priorityFilter) then [jobs[0]] else [])
         + Visible(jobs[1..], statusFilter, priorityFilter)
  }

  /** With both filters at "All" the table shows the loaded list as it is. */
  lemma {:induction false} VisibleUnfiltered(jobs: seq<Job>)
    ensures Visible(jobs, All, All) == jobs
  {
    if jobs != [] {
      VisibleUnfiltered(jobs[1..]);
    }
  }

  /** `idx` picks an order-preserving subsequence `xs` out of `ys`. */
  ghost predicate SubsequenceAt(xs: seq<Job>, ys: seq<Job>, idx: seq<nat>) {
    && |idx| == |xs|
    && (forall k :: 0 <= k < |idx| ==> idx[k] < |ys| && xs[k] == ys[idx[k]])
    && (forall k, l :: 0 <= k < l < |idx| ==> idx[k] < idx[l])
  }

  /** Picking the first element ahead of a subsequence of the rest keeps the
      indices increasing. */
  lemma SubsequenceCons(xs: seq<Job>, ys: seq<Job>, idx: seq<nat>)
    requires ys != [] && SubsequenceAt(xs, ys, idx)
    requires forall k :: 0 <= k < |idx| ==> 1 <= idx[k]
    ensures SubsequenceAt([ys[0]] + xs, ys, [0] + idx)
  {
  }

  /** The displayed jobs are the loaded jobs with some left out, in their order. */
  lemma {:induction false} VisibleIsSubsequence(jobs: seq<Job>, statusFilter: string, priorityFilter: string)
    returns (idx: seq<nat>)
    ensures SubsequenceAt(Visible(jobs, statusFilter, priorityFilter), jobs, idx)
  {
    if jobs == [] {
      idx := [];
    } else {
      var rest := Visible(jobs[1..], statusFilter, priorityFilter);
      var tail := VisibleIsSubsequence(jobs[1..], statusFilter, priorityFilter);
      var shifted := seq(|tail|, k requires 0 <= k < |tail| => tail[k] + 1);
      assert SubsequenceAt(rest, jobs, shifted) by {
        forall k | 0 <= k < |shifted| ensures shifted[k] < |jobs| && rest[k] == jobs[shifted[k]] {
          assert jobs[1..][tail[k]] == jobs[tail[k] + 1];
        }
      }
      if Shown(jobs[0], statusFilter, priorityFilter) {
        idx := [0] + shifted;
        SubsequenceCons(rest, jobs, shifted);
        assert Visible(jobs, statusFilter, priorityFilter) == [jobs[0]] + rest;
      } else {
        idx := shifted;
        assert Visible(jobs, statusFilter, priorityFilter) == rest;
      }
    }
  }

  /** A job is displayed exactly when it is loaded and passes both filters. */
  lemma {:induction false} VisibleMembership(jobs: seq<Job>, statusFilter: string, priorityFilter: string, j: Job)
    ensures j in Visible(jobs, statusFilter, priorityFilter) <==> j in jobs && Shown(j, statusFilter, priorityFilter)
  {
    if jobs != [] {
      VisibleMembership(jobs[1..], statusFilter, priorityFilter, j);
      assert jobs == [jobs[0]] + jobs[1..];
    }
  }

  /** Every displayed job has the chosen status and the chosen priority,
      for each filter that is not "All". */
  lemma {:induction false} VisibleMatchesFilters(jobs: seq<Job>, statusFilter: string, priorityFilter: string)
    ensures forall j :: j in Visible(jobs, statusFilter, priorityFilter) ==>
      && (statusFilter != All ==> j.status == statusFilter)
      && (priorityFilter != All ==> j.priority == Some(priorityFilter))
  {
    forall j | j in Visible(jobs, statusFilter, priorityFilter)
      ensures statusFilter != All ==> j.status == statusFilter
      ensures priorityFilter != All ==> j.priority == Some(priorityFilter)
    {
      VisibleMembership(jobs, statusFilter, priorityFilter, j);
    }
  }

  /** An empty table means that no loaded job passes the filters. */
  lemma {:induction false} VisibleEmpty(jobs: seq<Job>, statusFilter: string, priorityFilter: string)
    ensures Visible(jobs, statusFilter, priorityFilter) == [] <==>
      forall j :: j in jobs ==> !Shown(j, statusFilter, priorityFilter)
  {
    var shown := Visible(jobs, statusFilter, priorityFilter);
    if shown != [] {
      VisibleMembership(jobs, statusFilter, priorityFilter, shown[0]);
    }
    forall j | j in jobs && Shown(j, statusFilter, priorityFilter) ensures j in shown {
      VisibleMembership(jobs, statusFilter, priorityFilter, j);
    }
  }

  /** The characters String.prototype.trim removes: the ECMAScript
      WhiteSpace code points (tab, vertical tab, form feed, no-break space,
      byte order mark and every space separator) and the LineTerminator code
      points. */
  const JsWhitespace: set<char> := {
    '\t', '\n', '\U{B}', '\U{C}', '\r', ' ', '\U{A0}', '\U{1680}',
    '\U{2000}', '\U{2001}', '\U{2002}', '\U{2003}', '\U{2004}', '\U{2005}',
    '\U{2006}', '\U{2007}', '\U{2008}', '\U{2009}', '\U{200A}',
    '\U{2028}', '\U{2029}', '\U{202F}', '\U{205F}', '\U{3000}', '\U{FEFF}'
  }

  predicate IsJsWhitespace(c: char) {
    c in JsWhitespace
  }

  /** The text consists of whitespace only (the empty text included). */
  predicate IsBlank(s: string) {
    forall i :: 0 <= i < |s| ==> IsJsWhitespace(s[i])
  }

  /** The number of whitespace characters `s` starts with. */
  function LeadingWhitespace(s: string): (n: nat)
    ensures n <= |s|
    ensures forall i :: 0 <= i < n ==> IsJsWhitespace(s[i])
    ensures n < |s| ==> !IsJsWhitespace(s[n])
  {
    if s != [] && IsJsWhitespace(s[0]) then 1 + LeadingWhitespace(s[1..]) else 0
  }

  /** The number of whitespace characters `s` ends with. */
  function TrailingWhitespace(s: string): (n: nat)
    ensures n <= |s|
    ensures forall i :: |s| - n <= i < |s| ==> IsJsWhitespace(s[i])
    ensures n < |s| ==> !IsJsWhitespace(s[|s| - n - 1])
  {
    if s != [] && IsJsWhitespace(s[|s| - 1]) then 1 + TrailingWhitespace(s[..|s| - 1]) else 0
  }

  /** String.prototype.trim: the result is empty exactly when the text is
      blank, and otherwise starts and ends with a non-whitespace character. */
  function Trim(s: string): (r: string)
    ensures exists a, b :: 0 <= a <= b <= |s| && r == s[a..b] && IsBlank(s[..a]) && IsBlank(s[b..])
    ensures r == [] <==> IsBlank(s)
    ensures r != [] ==> !IsJsWhitespace(r[0]) && !IsJsWhitespace(r[|r| - 1])
  {
    var lead := LeadingWhitespace(s);
    var front := s[lead..];
    var trail := TrailingWhitespace(front);
    assert lead < |s| ==> trail < |front|;
    var b := lead + |front| - trail;
    assert front[..|front| - trail] == s[lead..b];
    assert IsBlank(s[..lead]) by {
      forall i | 0 <= i < lead ensures IsJsWhitespace(s[..lead][i]) {
        assert s[..lead][i] == s[i];
      }
    }
    assert IsBlank(s[b..]) by {
      forall i | 0 <= i < |s| - b ensures IsJsWhitespace(s[b..][i]) {
        assert s[b..][i] == front[|front| - trail + i];
      }
    }
    front[..|front| - trail]
  }

  /** What a click on "Create" led to. */
  datatype CreateOutcome =
    | InvalidPayload        // the payload text is not JSON; nothing is sent
    | MissingTaskName       // the task name is blank; nothing is sent
    | Created(id: int)      // the job was stored under `id`
    | CreateFailed          // the service refused the insert

  /** The component's state: the loaded jobs, the create form and the two
      filters. */
  class App {
    const codec: Codec
    var jobs: seq<Job>
    var taskName: string
    var payload: string
    var priority: string
    var statusFilter: string
    var priorityFilter: string

    constructor (codec: Codec)
      ensures this.codec == codec && jobs == []
      ensures taskName == "" && payload == "{}" && priority == "Low"
      ensures statusFilter == All && priorityFilter == All
    {
      this.codec := codec;
      jobs := [];
      taskName := "";
      payload := "{}";
      priority := "Low";
      statusFilter := All;
      priorityFilter := All;
    }

    /** load: replace the loaded list by the service's listing. */
    method Load(api: JobStore)
      requires api.Valid()
      modifies this`jobs
      ensures IsListing(jobs, api.jobs) && |jobs| == |api.jobs|
    {
      jobs := api.List();
    }

    /** createJob: check that the payload parses, then that the task name is
        not blank, then submit; after a stored job reset the task name and
        the payload (the priority stays) and reload. */
    method CreateJob(api: JobStore, now: Timestamp) returns (outcome: CreateOutcome)
      requires api.Valid()
      modifies this`jobs, this`taskName, this`payload, api
      ensures api.Valid()
      ensures outcome == InvalidPayload <==> !codec.IsValidJson(old(payload))
      ensures outcome == MissingTaskName <==> codec.IsValidJson(old(payload)) && IsBlank(old(taskName))
      ensures outcome.Created? <==>
        codec.IsValidJson(old(payload)) && !IsBlank(old(taskName)) && old(api.nextId) <= MaxRowId
      ensures !outcome.Created? ==>
        && jobs == old(jobs) && taskName == old(taskName) && payload == old(payload)
        && api.jobs == old(api.jobs) && api.nextId == old(api.nextId)
        && api.outbox == old(api.outbox) && api.requested == old(api.requested)
      ensures outcome.Created? ==>
        && outcome.id == old(api.nextId)
        && api.jobs == old(api.jobs)[outcome.id := Job(outcome.id, Some(old(taskName)),
             Serialize(api.codec, codec.decode(old(payload))), Some(old(priority)), Pending, now, now)]
        && api.nextId == outcome.id + 1
        && api.outbox == old(api.outbox)
        && api.requested == old(api.requested)[outcome.id := codec.decode(old(payload))]
        && taskName == "" && payload == "{}"
        && IsListing(jobs, api.jobs) && |jobs| == |api.jobs|
    {
      var parsed := codec.decode(payload);
      if parsed.None? {
        return InvalidPayload;
      }
      if Trim(taskName) == "" {
        return MissingTaskName;
      }
      var r := api.Create(Some(taskName), Some(parsed.value), Some(priority), now);
      if r.Err? {
        return CreateFailed;
      }
      taskName := "";
      payload := "{}";
      Load(api);
      outcome := Created(r.value);
    }

    /** runJob: ask the service to run the job, then reload. */
    method RunJob(api: JobStore, id: int, now: Timestamp)
      requires api.Valid()
      modifies this`jobs, api
      ensures api.Valid()
      ensures api.jobs == Update(old(api.jobs), id, Running, now)
      ensures api.nextId == old(api.nextId) && api.outbox == old(api.outbox) && api.requested == old(api.requested)
      ensures IsListing(jobs, api.jobs) && |jobs| == |api.jobs|
    {
      var _ := api.RunStart(id, now);
      Load(api);
    }
  }
}
