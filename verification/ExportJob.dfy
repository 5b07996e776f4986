/**
  The asynchronous analytics export
  (analytics-reporting-service/src/analytics/analytics-export.service.ts), as a transition
  system over everything that can interleave: request transactions, background generations
  and crashes of the process.

  A request is split where other requests can run: between its look-up of the idempotency
  key and its INSERT, which the unique index guards, and between the commit and the start
  of the generation.
 */
module ExportJob {
  import opened Basics

  datatype Status = Pending | Completed | Failed

  datatype Row = Row(tenant: string, requestedBy: string, key: Option<string>, status: Status, fileUri: Option<string>)

  /** A request in flight: looked up and not found, or inserted and committed. */
  datatype Request =
    | LookedUp(tenant: string, actor: string, key: Option<string>)
    | Inserted(id: string)

  /** A generation in flight: before the upload, or after it. */
  datatype Task = Generating(id: string) | Uploaded(id: string, uri: string)

  datatype State = State(
    rows: map<string, Row>, requests: seq<Request>, tasks: seq<Task>,
    files: set<string>, started: seq<string>, disturbed: bool)

  function Initial(): State {
    State(map[], [], [], {}, [], false)
  }

  /** The row of a tenant's idempotency key. */
  ghost predicate HasKey(rows: map<string, Row>, id: string, tenant: string, key: string) {
    id in rows && rows[id].tenant == tenant && rows[id].key == Some(key)
  }

  ghost predicate KeyTaken(rows: map<string, Row>, tenant: string, key: Option<string>) {
    key.Some? && exists id :: HasKey(rows, id, tenant, key.value)
  }

  /** `if (input.idempotencyKey)`: an empty key is not looked up. */
  predicate IsLookedUp(key: Option<string>) {
    key.Some? && key.value != ""
  }

  function FileUri(tenant: string, id: string): string {
    tenant + "/" + id + ".csv"
  }

  // ----- The steps -----

  /** The look-up half of `requestExport`: a row found is returned and nothing else happens. */
  ghost function AfterLookUp(s: State, tenant: string, actor: string, key: Option<string>): State {
    if IsLookedUp(key) && KeyTaken(s.rows, tenant, key) then s
    else s.(requests := s.requests + [LookedUp(tenant, actor, key)])
  }

  /** The INSERT: the unique index on (tenant, key) aborts the request if the key is taken by now. */
  ghost function AfterInsert(s: State, i: nat, id: string): State
    requires i < |s.requests| && s.requests[i].LookedUp?
  {
    var r := s.requests[i];
    if KeyTaken(s.rows, r.tenant, r.key) then s.(requests := Without(s.requests, i))
    else
      s.(rows := s.rows[id := Row(r.tenant, r.actor, r.key, Pending, None)],
         requests := s.requests[i := Inserted(id)])
  }

  /** `void this.generate(...)`, for a new row only. */
  function AfterLaunch(s: State, i: nat): State
    requires i < |s.requests| && s.requests[i].Inserted?
  {
    var id := s.requests[i].id;
    s.(requests := Without(s.requests, i), tasks := s.tasks + [Generating(id)], started := s.started + [id])
  }

  function AfterUpload(s: State, i: nat): State
    requires i < |s.tasks| && s.tasks[i].Generating? && s.tasks[i].id in s.rows
  {
    var id := s.tasks[i].id;
    var uri := FileUri(s.rows[id].tenant, id);
    s.(files := s.files + {uri}, tasks := s.tasks[i := Uploaded(id, uri)])
  }

  function AfterComplete(s: State, i: nat): State
    requires i < |s.tasks| && s.tasks[i].Uploaded? && s.tasks[i].id in s.rows
  {
    var Uploaded(id, uri) := s.tasks[i];
    s.(rows := s.rows[id := s.rows[id].(status := Completed, fileUri := Some(uri))], tasks := Without(s.tasks, i))
  }

  /** Any error of the generation, the final update included. */
  function AfterFail(s: State, i: nat): State
    requires i < |s.tasks| && s.tasks[i].id in s.rows
  {
    var id := s.tasks[i].id;
    s.(rows := s.rows[id := s.rows[id].(status := Failed)], tasks := Without(s.tasks, i))
  }

  /** Not even the failure could be recorded. */
  function AfterLostFailure(s: State, i: nat): State
    requires i < |s.tasks|
  {
    s.(tasks := Without(s.tasks, i), disturbed := true)
  }

  function AfterCrash(s: State): State {
    s.(requests := [], tasks := [], disturbed := true)
  }

  datatype Event =
    | LookUp(tenant: string, actor: string, key: Option<string>)
    | Insert(i: nat, id: string)
    | Launch(i: nat)
    | Upload(i: nat)
    | Complete(i: nat)
    | Fail(i: nat)
    | LoseFailure(i: nat)
    | Crash

  predicate Enabled(s: State, e: Event) {
    match e
    case LookUp(_, _, _) => true
    case Insert(i, id) => i < |s.requests| && s.requests[i].LookedUp? && id !in s.rows
    case Launch(i) => i < |s.requests| && s.requests[i].Inserted?
    case Upload(i) => i < |s.tasks| && s.tasks[i].Generating? && s.tasks[i].id in s.rows
    case Complete(i) => i < |s.tasks| && s.tasks[i].Uploaded? && s.tasks[i].id in s.rows
    case Fail(i) => i < |s.tasks| && s.tasks[i].id in s.rows
    case LoseFailure(i) => i < |s.tasks|
    case Crash => true
  }

  ghost function Step(s: State, e: Event): State
    requires Enabled(s, e)
  {
    match e
    case LookUp(tenant, actor, key) => AfterLookUp(s, tenant, actor, key)
    case Insert(i, id) => AfterInsert(s, i, id)
    case Launch(i) => AfterLaunch(s, i)
    case Upload(i) => AfterUpload(s, i)
    case Complete(i) => AfterComplete(s, i)
    case Fail(i) => AfterFail(s, i)
    case LoseFailure(i) => AfterLostFailure(s, i)
    case Crash => AfterCrash(s)
  }

  ghost predicate IsRun(states: seq<State>, events: seq<Event>) {
    && |states| == |events| + 1
    && states[0] == Initial()
    && forall i {:trigger events[i]} :: 0 <= i < |events| ==>
         Enabled(states[i], events[i]) && states[i + 1] == Step(states[i], events[i])
  }

  // ----- The service: the code between two suspension points -----

  class ExportService {
    var rows: map<string, Row>
    var requests: seq<Request>
    var tasks: seq<Task>
    var files: set<string>
    var started: seq<string>
    ghost var disturbed: bool

    ghost function Snapshot(): State
      reads this
    {
      State(rows, requests, tasks, files, started, disturbed)
    }

    constructor ()
      ensures Snapshot() == Initial()
    {
      rows, requests, tasks, files, started, disturbed := map[], [], [], {}, [], false;
    }

    function RowsOfKey(tenant: string, key: Option<string>): (ids: set<string>)
      reads this
      ensures key.Some? ==> (ids != {} <==> KeyTaken(rows, tenant, key))
    {
      var ids := set id | id in rows && rows[id].tenant == tenant && rows[id].key == key;
      assert key.Some? ==> forall id :: id in ids <==> HasKey(rows, id, tenant, key.value);
      ids
    }

    method LookUpKey(tenant: string, actor: string, key: Option<string>) returns (existing: Option<Row>)
      modifies this
      ensures Snapshot() == AfterLookUp(old(Snapshot()), tenant, actor, key)
      ensures existing.Some? <==> IsLookedUp(key) && KeyTaken(old(rows), tenant, key)
      ensures existing.Some? ==>
                exists id :: HasKey(old(rows), id, tenant, key.value) && existing.value == old(rows)[id]
    {
      if key.Some? && key.value != "" {
        var ids := RowsOfKey(tenant, key);
        if ids != {} {
          var id :| id in ids;
          return Some(rows[id]);
        }
      }
      requests := requests + [LookedUp(tenant, actor, key)];
      return None;
    }

    method InsertRow(i: nat, id: string) returns (inserted: bool)
      requires i < |requests| && requests[i].LookedUp? && id !in rows
      modifies this
      ensures Snapshot() == AfterInsert(old(Snapshot()), i, id)
      ensures inserted <==> !KeyTaken(old(rows), old(requests)[i].tenant, old(requests)[i].key)
    {
      var r := requests[i];
      if r.key.Some? && RowsOfKey(r.tenant, r.key) != {} {
        requests := Without(requests, i);
        return false;
      }
      rows := rows[id := Row(r.tenant, r.actor, r.key, Pending, None)];
      requests := requests[i := Inserted(id)];
      return true;
    }

    method StartGeneration(i: nat)
      requires i < |requests| && requests[i].Inserted?
      modifies this
      ensures Snapshot() == AfterLaunch(old(Snapshot()), i)
    {
      var id := requests[i].id;
      requests := Without(requests, i);
      started := started + [id];
      tasks := tasks + [Generating(id)];
    }

    method UploadFile(i: nat)
      requires i < |tasks| && tasks[i].Generating? && tasks[i].id in rows
      modifies this
      ensures Snapshot() == AfterUpload(old(Snapshot()), i)
    {
      var id := tasks[i].id;
      var uri := rows[id].tenant + "/" + id + ".csv";
      files := files + {uri};
      tasks := tasks[i := Uploaded(id, uri)];
    }

    method CompleteRow(i: nat)
      requires i < |tasks| && tasks[i].Uploaded? && tasks[i].id in rows
      modifies this
      ensures Snapshot() == AfterComplete(old(Snapshot()), i)
    {
      var Uploaded(id, uri) := tasks[i];
      rows := rows[id := rows[id].(status := Completed, fileUri := Some(uri))];
      tasks := Without(tasks, i);
    }

    method FailRow(i: nat)
      requires i < |tasks| && tasks[i].id in rows
      modifies this
      ensures Snapshot() == AfterFail(old(Snapshot()), i)
    {
      var id := tasks[i].id;
      rows := rows[id := rows[id].(status := Failed)];
      tasks := Without(tasks, i);
    }
  }

  // ----- The invariant -----

  /** At most one row for each tenant's idempotency key. */
  ghost predicate KeysAreUnique(rows: map<string, Row>) {
    forall a, b ::
      (a in rows && b in rows && rows[a].key.Some? && rows[a].key == rows[b].key && rows[a].tenant == rows[b].tenant)
      ==> a == b
  }

  ghost predicate StartedOnce(started: seq<string>) {
    forall i, j :: 0 <= i < j < |started| ==> started[i] != started[j]
  }

  /** A committed row whose generation is yet to start. */
  ghost predicate AwaitsLaunch(s: State, id: string) {
    exists i :: 0 <= i < |s.requests| && s.requests[i] == Inserted(id)
  }

  ghost predicate HasTask(s: State, id: string) {
    exists i :: 0 <= i < |s.tasks| && s.tasks[i].id == id
  }

  ghost predicate RequestsInv(s: State) {
    && (forall i :: 0 <= i < |s.requests| && s.requests[i].Inserted? ==>
          s.requests[i].id in s.rows && s.requests[i].id !in s.started && s.rows[s.requests[i].id].status == Pending)
    && (forall i, j :: 0 <= i < j < |s.requests| && s.requests[i].Inserted? && s.requests[j].Inserted? ==>
          s.requests[i].id != s.requests[j].id)
  }

  ghost predicate TasksInv(s: State) {
    && (forall i :: 0 <= i < |s.tasks| ==>
          && s.tasks[i].id in s.rows && s.tasks[i].id in s.started && s.rows[s.tasks[i].id].status == Pending
          && (s.tasks[i].Uploaded? ==> s.tasks[i].uri in s.files))
    && (forall i, j :: 0 <= i < j < |s.tasks| ==> s.tasks[i].id != s.tasks[j].id)
  }

  ghost predicate RowsInv(s: State) {
    && KeysAreUnique(s.rows)
    && StartedOnce(s.started)
    && (forall id :: id in s.started ==> id in s.rows)
    && (forall id :: id in s.rows && s.rows[id].status == Completed ==>
         s.rows[id].fileUri.Some? && s.rows[id].fileUri.value in s.files)
  }

  /** Unless something went wrong, every pending row is being worked on. */
  ghost predicate PendingInHand(s: State) {
    !s.disturbed ==> forall id :: id in s.rows && s.rows[id].status == Pending ==> AwaitsLaunch(s, id) || HasTask(s, id)
  }

  ghost predicate Consistent(s: State) {
    RequestsInv(s) && TasksInv(s) && RowsInv(s)
  }

  ghost predicate Inv(s: State) {
    Consistent(s) && PendingInHand(s)
  }

  // ----- Every step keeps it -----

  lemma RequestSurvives(s: State, requests: seq<Request>, i: nat, id: string)
    requires i < |s.requests| && s.requests[i] != Inserted(id) && AwaitsLaunch(s, id)
    requires || requests == Without(s.requests, i)
             || (&& |requests| == |s.requests|
                 && forall k :: 0 <= k < |requests| && k != i ==> requests[k] == s.requests[k])
    ensures AwaitsLaunch(s.(requests := requests), id)
  {
    var k :| 0 <= k < |s.requests| && s.requests[k] == Inserted(id);
    var k' := if requests == Without(s.requests, i) && k > i then k - 1 else k;
    assert requests[k'] == Inserted(id);
  }

  lemma TaskSurvives(s: State, i: nat, id: string)
    requires i < |s.tasks| && s.tasks[i].id != id && HasTask(s, id)
    ensures HasTask(s.(tasks := Without(s.tasks, i)), id)
  {
    var k :| 0 <= k < |s.tasks| && s.tasks[k].id == id;
    assert Without(s.tasks, i)[if k > i then k - 1 else k].id == id;
  }

  lemma LookUpKeeps(s: State, tenant: string, actor: string, key: Option<string>)
    requires Inv(s)
    ensures Inv(AfterLookUp(s, tenant, actor, key))
  {
    var t := AfterLookUp(s, tenant, actor, key);
    forall id | !t.disturbed && id in t.rows && t.rows[id].status == Pending
      ensures AwaitsLaunch(t, id) || HasTask(t, id)
    {
      if AwaitsLaunch(s, id) {
        var k :| 0 <= k < |s.requests| && s.requests[k] == Inserted(id);
        assert t.requests[k] == Inserted(id);
      } else {
        var k :| 0 <= k < |s.tasks| && s.tasks[k].id == id;
        assert t.tasks[k].id == id;
      }
    }
  }

  lemma InsertKeeps(s: State, i: nat, id: string)
    requires Inv(s) && i < |s.requests| && s.requests[i].LookedUp? && id !in s.rows
    ensures Consistent(AfterInsert(s, i, id))
  {
    var r := s.requests[i];
    if !KeyTaken(s.rows, r.tenant, r.key) {
      forall other | other in s.rows && r.key.Some?
        ensures !(s.rows[other].key == r.key && s.rows[other].tenant == r.tenant)
      {
        assert !HasKey(s.rows, other, r.tenant, r.key.value);
      }
    }
  }

  lemma InsertInHand(s: State, i: nat, id: string)
    requires Inv(s) && i < |s.requests| && s.requests[i].LookedUp? && id !in s.rows
    ensures PendingInHand(AfterInsert(s, i, id))
  {
    var t := AfterInsert(s, i, id);
    forall p | !t.disturbed && p in t.rows && t.rows[p].status == Pending
      ensures AwaitsLaunch(t, p) || HasTask(t, p)
    {
      if p == id {
        assert t.requests[i] == Inserted(id);
      } else if AwaitsLaunch(s, p) {
        RequestSurvives(s, t.requests, i, p);
        var k :| 0 <= k < |t.requests| && t.requests[k] == Inserted(p);
      } else {
        var k :| 0 <= k < |s.tasks| && s.tasks[k].id == p;
        assert t.tasks[k].id == p;
      }
    }
  }

  lemma LaunchKeeps(s: State, i: nat)
    requires Inv(s) && i < |s.requests| && s.requests[i].Inserted?
    ensures Consistent(AfterLaunch(s, i))
  {
    var id, t := s.requests[i].id, AfterLaunch(s, i);
    assert TasksInv(t);
    assert RequestsInv(t);
  }

  lemma LaunchInHand(s: State, i: nat)
    requires Inv(s) && i < |s.requests| && s.requests[i].Inserted?
    ensures PendingInHand(AfterLaunch(s, i))
  {
    var id, t := s.requests[i].id, AfterLaunch(s, i);
    forall p | !t.disturbed && p in t.rows && t.rows[p].status == Pending
      ensures AwaitsLaunch(t, p) || HasTask(t, p)
    {
      if p == id {
        assert t.tasks[|s.tasks|].id == id;
      } else if AwaitsLaunch(s, p) {
        RequestSurvives(s, t.requests, i, p);
        var k :| 0 <= k < |t.requests| && t.requests[k] == Inserted(p);
      } else {
        var k :| 0 <= k < |s.tasks| && s.tasks[k].id == p;
        assert t.tasks[k].id == p;
      }
    }
  }

  lemma UploadKeeps(s: State, i: nat)
    requires Inv(s) && i < |s.tasks| && s.tasks[i].Generating? && s.tasks[i].id in s.rows
    ensures Consistent(AfterUpload(s, i))
  {
  }

  lemma UploadInHand(s: State, i: nat)
    requires Inv(s) && i < |s.tasks| && s.tasks[i].Generating? && s.tasks[i].id in s.rows
    ensures PendingInHand(AfterUpload(s, i))
  {
    var t := AfterUpload(s, i);
    forall p | !t.disturbed && p in t.rows && t.rows[p].status == Pending
      ensures AwaitsLaunch(t, p) || HasTask(t, p)
    {
      if AwaitsLaunch(s, p) {
        var k :| 0 <= k < |s.requests| && s.requests[k] == Inserted(p);
        assert t.requests[k] == Inserted(p);
      } else {
        var k :| 0 <= k < |s.tasks| && s.tasks[k].id == p;
        assert t.tasks[k].id == p;
      }
    }
  }

  /** A generation that ends by deciding its row. */
  lemma DecidingKeeps(s: State, i: nat, row: Row)
    requires Inv(s) && i < |s.tasks|
    requires var was := s.rows[s.tasks[i].id]; row.tenant == was.tenant && row.key == was.key && row.status != Pending
    requires row.status == Completed ==> row.fileUri.Some? && row.fileUri.value in s.files
    ensures Inv(s.(rows := s.rows[s.tasks[i].id := row], tasks := Without(s.tasks, i)))
  {
    var id := s.tasks[i].id;
    var t := s.(rows := s.rows[id := row], tasks := Without(s.tasks, i));
    forall p | !t.disturbed && p in t.rows && t.rows[p].status == Pending
      ensures AwaitsLaunch(t, p) || HasTask(t, p)
    {
      if AwaitsLaunch(s, p) {
        var k :| 0 <= k < |s.requests| && s.requests[k] == Inserted(p);
        assert t.requests[k] == Inserted(p);
      } else {
        TaskSurvives(s, i, p);
        var k :| 0 <= k < |t.tasks| && t.tasks[k].id == p;
      }
    }
  }

  lemma StepKeeps(s: State, e: Event)
    requires Inv(s) && Enabled(s, e)
    ensures Inv(Step(s, e))
  {
    match e {
      case LookUp(tenant, actor, key) => LookUpKeeps(s, tenant, actor, key);
      case Insert(i, id) => InsertKeeps(s, i, id); InsertInHand(s, i, id);
      case Launch(i) => LaunchKeeps(s, i); LaunchInHand(s, i);
      case Upload(i) => UploadKeeps(s, i); UploadInHand(s, i);
      case Complete(i) =>
        DecidingKeeps(s, i, s.rows[s.tasks[i].id].(status := Completed, fileUri := Some(s.tasks[i].uri)));
      case Fail(i) => DecidingKeeps(s, i, s.rows[s.tasks[i].id].(status := Failed));
      case _ =>
    }
  }

  lemma {:induction false} RunKeeps(states: seq<State>, events: seq<Event>, n: nat)
    requires IsRun(states, events) && n <= |events|
    ensures Inv(states[n])
  {
    if n > 0 {
      RunKeeps(states, events, n - 1);
      StepKeeps(states[n - 1], events[n - 1]);
    }
  }

  // ----- Theorems -----

  /**
    In every interleaving of requests, generations and crashes, a tenant's idempotency key
    has at most one row and no row's generation is started twice.
   */
  lemma IdempotencyHolds(states: seq<State>, events: seq<Event>, n: nat)
    requires IsRun(states, events) && n <= |events|
    ensures KeysAreUnique(states[n].rows)
    ensures StartedOnce(states[n].started)
  {
    RunKeeps(states, events, n);
  }

  /** A row is stuck at pending only if the process crashed or a failure could not be recorded. */
  lemma PendingRowsAreInHand(states: seq<State>, events: seq<Event>, n: nat, id: string)
    requires IsRun(states, events) && n <= |events|
    requires id in states[n].rows && states[n].rows[id].status == Pending
    requires forall j :: 0 <= j < n ==> !events[j].Crash? && !events[j].LoseFailure?
    ensures AwaitsLaunch(states[n], id) || HasTask(states[n], id)
  {
    RunKeeps(states, events, n);
    DisturbedByEvents(states, events, n);
  }

  lemma {:induction false} DisturbedByEvents(states: seq<State>, events: seq<Event>, n: nat)
    requires IsRun(states, events) && n <= |events|
    ensures states[n].disturbed <==> exists j :: 0 <= j < n && (events[j].Crash? || events[j].LoseFailure?)
  {
    if n > 0 {
      DisturbedByEvents(states, events, n - 1);
      StepDisturbs(states[n - 1], events[n - 1]);
    }
  }

  lemma StepDisturbs(s: State, e: Event)
    requires Enabled(s, e)
    ensures Step(s, e).disturbed <==> s.disturbed || e.Crash? || e.LoseFailure?
  {
  }

  /** What a request is for: with a key or without, it can be looked up, inserted, generated, stored and downloaded. */
  lemma ExportIsServed(tenant: string, actor: string, key: Option<string>, id: string) returns (states: seq<State>)
    ensures IsRun(states, [LookUp(tenant, actor, key), Insert(0, id), Launch(0), Upload(0), Complete(0)])
    ensures GetDownloadUrl(states[5], tenant, actor, id) == Url(tenant + "/" + id + ".csv")
  {
    var s1 := Step(Initial(), LookUp(tenant, actor, key));
    var s2 := Step(s1, Insert(0, id));
    var s3 := Step(s2, Launch(0));
    var s4 := Step(s3, Upload(0));
    states := [Initial(), s1, s2, s3, s4, Step(s4, Complete(0))];
  }

  /** What a step makes of a row's status: only the end of its own generation decides it, and says how it ended. */
  lemma OutcomeIsRecorded(s: State, e: Event, id: string)
    requires Inv(s) && Enabled(s, e)
    ensures id in s.rows ==>
              && id in Step(s, e).rows
              && Step(s, e).rows[id].status ==
                 if e.Complete? && s.tasks[e.i].id == id then Completed
                 else if e.Fail? && s.tasks[e.i].id == id then Failed
                 else s.rows[id].status
    ensures id !in s.rows && id in Step(s, e).rows ==> e.Insert? && Step(s, e).rows[id].status == Pending
  {
  }

  lemma DecidedRowStays(s: State, e: Event, id: string)
    requires Inv(s) && Enabled(s, e) && id in s.rows
    ensures id in Step(s, e).rows
    ensures s.rows[id].status != Pending ==> Step(s, e).rows[id] == s.rows[id]
    ensures Step(s, e).rows[id].(status := Pending, fileUri := None) == s.rows[id].(status := Pending, fileUri := None)
  {
  }

  /** Status moves only from pending to completed or failed, and then the row never changes again. */
  lemma {:induction false} DecidedRowsAreFinal(states: seq<State>, events: seq<Event>, m: nat, n: nat, id: string)
    requires IsRun(states, events) && m <= n <= |events|
    requires id in states[m].rows && states[m].rows[id].status != Pending
    ensures id in states[n].rows && states[n].rows[id] == states[m].rows[id]
  {
    if m < n {
      DecidedRowsAreFinal(states, events, m, n - 1, id);
      RunKeeps(states, events, n - 1);
      DecidedRowStays(states[n - 1], events[n - 1], id);
    }
  }

  datatype Download = Url(uri: string) | NotFound | NotReady(status: Status)

  /** `getDownloadUrl`: for the requester's own row of the tenant, once it is completed. */
  function GetDownloadUrl(s: State, tenant: string, actor: string, id: string): Download {
    if id !in s.rows || s.rows[id].tenant != tenant || s.rows[id].requestedBy != actor then NotFound
    else
      var row := s.rows[id];
      if row.status != Completed || row.fileUri.None? || row.fileUri.value == "" then NotReady(row.status)
      else Url(row.fileUri.value)
  }

  /** Every file is named after its row: in the table, and by the generation that has stored it. */
  ghost predicate FilesAreNamed(s: State) {
    && (forall id :: id in s.rows && s.rows[id].fileUri.Some? ==>
          s.rows[id].status == Completed && s.rows[id].fileUri.value == s.rows[id].tenant + "/" + id + ".csv")
    && (forall i :: 0 <= i < |s.tasks| && s.tasks[i].Uploaded? && s.tasks[i].id in s.rows ==>
          s.tasks[i].uri == s.rows[s.tasks[i].id].tenant + "/" + s.tasks[i].id + ".csv")
  }

  lemma StepNamesFiles(s: State, e: Event)
    requires Inv(s) && Enabled(s, e) && FilesAreNamed(s)
    ensures FilesAreNamed(Step(s, e))
  {
    match e {
      case Insert(i, id) => InsertNamesFiles(s, i, id);
      case Upload(i) => UploadNamesFiles(s, i);
      case Complete(i) =>
        DecidingNamesFiles(s, i, s.rows[s.tasks[i].id].(status := Completed, fileUri := Some(s.tasks[i].uri)));
      case Fail(i) => DecidingNamesFiles(s, i, s.rows[s.tasks[i].id].(status := Failed));
      case _ =>
    }
  }

  lemma InsertNamesFiles(s: State, i: nat, id: string)
    requires Inv(s) && FilesAreNamed(s) && i < |s.requests| && s.requests[i].LookedUp? && id !in s.rows
    ensures FilesAreNamed(AfterInsert(s, i, id))
  {
  }

  lemma UploadNamesFiles(s: State, i: nat)
    requires FilesAreNamed(s) && i < |s.tasks| && s.tasks[i].Generating? && s.tasks[i].id in s.rows
    ensures FilesAreNamed(AfterUpload(s, i))
  {
  }

  lemma DecidingNamesFiles(s: State, i: nat, row: Row)
    requires FilesAreNamed(s) && i < |s.tasks| && s.tasks[i].id in s.rows
    requires row.tenant == s.rows[s.tasks[i].id].tenant
    requires row.fileUri.Some? ==>
               row.status == Completed && row.fileUri.value == row.tenant + "/" + s.tasks[i].id + ".csv"
    ensures FilesAreNamed(s.(rows := s.rows[s.tasks[i].id := row], tasks := Without(s.tasks, i)))
  {
  }

  lemma {:induction false} RunNamesFiles(states: seq<State>, events: seq<Event>, n: nat)
    requires IsRun(states, events) && n <= |events|
    ensures FilesAreNamed(states[n])
  {
    if n > 0 {
      RunNamesFiles(states, events, n - 1);
      RunKeeps(states, events, n - 1);
      StepNamesFiles(states[n - 1], events[n - 1]);
    }
  }

  lemma NamesDiffer(tenant: string, id: string, tenant': string, id': string)
    requires '/' !in id && '/' !in id' && |id| <= |id'|
    requires tenant + "/" + id + ".csv" == tenant' + "/" + id' + ".csv"
    ensures id == id' && tenant == tenant'
  {
    var name := tenant + "/" + id + ".csv";
    var k := |tenant|;
    assert name[k] == '/';
    assert forall i :: 0 <= i < |id'| ==> name[|tenant'| + 1 + i] == id'[i] && id'[i] in id';
    assert k == |tenant'|;
    assert name[..k] == tenant && name[..k] == tenant';
    assert name[k + 1..k + 1 + |id|] == id && name[k + 1..k + 1 + |id'|] == id';
  }

  /** In every run, rows whose ids hold no slash, as UUIDs do not, never share a file. */
  lemma FilesAreApart(states: seq<State>, events: seq<Event>, n: nat, id: string, id': string)
    requires IsRun(states, events) && n <= |events| && id != id' && '/' !in id && '/' !in id'
    requires id in states[n].rows && states[n].rows[id].fileUri.Some?
    requires id' in states[n].rows && states[n].rows[id'].fileUri.Some?
    ensures states[n].rows[id].fileUri != states[n].rows[id'].fileUri
  {
    RunNamesFiles(states, events, n);
    if states[n].rows[id].fileUri == states[n].rows[id'].fileUri {
      if |id| <= |id'| {
        NamesDiffer(states[n].rows[id].tenant, id, states[n].rows[id'].tenant, id');
      } else {
        NamesDiffer(states[n].rows[id'].tenant, id', states[n].rows[id].tenant, id);
      }
    }
  }

  /** In every run a row is completed only with a stored file of its name, and a failed or pending row has none. */
  lemma CompletedRowsHaveFiles(states: seq<State>, events: seq<Event>, n: nat, id: string)
    requires IsRun(states, events) && n <= |events| && id in states[n].rows
    ensures var row := states[n].rows[id];
            if row.status == Completed
            then row.fileUri == Some(row.tenant + "/" + id + ".csv") && row.fileUri.value in states[n].files
            else row.fileUri == None
  {
    RunKeeps(states, events, n);
    RunNamesFiles(states, events, n);
  }

  /** A URL handed out always leads to a stored file, that of a completed export of the same requester. */
  lemma UrlsLeadToFiles(states: seq<State>, events: seq<Event>, n: nat, tenant: string, actor: string, id: string)
    requires IsRun(states, events) && n <= |events| && GetDownloadUrl(states[n], tenant, actor, id).Url?
    ensures var uri := GetDownloadUrl(states[n], tenant, actor, id).uri;
            && uri in states[n].files && uri == tenant + "/" + id + ".csv"
            && id in states[n].rows && states[n].rows[id].status == Completed
            && states[n].rows[id].tenant == tenant && states[n].rows[id].requestedBy == actor
  {
    RunNamesFiles(states, events, n);
    RunKeeps(states, events, n);
  }

  // ----- What becomes of a retry -----

  /** The INSERT that gives a tenant's key its row. */
  ghost predicate Commits(s: State, e: Event, tenant: string, key: Option<string>) {
    && e.Insert? && Enabled(s, e) && key.Some?
    && s.requests[e.i].tenant == tenant && s.requests[e.i].key == key
    && !KeyTaken(s.rows, tenant, key)
  }

  /** Where the request now at index `i`, which event `e` did not add, was before it. */
  ghost function IndexBefore(s: State, e: Event, i: nat): nat
    requires Enabled(s, e)
  {
    if (e.Launch? || e.Insert?) && |Step(s, e).requests| < |s.requests| && i >= e.i then i + 1 else i
  }

  /** The event that looked up the key of the request that is at index `i` after `n` events. */
  ghost function LookedUpAt(states: seq<State>, events: seq<Event>, n: nat, i: nat): (m: nat)
    requires IsRun(states, events) && n <= |events|
    requires i < |states[n].requests| && states[n].requests[i].LookedUp?
    ensures m < n
    ensures var r := states[n].requests[i];
            && events[m] == LookUp(r.tenant, r.actor, r.key)
            && !(IsLookedUp(r.key) && KeyTaken(states[m].rows, r.tenant, r.key))
  {
    var s, e := states[n - 1], events[n - 1];
    if e.LookUp? && i == |s.requests| then n - 1 else LookedUpAt(states, events, n - 1, IndexBefore(s, e, i))
  }

  lemma KeyStep(s: State, e: Event, tenant: string, key: Option<string>)
    requires Inv(s) && Enabled(s, e)
    ensures KeyTaken(Step(s, e).rows, tenant, key) <==> KeyTaken(s.rows, tenant, key) || Commits(s, e, tenant, key)
  {
    var t := Step(s, e);
    if key.Some? {
      forall id | HasKey(s.rows, id, tenant, key.value)
        ensures HasKey(t.rows, id, tenant, key.value)
      {
        DecidedRowStays(s, e, id);
      }
      if Commits(s, e, tenant, key) {
        assert HasKey(t.rows, e.id, tenant, key.value);
      } else if KeyTaken(t.rows, tenant, key) {
        var id :| HasKey(t.rows, id, tenant, key.value);
        if id in s.rows {
          DecidedRowStays(s, e, id);
        }
        assert HasKey(s.rows, id, tenant, key.value);
      }
    }
  }

  ghost predicate CommitsAt(states: seq<State>, events: seq<Event>, j: nat, tenant: string, key: Option<string>)
    requires IsRun(states, events)
  {
    j < |events| && Commits(states[j], events[j], tenant, key)
  }

  /** Once taken a key stays taken. */
  lemma {:induction false} TakenStays(
    states: seq<State>, events: seq<Event>, m: nat, n: nat, tenant: string, key: Option<string>)
    requires IsRun(states, events) && m <= n <= |events| && KeyTaken(states[m].rows, tenant, key)
    ensures KeyTaken(states[n].rows, tenant, key)
  {
    if m < n {
      TakenStays(states, events, m, n - 1, tenant, key);
      KeyRunStep(states, events, n - 1, tenant, key);
    }
  }

  /** A key taken in between was committed in between. */
  lemma {:induction false} TakenWasCommitted(
    states: seq<State>, events: seq<Event>, m: nat, n: nat, tenant: string, key: Option<string>) returns (j: nat)
    requires IsRun(states, events) && m <= n <= |events|
    requires !KeyTaken(states[m].rows, tenant, key) && KeyTaken(states[n].rows, tenant, key)
    ensures m <= j < n && CommitsAt(states, events, j, tenant, key)
  {
    KeyRunStep(states, events, n - 1, tenant, key);
    if KeyTaken(states[n - 1].rows, tenant, key) {
      j := TakenWasCommitted(states, events, m, n - 1, tenant, key);
    } else {
      j := n - 1;
    }
  }

  /** A key committed is taken from then on. */
  lemma CommittedIsTaken(
    states: seq<State>, events: seq<Event>, j: nat, n: nat, tenant: string, key: Option<string>)
    requires IsRun(states, events) && j < n <= |events| && CommitsAt(states, events, j, tenant, key)
    ensures KeyTaken(states[n].rows, tenant, key)
  {
    KeyRunStep(states, events, j, tenant, key);
    TakenStays(states, events, j + 1, n, tenant, key);
  }

  lemma KeyRunStep(states: seq<State>, events: seq<Event>, n: nat, tenant: string, key: Option<string>)
    requires IsRun(states, events) && n < |events|
    ensures KeyTaken(states[n + 1].rows, tenant, key)
            <==> KeyTaken(states[n].rows, tenant, key) || Commits(states[n], events[n], tenant, key)
  {
    RunKeeps(states, events, n);
    KeyStep(states[n], events[n], tenant, key);
  }

  ghost predicate CommittedBetween(
    states: seq<State>, events: seq<Event>, m: nat, n: nat, tenant: string, key: Option<string>)
    requires IsRun(states, events) && n <= |events|
  {
    exists j: nat :: m < j < n && CommitsAt(states, events, j, tenant, key)
  }

  lemma TakenSince(states: seq<State>, events: seq<Event>, m: nat, n: nat, tenant: string, key: Option<string>)
    requires IsRun(states, events) && m < n <= |events| && events[m].LookUp?
    requires !KeyTaken(states[m].rows, tenant, key)
    ensures KeyTaken(states[n].rows, tenant, key) <==> CommittedBetween(states, events, m, n, tenant, key)
  {
    if KeyTaken(states[n].rows, tenant, key) {
      var j := TakenWasCommitted(states, events, m, n, tenant, key);
    } else if j: nat :| m < j < n && CommitsAt(states, events, j, tenant, key) {
      CommittedIsTaken(states, events, j, n, tenant, key);
    }
  }

  lemma InsertRefused(s: State, e: Event)
    requires Enabled(s, e) && e.Insert?
    ensures e.id !in Step(s, e).rows <==> KeyTaken(s.rows, s.requests[e.i].tenant, s.requests[e.i].key)
  {
  }

  /**
    A request is refused by the unique index, after it found no row, if and only if its key
    is present and either a racing request committed the key between its look-up and its
    INSERT, or the key is empty, so was never looked up, and has a row.
   */
  lemma RefusedExactly(states: seq<State>, events: seq<Event>, n: nat)
    requires IsRun(states, events) && n < |events| && events[n].Insert?
    ensures var r := states[n].requests[events[n].i];
            var m := LookedUpAt(states, events, n, events[n].i);
            events[n].id !in states[n + 1].rows
            <==> && r.key.Some?
                 && (if r.key.value == "" then KeyTaken(states[n].rows, r.tenant, r.key)
                     else CommittedBetween(states, events, m, n, r.tenant, r.key))
  {
    InsertRefused(states[n], events[n]);
    var r := states[n].requests[events[n].i];
    var m := LookedUpAt(states, events, n, events[n].i);
    if IsLookedUp(r.key) {
      TakenSince(states, events, m, n, r.tenant, r.key);
    }
  }

  /** The row under `id`, requested by `actor`, is the one row of the tenant's key. */
  ghost predicate IsOnlyRow(rows: map<string, Row>, id: string, tenant: string, actor: string, key: string) {
    && HasKey(rows, id, tenant, key) && rows[id].requestedBy == actor
    && forall other :: HasKey(rows, other, tenant, key) ==> other == id
  }

  /** The row that an INSERT has committed stays the only one of its key. */
  lemma CommittedRowStays(states: seq<State>, events: seq<Event>, j: nat, n: nat, tenant: string, key: string)
    requires IsRun(states, events) && j < n <= |events| && Commits(states[j], events[j], tenant, Some(key))
    ensures IsOnlyRow(states[n].rows, events[j].id, tenant, states[j].requests[events[j].i].actor, key)
  {
    RowPersists(states, events, j + 1, n, events[j].id);
    RunKeeps(states, events, n);
    assert HasKey(states[n].rows, events[j].id, tenant, key);
  }

  lemma {:induction false} RowPersists(states: seq<State>, events: seq<Event>, m: nat, n: nat, id: string)
    requires IsRun(states, events) && m <= n <= |events| && id in states[m].rows
    ensures id in states[n].rows
    ensures var row := states[m].rows[id];
            && states[n].rows[id].tenant == row.tenant && states[n].rows[id].key == row.key
            && states[n].rows[id].requestedBy == row.requestedBy
  {
    if m < n {
      RowPersists(states, events, m, n - 1, id);
      RunKeeps(states, events, n - 1);
      DecidedRowStays(states[n - 1], events[n - 1], id);
    }
  }

  /**
    A retry that starts once its key's row is committed, whatever else happened in between:
    the row is the only one its key has, and still is what was asked for; the retry is
    answered with it (`LookUpKey`), and nothing changes, if and only if the key is not the
    empty string; with an empty key it goes on to an INSERT that is refused whenever it runs.
   */
  lemma RetriesFindTheirRow(
    states: seq<State>, events: seq<Event>, j: nat, n: nat, tenant: string, actor: string, key: string)
    requires IsRun(states, events) && j < n < |events|
    requires Commits(states[j], events[j], tenant, Some(key))
    requires events[n] == LookUp(tenant, actor, Some(key))
    ensures IsOnlyRow(states[n].rows, events[j].id, tenant, states[j].requests[events[j].i].actor, key)
    ensures states[n + 1] == states[n] <==> key != ""
    ensures forall p {:trigger events[p]} ::
              (n < p < |events| && events[p].Insert? && LookedUpAt(states, events, p, events[p].i) == n) ==>
              key == "" && events[p].id !in states[p + 1].rows
  {
    CommittedRowStays(states, events, j, n, tenant, key);
    LookUpAnswers(states[n], tenant, actor, key);
    forall p | n < p < |events| && events[p].Insert? && LookedUpAt(states, events, p, events[p].i) == n
      ensures key == "" && events[p].id !in states[p + 1].rows
    {
      CommittedIsTaken(states, events, j, p, tenant, Some(key));
      InsertRefused(states[p], events[p]);
    }
  }

  lemma LookUpAnswers(s: State, tenant: string, actor: string, key: string)
    requires KeyTaken(s.rows, tenant, Some(key))
    ensures AfterLookUp(s, tenant, actor, Some(key)) == s <==> key != ""
  {
    assert |s.requests + [LookedUp(tenant, actor, Some(key))]| != |s.requests|;
  }

  lemma FirstInsertCommits(s: State, asked: Request, row: Row)
    requires asked.LookedUp? && s.rows == map[] && s.requests == [asked, asked]
    requires row == Row(asked.tenant, asked.actor, asked.key, Pending, None)
    ensures AfterInsert(s, 0, "a") == s.(rows := map["a" := row], requests := [Inserted("a"), asked])
  {
    assert s.rows["a" := row] == map["a" := row];
  }

  lemma SecondInsertIsRefused(s: State, asked: Request, row: Row)
    requires asked.LookedUp? && asked.key.Some? && row.tenant == asked.tenant && row.key == asked.key
    requires s.rows == map["a" := row] && s.requests == [Inserted("a"), asked]
    ensures AfterInsert(s, 1, "b") == s.(requests := [Inserted("a")])
  {
    assert HasKey(s.rows, "a", asked.tenant, asked.key.value);
    assert Without(s.requests, 1) == [Inserted("a")];
  }

  /** The race, as a run: the second of two requests with one key is refused, be it empty or not. */
  lemma RacingRetryIsRefused(key: string, events: seq<Event>) returns (states: seq<State>)
    requires events == [LookUp("t", "u", Some(key)), LookUp("t", "u", Some(key)), Insert(0, "a"), Insert(1, "b")]
    ensures IsRun(states, events)
    ensures states[4].rows == map["a" := Row("t", "u", Some(key), Pending, None)]
  {
    var asked, row := LookedUp("t", "u", Some(key)), Row("t", "u", Some(key), Pending, None);
    var s2 := Initial().(requests := [asked, asked]);
    var s3 := s2.(rows := map["a" := row], requests := [Inserted("a"), asked]);
    FirstInsertCommits(s2, asked, row);
    SecondInsertIsRefused(s3, asked, row);
    states := [Initial(), Initial().(requests := [asked]), s2, s3, s3.(requests := [Inserted("a")])];
  }
}
