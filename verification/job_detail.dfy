/** The job page (JobDetailPage.jsx): what mounting it does to the store
    and the score it ends up showing, applying, the finder's status buttons
    on each application, and who sees the applicant list. */
module JobDetail {
  import opened Wrappers
  import opened Entities
  import Queries
  import Database
  import MatchScore

  datatype Role = Seeker | Finder

  /** What the page holds after `loadJob`. */
  datatype Loaded = Loaded(store: Database.Store, job: Option<Job>, score: Option<MatchScore.MatchResult>)

  /** `loadJob`: a found job is shown, gets one more view, and for a seeker
      is scored as it was read (before the view was added). */
  function LoadJob(st: Database.Store, id: string, role: Role, u: User): (r: Loaded)
    ensures r.job == Database.GetJob(st, id)
    ensures r.job.None? ==> r.store == st && r.score.None?
    ensures r.store == st.(jobs := r.store.jobs)
    ensures r.job.Some? && role == Seeker ==> r.score == Some(MatchScore.CalculateMatchScore(u, r.job.value))
  {
    match Database.GetJob(st, id)
    case None => Loaded(st, None, None)
    case Some(j) =>
      Loaded(Database.IncrementJobViews(st, id), Some(j),
             if role == Seeker then Some(MatchScore.CalculateMatchScore(u, j)) else None)
  }

  /** The page state after the mount effect. */
  datatype Mounted = Mounted(store: Database.Store, job: Option<Job>, score: Option<MatchScore.MatchResult>, applications: seq<Application>)

  /** The mount effect: `loadJob()`, then for a finder the applications,
      and for a seeker a second score against `job || {}`, where `job` is
      the value the page held before this render (`stale`). That second
      score is set last, so it is the one shown. */
  function Mount(st: Database.Store, id: string, role: Role, u: User, stale: Option<Job>): (r: Mounted)
    ensures r.job == Database.GetJob(st, id)
    ensures role == Seeker ==> r.score == Some(MatchScore.CalculateMatchScore(u, stale.GetOr(EmptyJob)))
    ensures role == Finder ==> r.applications == r.store.applications
  {
    var l := LoadJob(st, id, role, u);
    match role
    case Finder =>
      Mounted(l.store, l.job, l.score, Database.GetApplications(l.store, Queries.ApplicationFilter(id, "", "")))
    case Seeker =>
      Mounted(l.store, l.job, Some(MatchScore.CalculateMatchScore(u, stale.GetOr(EmptyJob))), [])
  }

  /** On a seeker's first visit the page holds no job yet, so the score
      shown is the one against an empty job: three points per completed
      profile item, whatever the job asks for. */
  lemma {:induction false} FirstVisitScoresEmptyJob(st: Database.Store, id: string, u: User)
    ensures var r := Mount(st, id, Seeker, u, None);
      && r.score.Some?
      && r.score.value.score == 3 * MatchScore.CompletenessCount(u)
      && r.score.value.breakdown == MatchScore.Breakdown(0, 0, 50, 20 * MatchScore.CompletenessCount(u))
  {
    MatchScore.EmptyJobScore(u);
  }

  /** Each visit to an existing job adds exactly one view; visiting a
      missing job changes nothing. */
  lemma {:induction false} VisitAddsOneView(st: Database.Store, id: string, role: Role, u: User, stale: Option<Job>, i: int)
    requires Database.FirstJob(st.jobs, id, i)
    ensures var r := Mount(st, id, role, u, stale);
      && |r.store.jobs| == |st.jobs|
      && r.store.jobs[i].views == st.jobs[i].views + 1
      && (forall k :: 0 <= k < |st.jobs| && k != i ==> r.store.jobs[k] == st.jobs[k])
      && r.store == st.(jobs := r.store.jobs)
  {
    Database.IncrementOnce(st, id, i);
  }

  lemma {:induction false} VisitMissingJobChangesNothing(st: Database.Store, id: string, role: Role, u: User, stale: Option<Job>)
    requires !Database.HasJob(st.jobs, id)
    ensures Mount(st, id, role, u, stale).store == st
  {
  }

  /** `handleApply`: the typed message and no resume. */
  function HandleApply(st: Database.Store, appId: string, now: int, jobId: string, u: User, message: string): (r: Database.Step<Result<Application>>)
    ensures r.result.Err? <==> Database.HasApplied(st.applications, jobId, u.id)
    ensures r.result.Err? ==> r.store == st && r.result.message == Database.AlreadyApplied
    ensures r.result.Ok? ==>
      && r.result.value.jobId == jobId && r.result.value.userId == u.id
      && r.result.value.message == message && r.result.value.resumeUrl.None?
      && r.result.value.status == "pending"
      && r.store.applications == st.applications + [r.result.value]
  {
    Database.CreateApplication(st, appId, now, jobId, u.id, NoApplicationChange.(message := Some(message), resumeUrl := None))
  }

  // The status buttons of an application card (lines 263-283).

  datatype StatusAction = Shortlist | Reject | Accept

  function Target(a: StatusAction): string {
    match a
    case Shortlist => "shortlisted"
    case Reject => "rejected"
    case Accept => "accepted"
  }

  const Pending := "pending"

  /** A button is disabled when the application already has its status. */
  predicate Enabled(app: Application, a: StatusAction) {
    app.status != Target(a)
  }

  /** `handleStatusChange`: the first application with that id takes the
      button's status; nothing else in the store changes, and an unknown id
      changes nothing. */
  function SetStatus(st: Database.Store, appId: string, a: StatusAction): (r: Database.Store)
    ensures !Database.HasApplication(st.applications, appId) ==> r == st
    ensures forall i :: Database.FirstApplication(st.applications, appId, i) ==>
      r == st.(applications := st.applications[i := st.applications[i].(status := Target(a))])
  {
    Database.UpdateApplication(st, appId, NoApplicationChange.(status := Some(Target(a)))).store
  }

  /** Pressing a button on the card of the application at `i`: nothing
      happens when it is disabled. */
  function Press(st: Database.Store, i: int, a: StatusAction): (r: Database.Store)
    requires 0 <= i < |st.applications|
    requires Database.FirstApplication(st.applications, st.applications[i].id, i)
    ensures r == st.(applications := r.applications)
    ensures |r.applications| == |st.applications|
    ensures forall k :: 0 <= k < |st.applications| && k != i ==> r.applications[k] == st.applications[k]
    ensures r.applications[i] == st.applications[i].(status := r.applications[i].status)
    ensures Enabled(st.applications[i], a) ==> r.applications[i].status == Target(a) != st.applications[i].status
    ensures !Enabled(st.applications[i], a) ==> r == st
  {
    if Enabled(st.applications[i], a) then SetStatus(st, st.applications[i].id, a) else st
  }

  /** No button leads to "pending", so a status a button has changed is never "pending" again. */
  lemma {:induction false} NeverBackToPending(st: Database.Store, i: int, a: StatusAction)
    requires 0 <= i < |st.applications|
    requires Database.FirstApplication(st.applications, st.applications[i].id, i)
    ensures var r := Press(st, i, a);
      r.applications[i].status != st.applications[i].status ==> r.applications[i].status != Pending
  {
  }

  /** A series of presses on one card, reading the card afresh each time. */
  function PressAll(st: Database.Store, i: int, acts: seq<StatusAction>): (r: Database.Store)
    requires 0 <= i < |st.applications|
    requires Database.FirstApplication(st.applications, st.applications[i].id, i)
    ensures |r.applications| == |st.applications|
    ensures r.applications[i].id == st.applications[i].id
    ensures Database.FirstApplication(r.applications, st.applications[i].id, i)
    decreases |acts|
  {
    if |acts| == 0 then st
    else
      var next := Press(st, i, acts[0]);
      PressAll(next, i, acts[1..])
  }

  /** Once any press has moved an application out of "pending", no later
      series of presses brings it back. */
  lemma {:induction false} LeftPendingForGood(st: Database.Store, i: int, acts: seq<StatusAction>)
    requires 0 <= i < |st.applications|
    requires Database.FirstApplication(st.applications, st.applications[i].id, i)
    requires st.applications[i].status != Pending
    ensures PressAll(st, i, acts).applications[i].status != Pending
    decreases |acts|
  {
    if |acts| > 0 {
      var next := Press(st, i, acts[0]);
      assert next.applications[i].status != Pending;
      LeftPendingForGood(next, i, acts[1..]);
    }
  }

  /** Only the finder who posted the job sees its applicants. */
  predicate ShowsApplicants(role: Role, job: Job, u: User) {
    role == Finder && job.userId == u.id
  }

  /** The applicant list under the job: the live getter ignores the job
      filter, so when it is shown it lists every stored application,
      including those to other jobs. */
  function ApplicantList(st: Database.Store, role: Role, job: Job, u: User): (r: seq<Application>)
    ensures !ShowsApplicants(role, job, u) ==> r == []
    ensures ShowsApplicants(role, job, u) ==> r == st.applications
  {
    if ShowsApplicants(role, job, u) then Database.GetApplications(st, Queries.ApplicationFilter(job.id, "", "")) else []
  }

  /** The list the page means to show: the applications to this job. */
  lemma {:induction false} ApplicantListIsNotPerJob(st: Database.Store, job: Job, u: User, k: int)
    requires job.userId == u.id && job.id != ""
    requires 0 <= k < |st.applications| && st.applications[k].jobId != job.id
    ensures st.applications[k] in ApplicantList(st, Finder, job, u)
    ensures st.applications[k] !in Queries.QueryApplications(st.applications, Queries.ApplicationFilter(job.id, "", ""))
  {
    var q := Queries.QueryApplications(st.applications, Queries.ApplicationFilter(job.id, "", ""));
    assert multiset(q)[st.applications[k]] == 0;
  }
}
