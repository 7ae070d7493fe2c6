/** The finder's dashboard (TalentFinderDashboard.jsx): the analytics
    tiles and the job form used both to post and to edit a job. */
module FinderDashboard {
  import opened Wrappers
  import opened Entities
  import Seqs
  import Text
  import Queries
  import Database
  import MatchScore

  // Analytics (lines 27-34).

  function SumViews(jobs: seq<Job>): int
    decreases |jobs|
  {
    if |jobs| == 0 then 0 else jobs[0].views + SumViews(jobs[1..])
  }

  function SumApplications(jobs: seq<Job>): int
    decreases |jobs|
  {
    if |jobs| == 0 then 0 else jobs[0].applications + SumApplications(jobs[1..])
  }

  datatype Analytics = Analytics(totalViews: int, totalApplications: int, activeJobs: nat)

  /** The three tiles: the views and the applications summed over the
      jobs, and how many of them are active. The loop runs from the end of
      the list; integer sums do not depend on the order. */
  method Tally(jobs: seq<Job>) returns (a: Analytics)
    ensures a.totalViews == SumViews(jobs)
    ensures a.totalApplications == SumApplications(jobs)
    ensures a.activeJobs == |Seqs.Filter(jobs, MatchScore.IsActive)|
    ensures a.activeJobs <= |jobs|
  {
    var views, apps, active := 0, 0, 0;
    var i := |jobs|;
    while i > 0
      invariant 0 <= i <= |jobs|
      invariant views == SumViews(jobs[i..])
      invariant apps == SumApplications(jobs[i..])
      invariant active == |Seqs.Filter(jobs[i..], MatchScore.IsActive)|
      invariant active <= |jobs| - i
    {
      i := i - 1;
      assert jobs[i..][1..] == jobs[i + 1..];
      views := jobs[i].views + views;
      apps := jobs[i].applications + apps;
      if MatchScore.IsActive(jobs[i]) {
        active := active + 1;
      }
    }
    assert jobs[0..] == jobs;
    a := Analytics(views, apps, active);
  }

  /** `calculateAnalytics`. It asks for the finder's own jobs, but the live
      getter ignores the filter, so the tiles count every stored job,
      whoever posted it. */
  method CalculateAnalytics(st: Database.Store, me: string) returns (a: Analytics)
    ensures a.totalViews == SumViews(st.jobs)
    ensures a.totalApplications == SumApplications(st.jobs)
    ensures a.activeJobs == |Seqs.Filter(st.jobs, MatchScore.IsActive)|
  {
    a := Tally(Database.GetJobs(st, Queries.JobFilter(me, "", "", "", None)));
  }

  // The job form (lines 205-234).

  /** The form's fields, all text; the lists are comma-separated. */
  datatype JobForm = JobForm(
    title: string,
    description: string,
    jobType: string,
    tags: string,
    requiredSkills: string,
    experienceLevel: string,
    location: string,
    budget: string,
    status: string)

  const DefaultJobType := "academic-projects"
  const DefaultLevel := "intermediate"
  const DefaultStatus := "draft"

  /** The form's initial state, for a new job (`None`) or the job being edited. */
  function InitialJobForm(job: Option<Job>): (f: JobForm)
    ensures job.None? ==> f == JobForm("", "", DefaultJobType, "", "", DefaultLevel, "", "", DefaultStatus)
    ensures job.Some? ==>
      && f.title == job.value.title && f.description == job.value.description
      && f.location == job.value.location && f.budget == job.value.budget
      && f.jobType == Text.OrElse(job.value.jobType, DefaultJobType)
      && f.experienceLevel == Text.OrElse(job.value.experienceLevel, DefaultLevel)
      && f.status == Text.OrElse(job.value.status, DefaultStatus)
    ensures job.Some? ==>
      f.tags == Text.ListText(job.value.tags) && f.requiredSkills == Text.ListText(job.value.requiredSkills)
  {
    match job
    case None => JobForm("", "", DefaultJobType, "", "", DefaultLevel, "", "", DefaultStatus)
    case Some(j) =>
      JobForm(j.title, j.description, Text.OrElse(j.jobType, DefaultJobType), Text.ListText(j.tags), Text.ListText(j.requiredSkills),
              Text.OrElse(j.experienceLevel, DefaultLevel), j.location, j.budget, Text.OrElse(j.status, DefaultStatus))
  }

  /** `handleSubmit`: the nine fields of the form, with both lists parsed. */
  function SubmitJobForm(f: JobForm): (p: JobPatch)
    ensures p.id.None? && p.userId.None? && p.createdAt.None?
    ensures p.views.None? && p.applications.None? && p.interested.None?
    ensures p.title == Some(f.title) && p.description == Some(f.description) && p.jobType == Some(f.jobType)
    ensures p.experienceLevel == Some(f.experienceLevel) && p.location == Some(f.location)
    ensures p.budget == Some(f.budget) && p.status == Some(f.status)
    ensures p.tags.Some? && forall i :: 0 <= i < |p.tags.value| ==> Text.ListItem(p.tags.value[i])
    ensures p.requiredSkills.Some? && forall i :: 0 <= i < |p.requiredSkills.value| ==> Text.ListItem(p.requiredSkills.value[i])
    ensures p.tags == Some(Text.ParseList(f.tags)) && p.requiredSkills == Some(Text.ParseList(f.requiredSkills))
  {
    NoJobChange.(title := Some(f.title), description := Some(f.description), jobType := Some(f.jobType),
                 tags := Some(Text.ParseList(f.tags)), requiredSkills := Some(Text.ParseList(f.requiredSkills)),
                 experienceLevel := Some(f.experienceLevel), location := Some(f.location),
                 budget := Some(f.budget), status := Some(f.status))
  }

  /** Editing a job through the form keeps its identity, owner, creation
      time and counters. */
  lemma {:induction false} EditKeepsIdentity(st: Database.Store, id: string, f: JobForm, i: int)
    requires Database.FirstJob(st.jobs, id, i)
    ensures var r := Database.UpdateJob(st, id, SubmitJobForm(f)).store;
      && |r.jobs| == |st.jobs|
      && r.jobs[i].id == st.jobs[i].id && r.jobs[i].userId == st.jobs[i].userId
      && r.jobs[i].createdAt == st.jobs[i].createdAt && r.jobs[i].views == st.jobs[i].views
      && r.jobs[i].applications == st.jobs[i].applications && r.jobs[i].interested == st.jobs[i].interested
      && r.jobs[i].status == f.status
  {
  }

  /** Posting from the form stores an active job even though the form's
      status starts as "draft". */
  lemma {:induction false} PostedJobIsActive(st: Database.Store, id: string, now: int, me: string)
    ensures var f := InitialJobForm(None);
      && f.status == "draft"
      && Database.CreateJob(st, id, now, me, SubmitJobForm(f)).result.status == "active"
  {
  }

  /** Opening a job in the form and submitting it unchanged writes the job
      back as it was, provided its lists are well formed and its type, level
      and status are set. */
  lemma {:induction false} UneditedSubmitChangesNothing(j: Job)
    requires Text.WellFormedList(j.tags) && Text.WellFormedList(j.requiredSkills)
    requires j.jobType != "" && j.experienceLevel != "" && j.status != ""
    ensures MergeJob(j, SubmitJobForm(InitialJobForm(Some(j)))) == j
  {
    Text.ParseJoin(j.tags.value);
    Text.ParseJoin(j.requiredSkills.value);
  }

  /** A job without a tags array comes back from an unchanged submit with
      an empty one. */
  lemma {:induction false} MissingTagsBecomeEmpty(j: Job)
    requires j.tags.None?
    ensures SubmitJobForm(InitialJobForm(Some(j))).tags == Some([])
  {
    assert Text.Split("", ',') == [""];
  }
}
