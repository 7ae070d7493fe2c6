/** The seeker's dashboard (TalentSeekerDashboard.jsx): the browse list
    with its search box and type selector, the recommendation strip, and
    the colour tier of a match score. */
module SeekerDashboard {
  import opened Wrappers
  import opened Entities
  import Seqs
  import Text
  import Queries
  import Database
  import MatchScore
  import Ranking

  /** The type selector's "no restriction" value. */
  const AllTypes := "all"

  /** How many recommendations the dashboard asks for. */
  const RecommendationLimit := 5

  /** A job survives `filterJobs` when the search is empty or hits it, and
      the selected type is "all" or the job's own. */
  predicate Shown(j: Job, search: string, jobType: string) {
    (search == "" || Queries.SearchHit(j, search)) && (jobType == AllTypes || j.jobType == jobType)
  }

  function ShownBy(search: string, jobType: string): Job -> bool {
    j => Shown(j, search, jobType)
  }

  /** `filterJobs`: the search filter and then the type filter. */
  function FilterJobs(jobs: seq<Job>, search: string, jobType: string): (r: seq<Job>)
    ensures Seqs.IsSubsequence(r, jobs)
    ensures forall i :: 0 <= i < |r| ==> Shown(r[i], search, jobType)
    ensures forall j :: multiset(r)[j] == if Shown(j, search, jobType) then multiset(jobs)[j] else 0
  {
    Seqs.Filter(jobs, ShownBy(search, jobType))
  }

  /** Filtering the filtered list again changes nothing. */
  lemma {:induction false} FilterJobsIdempotent(jobs: seq<Job>, search: string, jobType: string)
    ensures FilterJobs(FilterJobs(jobs, search, jobType), search, jobType) == FilterJobs(jobs, search, jobType)
  {
    Seqs.FilterIdempotent(jobs, ShownBy(search, jobType));
  }

  /** An empty search with "all" shows every job, in order. */
  lemma {:induction false} NoFilterShowsAll(jobs: seq<Job>)
    ensures FilterJobs(jobs, "", AllTypes) == jobs
  {
    Seqs.FilterKeepsAll(jobs, ShownBy("", AllTypes));
  }

  /** The list does not depend on the letter case of the search term. */
  lemma {:induction false} FilterJobsIgnoresCase(jobs: seq<Job>, s1: string, s2: string, jobType: string)
    requires Text.Lower(s1) == Text.Lower(s2)
    ensures FilterJobs(jobs, s1, jobType) == FilterJobs(jobs, s2, jobType)
  {
    assert |s1| == |Text.Lower(s1)| && |s2| == |Text.Lower(s2)|;
    Seqs.FilterCongruent(jobs, ShownBy(s1, jobType), ShownBy(s2, jobType));
  }

  /** The browse filter keeps what the search and type options of the job
      query keep, up to order. */
  lemma {:induction false} FilterAgreesWithQuery(jobs: seq<Job>, search: string, jobType: string)
    requires jobType != AllTypes && jobType != ""
    ensures multiset(FilterJobs(jobs, search, jobType))
         == multiset(Queries.QueryJobs(jobs, Queries.JobFilter("", "", jobType, search, None)))
  {
    var a := FilterJobs(jobs, search, jobType);
    var b := Queries.QueryJobs(jobs, Queries.JobFilter("", "", jobType, search, None));
    assert forall j :: multiset(a)[j] == multiset(b)[j];
  }

  datatype Tier = Low | Medium | High

  /** The class of the score badge. */
  function ScoreTier(score: int): (t: Tier)
    ensures t == High <==> score >= 70
    ensures t == Low <==> score < 50
  {
    if score >= 70 then High else if score >= 50 then Medium else Low
  }

  function TierLevel(t: Tier): int {
    match t
    case Low => 0
    case Medium => 1
    case High => 2
  }

  /** A higher score never gets a lower tier. */
  lemma {:induction false} ScoreTierMonotone(a: int, b: int)
    requires a <= b
    ensures TierLevel(ScoreTier(a)) <= TierLevel(ScoreTier(b))
  {
  }

  datatype Dashboard = Dashboard(browse: seq<Job>, recommended: seq<Job>)

  /** `loadJobs`. The call asks for active jobs, but the live getter ignores
      the filter, so the browse list is the whole collection, drafts
      included; the recommendations are the top five active jobs. */
  function LoadJobs(st: Database.Store, u: User): (d: Dashboard)
    ensures d.browse == st.jobs
    ensures |d.recommended| <= RecommendationLimit
    ensures |d.recommended| == RecommendationLimit || |d.recommended| == |Seqs.Filter(st.jobs, MatchScore.IsActive)|
    ensures forall i :: 0 <= i < |d.recommended| ==> MatchScore.IsActive(d.recommended[i]) && d.recommended[i] in st.jobs
    ensures multiset(d.recommended) <= multiset(Seqs.Filter(st.jobs, MatchScore.IsActive))
    ensures forall i :: 0 <= i < |d.recommended| - 1 ==>
      Ranking.AtLeast(MatchScore.RecommendationRank(MatchScore.Scored(d.recommended[i], MatchScore.CalculateMatchScore(u, d.recommended[i]))),
                      MatchScore.RecommendationRank(MatchScore.Scored(d.recommended[i + 1], MatchScore.CalculateMatchScore(u, d.recommended[i + 1]))))
  {
    var all := Database.GetJobs(st, Queries.JobFilter("", "active", "", "", None));
    var ranked := MatchScore.RecommendedJobs(u, all, RecommendationLimit);
    MatchScore.RecommendedJobsOfActive(u, all, RecommendationLimit);
    Dashboard(all, Seqs.Map(ranked, MatchScore.JobOf))
  }

  /** A draft in the store shows up in the browse list. */
  lemma {:induction false} DraftsAreBrowsed(st: Database.Store, u: User, k: int)
    requires 0 <= k < |st.jobs| && st.jobs[k].status == "draft"
    ensures exists i :: 0 <= i < |LoadJobs(st, u).browse| && LoadJobs(st, u).browse[i].status == "draft"
  {
    assert LoadJobs(st, u).browse[k] == st.jobs[k];
  }
}
