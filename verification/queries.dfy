/** The filtering queries of the store as their bodies are written
    (database.js lines 97-124, 186-200 and 230-247). In the class these
    methods are declared a second time further down, and in a JavaScript
    class body the later declaration wins, so the store itself never runs
    them: every `getJobs`, `getApplications` and `getMessages` call returns
    the whole collection in storage order (see module Database). They are
    kept here as the intended query semantics the pages are written
    against, and the conversation list is built on them. */
module Queries {
  import opened Wrappers
  import opened Entities
  import opened Ranking
  import Text
  import Seqs

  /** Job query options; "" and `None` mean "no constraint", as a falsy
      option does in the source. */
  datatype JobFilter = JobFilter(userId: string, status: string, jobType: string, search: string, tags: Option<seq<string>>)

  datatype ApplicationFilter = ApplicationFilter(jobId: string, userId: string, status: string)

  datatype MessageFilter = MessageFilter(userId: string, otherUserId: string)

  const NoJobFilter := JobFilter("", "", "", "", None)

  /** A job's tags; a job without a tags array is treated as having none. */
  function TagsOf(j: Job): seq<string> {
    j.tags.GetOr([])
  }

  /** The search rule shared by the job query and the seeker's browse list:
      the lowercased term occurs in the lowercased title, description or
      some tag. */
  predicate SearchHit(j: Job, search: string) {
    var q := Text.Lower(search);
    || Text.Includes(Text.Lower(j.title), q)
    || Text.Includes(Text.Lower(j.description), q)
    || exists k :: 0 <= k < |TagsOf(j)| && Text.Includes(Text.Lower(TagsOf(j)[k]), q)
  }

  /** Some tag of the filter is, exactly, one of the job's tags. */
  predicate SharesTag(j: Job, wanted: seq<string>) {
    exists t :: 0 <= t < |wanted| && wanted[t] in TagsOf(j)
  }

  predicate JobMatches(j: Job, f: JobFilter) {
    && (f.userId == "" || j.userId == f.userId)
    && (f.status == "" || j.status == f.status)
    && (f.jobType == "" || j.jobType == f.jobType)
    && (f.search == "" || SearchHit(j, f.search))
    && (f.tags.None? || |f.tags.value| == 0 || SharesTag(j, f.tags.value))
  }

  /** `JobMatches` as a value, for handing to `Filter`. */
  function JobMatcher(f: JobFilter): Job -> bool {
    j => JobMatches(j, f)
  }

  function NewestJobFirst(j: Job): Rank {
    Rank(j.createdAt, 0)
  }

  /** The shadowed `getJobs(filters)`: the jobs satisfying every given
      option, newest first. */
  function QueryJobs(jobs: seq<Job>, f: JobFilter): (r: seq<Job>)
    ensures forall j :: multiset(r)[j] == if JobMatches(j, f) then multiset(jobs)[j] else 0
    ensures forall i, k :: 0 <= i < k < |r| ==> r[i].createdAt >= r[k].createdAt
  {
    Sort(Seqs.Filter(jobs, JobMatcher(f)), NewestJobFirst)
  }

  predicate ApplicationMatches(a: Application, f: ApplicationFilter) {
    && (f.jobId == "" || a.jobId == f.jobId)
    && (f.userId == "" || a.userId == f.userId)
    && (f.status == "" || a.status == f.status)
  }

  function NewestApplicationFirst(a: Application): Rank {
    Rank(a.createdAt, 0)
  }

  /** The shadowed `getApplications(filters)`: the matching applications, newest first. */
  function QueryApplications(apps: seq<Application>, f: ApplicationFilter): (r: seq<Application>)
    ensures forall a :: multiset(r)[a] == if ApplicationMatches(a, f) then multiset(apps)[a] else 0
    ensures forall i, k :: 0 <= i < k < |r| ==> r[i].createdAt >= r[k].createdAt
  {
    Sort(Seqs.Filter(apps, a => ApplicationMatches(a, f)), NewestApplicationFirst)
  }

  /** Both ids given: the messages between the two users; only `userId`:
      the messages sent or received by that user; neither: all messages. */
  predicate MessageMatches(m: Message, f: MessageFilter) {
    if f.userId != "" && f.otherUserId != "" then
      (m.fromId == f.userId && m.toId == f.otherUserId) || (m.fromId == f.otherUserId && m.toId == f.userId)
    else if f.userId != "" then
      m.fromId == f.userId || m.toId == f.userId
    else true
  }

  function OldestMessageFirst(m: Message): Rank {
    Rank(-m.createdAt, 0)
  }

  /** The shadowed `getMessages(filters)`: the matching messages, oldest first. */
  function QueryMessages(ms: seq<Message>, f: MessageFilter): (r: seq<Message>)
    ensures forall m :: multiset(r)[m] == if MessageMatches(m, f) then multiset(ms)[m] else 0
    ensures forall i, k :: 0 <= i < k < |r| ==> r[i].createdAt <= r[k].createdAt
  {
    Sort(Seqs.Filter(ms, m => MessageMatches(m, f)), OldestMessageFirst)
  }

  /** Without options every query returns all records, only reordered. */
  lemma {:induction false} NoFiltersKeepAll(jobs: seq<Job>, apps: seq<Application>, ms: seq<Message>)
    ensures multiset(QueryJobs(jobs, NoJobFilter)) == multiset(jobs)
    ensures multiset(QueryApplications(apps, ApplicationFilter("", "", ""))) == multiset(apps)
    ensures multiset(QueryMessages(ms, MessageFilter("", ""))) == multiset(ms)
  {
    var qj := QueryJobs(jobs, NoJobFilter);
    var qa := QueryApplications(apps, ApplicationFilter("", "", ""));
    var qm := QueryMessages(ms, MessageFilter("", ""));
    assert forall j :: multiset(qj)[j] == multiset(jobs)[j];
    assert forall a :: multiset(qa)[a] == multiset(apps)[a];
    assert forall m :: multiset(qm)[m] == multiset(ms)[m];
  }

  /** The search option ignores the letter case of the search term. */
  lemma {:induction false} SearchIgnoresCase(jobs: seq<Job>, f: JobFilter, search: string)
    requires Text.Lower(search) == Text.Lower(f.search)
    ensures QueryJobs(jobs, f.(search := search)) == QueryJobs(jobs, f)
  {
    var g := f.(search := search);
    assert |search| == |Text.Lower(search)| && |f.search| == |Text.Lower(f.search)|;
    assert forall j :: JobMatches(j, g) == JobMatches(j, f);
    Seqs.FilterCongruent(jobs, JobMatcher(g), JobMatcher(f));
  }
}
