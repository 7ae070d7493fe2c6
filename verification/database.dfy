/** The entity store of database.js as a value: four collections in
    storage order, threaded through pure operations that each return the
    next store and the operation's result. Fresh ids and timestamps are
    parameters, standing for `generateId()` and `new Date()`.

    The class declares `getJobs`, `getApplications` and `getMessages` twice
    (lines 97, 186 and 230, and again at 278, 286 and 294). The later
    declarations win, so every lookup below scans the raw collection in
    storage order and every `getX(filters)` call ignores its filters. */
module Database {
  import opened Wrappers
  import opened Entities
  import Seqs
  import Queries

  datatype Store = Store(users: seq<User>, jobs: seq<Job>, applications: seq<Application>, messages: seq<Message>)

  const EmptyStore := Store([], [], [], [])

  /** The store after an operation, and what the operation returned. */
  datatype Step<T> = Step(store: Store, result: T)

  const UserExists := "User already exists"
  const AlreadyApplied := "Already applied to this job"

  // The effective getters (lines 270-300).

  function GetUsers(st: Store): seq<User> { st.users }

  function GetJobs(st: Store, f: Queries.JobFilter): seq<Job> { st.jobs }

  function GetApplications(st: Store, f: Queries.ApplicationFilter): seq<Application> { st.applications }

  function GetMessages(st: Store, f: Queries.MessageFilter): seq<Message> { st.messages }

  /** Whatever filters a caller passes, the live getters hand back the whole
      collection in storage order: what the filtering bodies would return
      for no filters at all, up to order. */
  lemma {:induction false} LiveGettersIgnoreFilters(st: Store, fj: Queries.JobFilter, fa: Queries.ApplicationFilter, fm: Queries.MessageFilter)
    ensures GetJobs(st, fj) == GetJobs(st, Queries.NoJobFilter) == st.jobs
    ensures GetApplications(st, fa) == st.applications
    ensures GetMessages(st, fm) == st.messages
    ensures multiset(GetJobs(st, fj)) == multiset(Queries.QueryJobs(st.jobs, Queries.NoJobFilter))
    ensures multiset(GetApplications(st, fa)) == multiset(Queries.QueryApplications(st.applications, Queries.ApplicationFilter("", "", "")))
    ensures multiset(GetMessages(st, fm)) == multiset(Queries.QueryMessages(st.messages, Queries.MessageFilter("", "")))
  {
    Queries.NoFiltersKeepAll(st.jobs, st.applications, st.messages);
  }

  // First record with a given id: what `find` and `findIndex` select.

  predicate FirstUser(users: seq<User>, id: string, i: int) {
    0 <= i < |users| && users[i].id == id && forall k :: 0 <= k < i ==> users[k].id != id
  }

  predicate FirstJob(jobs: seq<Job>, id: string, i: int) {
    0 <= i < |jobs| && jobs[i].id == id && forall k :: 0 <= k < i ==> jobs[k].id != id
  }

  predicate FirstApplication(apps: seq<Application>, id: string, i: int) {
    0 <= i < |apps| && apps[i].id == id && forall k :: 0 <= k < i ==> apps[k].id != id
  }

  predicate FirstMessage(ms: seq<Message>, id: string, i: int) {
    0 <= i < |ms| && ms[i].id == id && forall k :: 0 <= k < i ==> ms[k].id != id
  }

  predicate HasUser(users: seq<User>, id: string) {
    exists k :: 0 <= k < |users| && users[k].id == id
  }

  predicate HasJob(jobs: seq<Job>, id: string) {
    exists k :: 0 <= k < |jobs| && jobs[k].id == id
  }

  predicate HasApplication(apps: seq<Application>, id: string) {
    exists k :: 0 <= k < |apps| && apps[k].id == id
  }

  predicate HasMessage(ms: seq<Message>, id: string) {
    exists k :: 0 <= k < |ms| && ms[k].id == id
  }

  // Users (lines 25-77).

  predicate EmailTaken(users: seq<User>, email: string) {
    exists k :: 0 <= k < |users| && users[k].email == email
  }

  predicate EmailsUnique(users: seq<User>) {
    forall i, k :: 0 <= i < k < |users| ==> users[i].email != users[k].email
  }

  /** `createUser`: refuses an email some user already has (compared
      exactly, letter case included) before writing anything; otherwise
      appends the new record and returns it with the password removed. */
  function CreateUser(st: Store, id: string, now: int, email: string, password: string,
                      name: string, skills: seq<string>, bio: string): (r: Step<Result<User>>)
    ensures r.result.Err? <==> EmailTaken(st.users, email)
    ensures r.result.Err? ==> r.store == st && r.result.message == UserExists
    ensures r.result.Ok? ==>
      && |r.store.users| == |st.users| + 1
      && r.store.users[..|st.users|] == st.users
      && r.store == st.(users := r.store.users)
      && var u := r.store.users[|st.users|];
         && u.id == id && u.email == email && u.password == Some(password) && u.name == name
         && u.skills == Some(skills) && u.bio == bio && u.createdAt == now && u.profileScore == 0
         && u.interests.None? && u.experienceLevel == "" && u.profilePicture == ""
         && r.result.value == WithoutPassword(u)
    ensures EmailsUnique(st.users) ==> EmailsUnique(r.store.users)
  {
    if Seqs.IndexWhere(st.users, (u: User) => u.email == email) != -1 then
      Step(st, Err(UserExists))
    else
      var u := User(id, email, Some(password), name, Some(skills), None, bio, "", "", now, 0);
      Step(st.(users := st.users + [u]), Ok(WithoutPassword(u)))
  }

  predicate Credentials(u: User, email: string, password: string) {
    u.email == email && u.password == Some(password)
  }

  /** `authenticateUser`: the first user with both that email and that
      password, without the password; nothing otherwise. */
  function AuthenticateUser(st: Store, email: string, password: string): (r: Option<User>)
    ensures r.None? <==> forall k :: 0 <= k < |st.users| ==> !Credentials(st.users[k], email, password)
    ensures forall i :: 0 <= i < |st.users| && Credentials(st.users[i], email, password)
                        && (forall k :: 0 <= k < i ==> !Credentials(st.users[k], email, password))
                        ==> r == Some(WithoutPassword(st.users[i]))
  {
    var i := Seqs.IndexWhere(st.users, (u: User) => Credentials(u, email, password));
    if i == -1 then None else Some(WithoutPassword(st.users[i]))
  }

  /** `getUser`: the first user with that id, without the password. */
  function GetUser(st: Store, id: string): (r: Option<User>)
    ensures r.None? <==> !HasUser(st.users, id)
    ensures forall i :: FirstUser(st.users, id, i) ==> r == Some(WithoutPassword(st.users[i]))
  {
    var i := Seqs.IndexWhere(st.users, (u: User) => u.id == id);
    if i == -1 then None else Some(WithoutPassword(st.users[i]))
  }

  /** `updateUser`: merges the patch into the first user with that id and
      returns the merged record, password included; a missing id writes
      nothing. Nothing checks the patch. */
  function UpdateUser(st: Store, id: string, p: UserPatch): (r: Step<Option<User>>)
    ensures r.result.None? <==> !HasUser(st.users, id)
    ensures |r.store.users| == |st.users|
    ensures r.result.None? ==> r.store == st
    ensures forall i :: FirstUser(st.users, id, i) ==>
      && r.result == Some(MergeUser(st.users[i], p))
      && r.store == st.(users := st.users[i := MergeUser(st.users[i], p)])
  {
    var i := Seqs.IndexWhere(st.users, (u: User) => u.id == id);
    if i == -1 then Step(st, None)
    else
      var u := MergeUser(st.users[i], p);
      Step(st.(users := st.users[i := u]), Some(u))
  }

  // Jobs (lines 80-154).

  /** `createJob`: the data is spread over `{ id, userId }` and then the
      status, creation time and counters are overwritten, so a job is
      always stored as "active", whatever status the data carried. */
  function CreateJob(st: Store, id: string, now: int, userId: string, data: JobPatch): (r: Step<Job>)
    ensures r.store == st.(jobs := st.jobs + [r.result])
    ensures r.result.status == "active" && r.result.createdAt == now
    ensures r.result.views == 0 && r.result.applications == 0 && r.result.interested == 0
    ensures r.result.id == data.id.GetOr(id) && r.result.userId == data.userId.GetOr(userId)
    ensures r.result.title == data.title.GetOr("") && r.result.description == data.description.GetOr("")
    ensures r.result.jobType == data.jobType.GetOr("") && r.result.experienceLevel == data.experienceLevel.GetOr("")
    ensures r.result.location == data.location.GetOr("") && r.result.budget == data.budget.GetOr("")
    ensures r.result.tags == data.tags && r.result.requiredSkills == data.requiredSkills
  {
    var base := EmptyJob.(id := id, userId := userId);
    var j := MergeJob(base, data).(status := "active", createdAt := now, views := 0, applications := 0, interested := 0);
    Step(st.(jobs := st.jobs + [j]), j)
  }

  /** `getJob`: the first job with that id. */
  function GetJob(st: Store, id: string): (r: Option<Job>)
    ensures r.None? <==> !HasJob(st.jobs, id)
    ensures forall i :: FirstJob(st.jobs, id, i) ==> r == Some(st.jobs[i])
  {
    var i := Seqs.IndexWhere(st.jobs, (j: Job) => j.id == id);
    if i == -1 then None else Some(st.jobs[i])
  }

  /** `updateJob`: merges the patch into the first job with that id. */
  function UpdateJob(st: Store, id: string, p: JobPatch): (r: Step<Option<Job>>)
    ensures r.result.None? <==> !HasJob(st.jobs, id)
    ensures |r.store.jobs| == |st.jobs|
    ensures r.result.None? ==> r.store == st
    ensures forall i :: FirstJob(st.jobs, id, i) ==>
      && r.result == Some(MergeJob(st.jobs[i], p))
      && r.store == st.(jobs := st.jobs[i := MergeJob(st.jobs[i], p)])
  {
    var i := Seqs.IndexWhere(st.jobs, (j: Job) => j.id == id);
    if i == -1 then Step(st, None)
    else
      var j := MergeJob(st.jobs[i], p);
      Step(st.(jobs := st.jobs[i := j]), Some(j))
  }

  /** `deleteJob`: drops every job with that id, keeps the rest in order,
      leaves applications and messages alone, and always answers true. */
  function DeleteJob(st: Store, id: string): (r: Step<bool>)
    ensures r.result
    ensures r.store == st.(jobs := r.store.jobs)
    ensures !HasJob(r.store.jobs, id)
    ensures forall j: Job :: j.id != id ==> multiset(r.store.jobs)[j] == multiset(st.jobs)[j]
    ensures Seqs.IsSubsequence(r.store.jobs, st.jobs)
  {
    var kept := Seqs.Filter(st.jobs, (j: Job) => j.id != id);
    Step(st.(jobs := kept), true)
  }

  /** `incrementJobViews`: one more view on the first job with that id. */
  function IncrementJobViews(st: Store, id: string): (r: Store)
    ensures !HasJob(st.jobs, id) ==> r == st
    ensures r == st.(jobs := r.jobs) && |r.jobs| == |st.jobs|
  {
    match GetJob(st, id)
    case None => st
    case Some(j) => UpdateJob(st, id, NoJobChange.(views := Some(j.views + 1))).store
  }

  /** `f` applied `n` times to `x`. */
  function Iterate<T>(f: T -> T, x: T, n: nat): T
    decreases n
  {
    if n == 0 then x else f(Iterate(f, x, n - 1))
  }

  /** When `f` steps a family from each member to the next, `n` steps from
      the first member reach the `n`-th. */
  lemma {:induction false} IterateFollows<T>(f: T -> T, h: nat -> T, n: nat)
    requires forall k: nat :: f(h(k)) == h(k + 1)
    ensures Iterate(f, h(0), n) == h(n)
  {
    if n > 0 {
      IterateFollows(f, h, n - 1);
    }
  }

  /** One `incrementJobViews(id)` call, as a step on stores. */
  function ViewStep(id: string): Store -> Store {
    (s: Store) => IncrementJobViews(s, id)
  }

  /** `n` successive calls. */
  function IncrementJobViewsTimes(st: Store, id: string, n: nat): Store {
    Iterate(ViewStep(id), st, n)
  }

  /** The store with `n` more views on the job at index `i` (unchanged when
      there is no such index). */
  function AddViews(st: Store, i: int, n: int): Store {
    if 0 <= i < |st.jobs| then st.(jobs := st.jobs[i := st.jobs[i].(views := st.jobs[i].views + n)]) else st
  }

  /** One call adds one view to the first job with that id, which stays
      the first with its id. */
  lemma {:induction false} IncrementOnce(st: Store, id: string, i: int)
    requires FirstJob(st.jobs, id, i)
    ensures IncrementJobViews(st, id) == AddViews(st, i, 1)
    ensures FirstJob(AddViews(st, i, 1).jobs, id, i)
  {
    var j := st.jobs[i];
    assert GetJob(st, id) == Some(j);
    assert MergeJob(j, NoJobChange.(views := Some(j.views + 1))) == j.(views := j.views + 1);
  }

  /** Adding views leaves every id where it was. */
  lemma {:induction false} AddViewsKeepsFirst(st: Store, id: string, i: int, n: int)
    requires FirstJob(st.jobs, id, i)
    ensures FirstJob(AddViews(st, i, n).jobs, id, i)
  {
    assert forall k :: 0 <= k < |st.jobs| ==> AddViews(st, i, n).jobs[k].id == st.jobs[k].id;
  }

  lemma {:induction false} AddViewsAdd(st: Store, i: int, a: int, b: int)
    requires 0 <= i < |st.jobs|
    ensures AddViews(AddViews(st, i, a), i, b) == AddViews(st, i, a + b)
  {
    var j := st.jobs[i];
    assert AddViews(st, i, a).jobs[i] == j.(views := j.views + a);
  }

  lemma {:induction false} AddViewsZero(st: Store, i: int)
    requires 0 <= i < |st.jobs|
    ensures AddViews(st, i, 0) == st
  {
    assert st.jobs[i].(views := st.jobs[i].views + 0) == st.jobs[i];
    assert st.jobs[i := st.jobs[i]] == st.jobs;
  }

  /** A call on a store that already has `k` extra views adds the next one. */
  lemma {:induction false} StepFollows(st: Store, id: string, i: int, k: int)
    requires FirstJob(st.jobs, id, i)
    ensures IncrementJobViews(AddViews(st, i, k), id) == AddViews(st, i, k + 1)
  {
    AddViewsKeepsFirst(st, id, i, k);
    IncrementOnce(AddViews(st, i, k), id, i);
    AddViewsAdd(st, i, k, 1);
  }

  /** `n` calls add exactly `n` views to that job and change nothing else. */
  lemma {:induction false} IncrementViewsAddsN(st: Store, id: string, n: nat, i: int)
    requires FirstJob(st.jobs, id, i)
    ensures IncrementJobViewsTimes(st, id, n) == AddViews(st, i, n)
    decreases n
  {
    var h := (k: nat) => AddViews(st, i, k);
    forall k: nat ensures ViewStep(id)(h(k)) == h(k + 1) {
      StepFollows(st, id, i, k);
    }
    AddViewsZero(st, i);
    IterateFollows(ViewStep(id), h, n);
  }

  // Applications (lines 157-211).

  predicate HasApplied(apps: seq<Application>, jobId: string, userId: string) {
    exists k :: 0 <= k < |apps| && apps[k].jobId == jobId && apps[k].userId == userId
  }

  /** `createApplication`: refuses a second application for the same
      (job, applicant) pair before writing anything; otherwise appends a
      "pending" record and then adds one to the applications counter of the
      first job with that id, if there is one. No check that the job or the
      user exists. */
  function CreateApplication(st: Store, id: string, now: int, jobId: string, userId: string,
                             data: ApplicationPatch): (r: Step<Result<Application>>)
    ensures r.result.Err? <==> HasApplied(st.applications, jobId, userId)
    ensures r.result.Err? ==> r.store == st && r.result.message == AlreadyApplied
    ensures r.result.Ok? ==>
      && r.store.applications == st.applications + [r.result.value]
      && r.store.users == st.users && r.store.messages == st.messages
      && r.result.value.status == "pending" && r.result.value.createdAt == now
      && r.result.value.id == data.id.GetOr(id)
      && r.result.value.jobId == data.jobId.GetOr(jobId)
      && r.result.value.userId == data.userId.GetOr(userId)
      && r.result.value.message == data.message.GetOr("")
      && r.result.value.resumeUrl == data.resumeUrl
    ensures r.result.Ok? && !HasJob(st.jobs, jobId) ==> r.store.jobs == st.jobs
    ensures r.result.Ok? ==> forall i :: FirstJob(st.jobs, jobId, i) ==>
      r.store.jobs == st.jobs[i := st.jobs[i].(applications := st.jobs[i].applications + 1)]
  {
    if Seqs.IndexWhere(st.applications, (a: Application) => a.jobId == jobId && a.userId == userId) != -1 then
      Step(st, Err(AlreadyApplied))
    else
      var base := Application(id, jobId, userId, "", None, "", 0);
      var a := MergeApplication(base, data).(status := "pending", createdAt := now);
      var st1 := st.(applications := st.applications + [a]);
      var st2 := match GetJob(st1, jobId)
                 case None => st1
                 case Some(j) => UpdateJob(st1, jobId, NoJobChange.(applications := Some(j.applications + 1))).store;
      Step(st2, Ok(a))
  }

  /** Applying twice for the same pair, with data that does not rename the
      pair, stores one application and counts it once. */
  lemma {:induction false} ApplyTwice(st: Store, id1: string, id2: string, t1: int, t2: int,
                                      jobId: string, userId: string, d1: ApplicationPatch, d2: ApplicationPatch)
    requires d1.jobId.None? && d1.userId.None?
    ensures var r1 := CreateApplication(st, id1, t1, jobId, userId, d1);
            var r2 := CreateApplication(r1.store, id2, t2, jobId, userId, d2);
            && r2.result.Err? && r2.store == r1.store
            && |r2.store.applications| <= |st.applications| + 1
            && (HasApplied(st.applications, jobId, userId) ==> r2.store == st)
            && forall i :: FirstJob(st.jobs, jobId, i) ==>
                 r2.store.jobs[i].applications
                 == st.jobs[i].applications + (if HasApplied(st.applications, jobId, userId) then 0 else 1)
  {
    var r1 := CreateApplication(st, id1, t1, jobId, userId, d1);
    if r1.result.Ok? {
      var n := |st.applications|;
      assert r1.store.applications[n] == r1.result.value;
      assert HasApplied(r1.store.applications, jobId, userId);
      if HasJob(st.jobs, jobId) {
        var i := Seqs.IndexWhere(st.jobs, (j: Job) => j.id == jobId);
        assert FirstJob(st.jobs, jobId, i);
      }
    }
  }

  /** `updateApplication`: merges the patch into the first application with that id. */
  function UpdateApplication(st: Store, id: string, p: ApplicationPatch): (r: Step<Option<Application>>)
    ensures r.result.None? <==> !HasApplication(st.applications, id)
    ensures |r.store.applications| == |st.applications|
    ensures r.result.None? ==> r.store == st
    ensures forall i :: FirstApplication(st.applications, id, i) ==>
      && r.result == Some(MergeApplication(st.applications[i], p))
      && r.store == st.(applications := st.applications[i := MergeApplication(st.applications[i], p)])
  {
    var i := Seqs.IndexWhere(st.applications, (a: Application) => a.id == id);
    if i == -1 then Step(st, None)
    else
      var a := MergeApplication(st.applications[i], p);
      Step(st.(applications := st.applications[i := a]), Some(a))
  }

  // Messages (lines 214-267).

  /** `createMessage`: appends an unread message. */
  function CreateMessage(st: Store, id: string, now: int, fromId: string, toId: string,
                         text: string, jobId: Option<string>): (r: Step<Message>)
    ensures r.store == st.(messages := st.messages + [r.result])
    ensures !r.result.read && r.result.createdAt == now && r.result.id == id
    ensures r.result.fromId == fromId && r.result.toId == toId && r.result.text == text && r.result.jobId == jobId
  {
    var m := Message(id, fromId, toId, jobId, text, false, now);
    Step(st.(messages := st.messages + [m]), m)
  }

  /** `updateMessage`: merges the patch into the first message with that id. */
  function UpdateMessage(st: Store, id: string, p: MessagePatch): (r: Step<Option<Message>>)
    ensures r.result.None? <==> !HasMessage(st.messages, id)
    ensures |r.store.messages| == |st.messages|
    ensures r.result.None? ==> r.store == st
    ensures forall i :: FirstMessage(st.messages, id, i) ==>
      && r.result == Some(MergeMessage(st.messages[i], p))
      && r.store == st.(messages := st.messages[i := MergeMessage(st.messages[i], p)])
  {
    var i := Seqs.IndexWhere(st.messages, (m: Message) => m.id == id);
    if i == -1 then Step(st, None)
    else
      var m := MergeMessage(st.messages[i], p);
      Step(st.(messages := st.messages[i := m]), Some(m))
  }

  const MarkRead := NoMessageChange.(read := Some(true))

  /** The `forEach` of `markMessagesAsRead`: for every snapshot message
      addressed to `userId`, one `updateMessage(m.id, { read: true })`. */
  function MarkEach(st: Store, pending: seq<Message>, userId: string): Store
    decreases |pending|
  {
    if |pending| == 0 then st
    else
      var next := if pending[0].toId == userId then UpdateMessage(st, pending[0].id, MarkRead).store else st;
      MarkEach(next, pending[1..], userId)
  }

  /** `markMessagesAsRead(userId, otherUserId)`. The snapshot comes from
      the live `getMessages`, which ignores `{ userId, otherUserId }`, so
      the other user plays no part. What it does to each message is stated
      by `MarkMessagesAsReadSpec`, `MarkMessagesAsReadMonotone` and
      `MarkMessagesAsReadIdempotent` below. */
  function MarkMessagesAsRead(st: Store, userId: string, otherUserId: string): Store {
    MarkEach(st, GetMessages(st, Queries.MessageFilter(userId, otherUserId)), userId)
  }

  /** Message ids are distinct (the model's reading of `generateId`). */
  predicate MessageIdsUnique(ms: seq<Message>) {
    forall i, k :: 0 <= i < k < |ms| ==> ms[i].id != ms[k].id
  }

  /** What marking does to one stored message. */
  function ReadIfFor(m: Message, userId: string): Message {
    if m.toId == userId then m.(read := true) else m
  }

  /** Some pending message addressed to `userId` carries this id. */
  predicate Marks(pending: seq<Message>, id: string, userId: string) {
    exists p :: 0 <= p < |pending| && pending[p].id == id && pending[p].toId == userId
  }

  /** One step of the fold: with distinct ids, `updateMessage` touches
      exactly the message with that id. */
  lemma {:induction false} MarkOne(st: Store, id: string)
    requires MessageIdsUnique(st.messages)
    ensures var r := UpdateMessage(st, id, MarkRead).store;
      && r == st.(messages := r.messages)
      && |r.messages| == |st.messages|
      && MessageIdsUnique(r.messages)
      && forall k :: 0 <= k < |st.messages| ==>
           r.messages[k] == if st.messages[k].id == id then st.messages[k].(read := true) else st.messages[k]
  {
    if HasMessage(st.messages, id) {
      var i := Seqs.IndexWhere(st.messages, (m: Message) => m.id == id);
      assert FirstMessage(st.messages, id, i);
    }
  }

  lemma {:induction false} MarkEachSpec(st: Store, pending: seq<Message>, userId: string)
    requires MessageIdsUnique(st.messages)
    ensures var r := MarkEach(st, pending, userId);
      && r == st.(messages := r.messages)
      && |r.messages| == |st.messages|
      && MessageIdsUnique(r.messages)
      && forall k :: 0 <= k < |st.messages| ==>
           r.messages[k] == if Marks(pending, st.messages[k].id, userId) then st.messages[k].(read := true) else st.messages[k]
    decreases |pending|
  {
    if |pending| > 0 {
      var next := if pending[0].toId == userId then UpdateMessage(st, pending[0].id, MarkRead).store else st;
      if pending[0].toId == userId {
        MarkOne(st, pending[0].id);
      }
      assert |next.messages| == |st.messages| && MessageIdsUnique(next.messages);
      assert forall k :: 0 <= k < |st.messages| ==> next.messages[k].id == st.messages[k].id;
      MarkEachSpec(next, pending[1..], userId);
      var r := MarkEach(st, pending, userId);
      forall k | 0 <= k < |st.messages|
        ensures r.messages[k] == if Marks(pending, st.messages[k].id, userId) then st.messages[k].(read := true) else st.messages[k]
      {
        var id := st.messages[k].id;
        if Marks(pending[1..], id, userId) {
          var p :| 0 <= p < |pending[1..]| && pending[1..][p].id == id && pending[1..][p].toId == userId;
          assert pending[p + 1].id == id;
        }
        if Marks(pending, id, userId) && !(pending[0].id == id && pending[0].toId == userId) {
          var p :| 0 <= p < |pending| && pending[p].id == id && pending[p].toId == userId;
          assert pending[1..][p - 1].id == id;
        }
      }
    }
  }

  /** After `markMessagesAsRead(u, o)` exactly the messages addressed to
      `u` are read, from whomever they came; every other record and every
      other field is as it was. */
  lemma {:induction false} MarkMessagesAsReadSpec(st: Store, userId: string, otherUserId: string)
    requires MessageIdsUnique(st.messages)
    ensures var r := MarkMessagesAsRead(st, userId, otherUserId);
      && r == st.(messages := r.messages)
      && |r.messages| == |st.messages|
      && MessageIdsUnique(r.messages)
      && forall k :: 0 <= k < |st.messages| ==> r.messages[k] == ReadIfFor(st.messages[k], userId)
  {
    MarkEachSpec(st, st.messages, userId);
    var r := MarkMessagesAsRead(st, userId, otherUserId);
    forall k | 0 <= k < |st.messages|
      ensures r.messages[k] == ReadIfFor(st.messages[k], userId)
    {
      if Marks(st.messages, st.messages[k].id, userId) {
        var p :| 0 <= p < |st.messages| && st.messages[p].id == st.messages[k].id && st.messages[p].toId == userId;
        assert p == k;
      }
    }
  }

  /** Marking never turns a read message unread, and every message to the
      user ends up read. */
  lemma {:induction false} MarkMessagesAsReadMonotone(st: Store, userId: string, otherUserId: string)
    requires MessageIdsUnique(st.messages)
    ensures var r := MarkMessagesAsRead(st, userId, otherUserId);
      && |r.messages| == |st.messages|
      && (forall k :: 0 <= k < |st.messages| && st.messages[k].read ==> r.messages[k].read)
      && (forall k :: 0 <= k < |r.messages| && r.messages[k].toId == userId ==> r.messages[k].read)
  {
    MarkMessagesAsReadSpec(st, userId, otherUserId);
  }

  /** Marking twice is marking once, whoever the second counterpart is. */
  lemma {:induction false} MarkMessagesAsReadIdempotent(st: Store, userId: string, o1: string, o2: string)
    requires MessageIdsUnique(st.messages)
    ensures var r := MarkMessagesAsRead(st, userId, o1);
            MarkMessagesAsRead(r, userId, o2) == r
  {
    var r := MarkMessagesAsRead(st, userId, o1);
    MarkMessagesAsReadSpec(st, userId, o1);
    MarkMessagesAsReadSpec(r, userId, o2);
    var r2 := MarkMessagesAsRead(r, userId, o2);
    assert r2.messages == r.messages;
  }

  /** A user patch without an email keeps the emails distinct. */
  lemma {:induction false} UpdateWithoutEmailKeepsEmailsUnique(st: Store, id: string, p: UserPatch)
    requires EmailsUnique(st.users)
    requires p.email.None?
    ensures EmailsUnique(UpdateUser(st, id, p).store.users)
  {
    if HasUser(st.users, id) {
      var i := Seqs.IndexWhere(st.users, (u: User) => u.id == id);
      assert FirstUser(st.users, id, i);
    }
  }

  /** Nothing in `updateUser` guards the email: a patch can give a user
      another user's address. */
  lemma {:induction false} UpdateCanDuplicateEmail()
    ensures var a := User("a", "a@x", Some("p"), "A", None, None, "", "", "", 0, 0);
            var b := User("b", "b@x", Some("p"), "B", None, None, "", "", "", 0, 0);
            var st := EmptyStore.(users := [a, b]);
            && EmailsUnique(st.users)
            && !EmailsUnique(UpdateUser(st, "b", NoUserChange.(email := Some("a@x"))).store.users)
  {
    var a := User("a", "a@x", Some("p"), "A", None, None, "", "", "", 0, 0);
    var b := User("b", "b@x", Some("p"), "B", None, None, "", "", "", 0, 0);
    var st := EmptyStore.(users := [a, b]);
    assert FirstUser(st.users, "b", 1);
    var r := UpdateUser(st, "b", NoUserChange.(email := Some("a@x"))).store.users;
    assert r[0].email == r[1].email;
  }

  /** A freshly registered user can log in with the same credentials and
      gets their record back, without the password. */
  lemma {:induction false} CreateThenAuthenticate(st: Store, id: string, now: int, email: string, password: string,
                                                  name: string, skills: seq<string>, bio: string)
    requires !EmailTaken(st.users, email)
    ensures var r := CreateUser(st, id, now, email, password, name, skills, bio);
            r.result.Ok? && AuthenticateUser(r.store, email, password) == Some(r.result.value)
  {
    var r := CreateUser(st, id, now, email, password, name, skills, bio);
    var n := |st.users|;
    assert Credentials(r.store.users[n], email, password);
    forall k | 0 <= k < n ensures !Credentials(r.store.users[k], email, password) {
      assert r.store.users[k] == st.users[k];
    }
  }

  /** With distinct emails, an unknown email and a wrong password are
      refused alike; the right pair is accepted. */
  lemma {:induction false} AuthenticateNeedsBoth(st: Store, i: int, email: string, password: string)
    requires EmailsUnique(st.users)
    requires 0 <= i < |st.users| && st.users[i].email == email
    ensures AuthenticateUser(st, email, password).Some? <==> st.users[i].password == Some(password)
  {
    if AuthenticateUser(st, email, password).Some? {
      var k :| 0 <= k < |st.users| && Credentials(st.users[k], email, password);
      assert k == i;
    } else {
      assert !Credentials(st.users[i], email, password);
    }
  }
}
