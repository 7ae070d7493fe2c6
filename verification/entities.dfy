/** The four record kinds of the store and the shallow merge
    `{ ...record, ...patch }` used by every update.

    JavaScript records may lack fields. A string field that the code only
    ever tests for truthiness (`if (user.name)`, `job?.budget || ''`) is a
    `string` here, with "" standing for both the empty and the missing
    value, because every reader treats the two alike. Array fields are
    `Option`s, because an empty array is truthy and a missing one is not.
    Timestamps are integers standing for the ISO strings `Date` compares. */
module Entities {
  import opened Wrappers

  datatype User = User(
    id: string,
    email: string,
    password: Option<string>,
    name: string,
    skills: Option<seq<string>>,
    interests: Option<seq<string>>,
    bio: string,
    experienceLevel: string,
    profilePicture: string,
    createdAt: int,
    profileScore: int)

  datatype Job = Job(
    id: string,
    userId: string,
    title: string,
    description: string,
    jobType: string,
    tags: Option<seq<string>>,
    requiredSkills: Option<seq<string>>,
    experienceLevel: string,
    location: string,
    budget: string,
    status: string,
    createdAt: int,
    views: int,
    applications: int,
    interested: int)

  datatype Application = Application(
    id: string,
    jobId: string,
    userId: string,
    message: string,
    resumeUrl: Option<string>,
    status: string,
    createdAt: int)

  datatype Message = Message(
    id: string,
    fromId: string,
    toId: string,
    jobId: Option<string>,
    text: string,
    read: bool,
    createdAt: int)

  /** The `{}` a page passes in place of a job it has not loaded. */
  const EmptyJob := Job("", "", "", "", "", None, None, "", "", "", "", 0, 0, 0, 0)

  /** The fields a caller may put in an update: present fields overwrite,
      absent ones leave the stored value. Nothing restricts which fields. */
  datatype UserPatch = UserPatch(
    id: Option<string>,
    email: Option<string>,
    password: Option<string>,
    name: Option<string>,
    skills: Option<seq<string>>,
    interests: Option<seq<string>>,
    bio: Option<string>,
    experienceLevel: Option<string>,
    profilePicture: Option<string>,
    createdAt: Option<int>,
    profileScore: Option<int>)

  datatype JobPatch = JobPatch(
    id: Option<string>,
    userId: Option<string>,
    title: Option<string>,
    description: Option<string>,
    jobType: Option<string>,
    tags: Option<seq<string>>,
    requiredSkills: Option<seq<string>>,
    experienceLevel: Option<string>,
    location: Option<string>,
    budget: Option<string>,
    status: Option<string>,
    createdAt: Option<int>,
    views: Option<int>,
    applications: Option<int>,
    interested: Option<int>)

  datatype ApplicationPatch = ApplicationPatch(
    id: Option<string>,
    jobId: Option<string>,
    userId: Option<string>,
    message: Option<string>,
    resumeUrl: Option<string>,
    status: Option<string>,
    createdAt: Option<int>)

  datatype MessagePatch = MessagePatch(
    id: Option<string>,
    fromId: Option<string>,
    toId: Option<string>,
    jobId: Option<string>,
    text: Option<string>,
    read: Option<bool>,
    createdAt: Option<int>)

  const NoUserChange := UserPatch(None, None, None, None, None, None, None, None, None, None, None)
  const NoJobChange := JobPatch(None, None, None, None, None, None, None, None, None, None, None, None, None, None, None)
  const NoApplicationChange := ApplicationPatch(None, None, None, None, None, None, None)
  const NoMessageChange := MessagePatch(None, None, None, None, None, None, None)

  /** One field of a shallow merge: the patch's value if it has one. */
  function Pick<T>(current: T, patch: Option<T>): T {
    if patch.Some? then patch.value else current
  }

  /** One optional field of a shallow merge. */
  function PickOpt<T>(current: Option<T>, patch: Option<T>): Option<T> {
    if patch.Some? then patch else current
  }

  /** `{ ...u, ...p }`. */
  function MergeUser(u: User, p: UserPatch): User {
    User(
      Pick(u.id, p.id), Pick(u.email, p.email), PickOpt(u.password, p.password),
      Pick(u.name, p.name), PickOpt(u.skills, p.skills), PickOpt(u.interests, p.interests),
      Pick(u.bio, p.bio), Pick(u.experienceLevel, p.experienceLevel),
      Pick(u.profilePicture, p.profilePicture), Pick(u.createdAt, p.createdAt),
      Pick(u.profileScore, p.profileScore))
  }

  /** `{ ...j, ...p }`. */
  function MergeJob(j: Job, p: JobPatch): Job {
    Job(
      Pick(j.id, p.id), Pick(j.userId, p.userId), Pick(j.title, p.title),
      Pick(j.description, p.description), Pick(j.jobType, p.jobType),
      PickOpt(j.tags, p.tags), PickOpt(j.requiredSkills, p.requiredSkills),
      Pick(j.experienceLevel, p.experienceLevel), Pick(j.location, p.location),
      Pick(j.budget, p.budget), Pick(j.status, p.status), Pick(j.createdAt, p.createdAt),
      Pick(j.views, p.views), Pick(j.applications, p.applications),
      Pick(j.interested, p.interested))
  }

  /** `{ ...a, ...p }`. */
  function MergeApplication(a: Application, p: ApplicationPatch): Application {
    Application(
      Pick(a.id, p.id), Pick(a.jobId, p.jobId), Pick(a.userId, p.userId),
      Pick(a.message, p.message), PickOpt(a.resumeUrl, p.resumeUrl),
      Pick(a.status, p.status), Pick(a.createdAt, p.createdAt))
  }

  /** `{ ...m, ...p }`. */
  function MergeMessage(m: Message, p: MessagePatch): Message {
    Message(
      Pick(m.id, p.id), Pick(m.fromId, p.fromId), Pick(m.toId, p.toId),
      PickOpt(m.jobId, p.jobId), Pick(m.text, p.text), Pick(m.read, p.read),
      Pick(m.createdAt, p.createdAt))
  }

  /** Shallow merge is idempotent and an empty patch changes nothing: the
      merged record holds exactly the patch's fields over the original. */
  lemma MergeLaws(u: User, j: Job, a: Application, m: Message,
                  pu: UserPatch, pj: JobPatch, pa: ApplicationPatch, pm: MessagePatch)
    ensures MergeUser(MergeUser(u, pu), pu) == MergeUser(u, pu) && MergeUser(u, NoUserChange) == u
    ensures MergeJob(MergeJob(j, pj), pj) == MergeJob(j, pj) && MergeJob(j, NoJobChange) == j
    ensures MergeApplication(MergeApplication(a, pa), pa) == MergeApplication(a, pa)
    ensures MergeApplication(a, NoApplicationChange) == a
    ensures MergeMessage(MergeMessage(m, pm), pm) == MergeMessage(m, pm) && MergeMessage(m, NoMessageChange) == m
  {
  }

  /** The record with its password field removed, as the read operations return it. */
  function WithoutPassword(u: User): (r: User)
    ensures r.password.None?
    ensures r.(password := u.password) == u
  {
    u.(password := None)
  }
}
