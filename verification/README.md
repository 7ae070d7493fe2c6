# Campus job matching: a verified model of its core

This project models the core of a campus job board in Dafny. Students ("seekers") browse and apply to jobs. Posters ("finders") publish jobs and review applicants. The two sides chat. The model covers five parts:

- **Match score** (`MatchScore`): the weighted score between a seeker profile and a job, its four-part breakdown, and the ranked recommendation list.
- **Entity store** (`Database`): four collections (users, jobs, applications, messages) kept in storage order. Every operation is a pure function from a store to the next store and a result. Fresh ids and timestamps are parameters.
- **Query bodies** (`Queries`): the filtering and sorting bodies of `getJobs`, `getApplications` and `getMessages`, as pure functions.
- **Conversation list** (`Chat`): one entry per chat partner, with the last message and the unread count, plus the guard in front of sending.
- **Page rules** (`SeekerDashboard`, `FinderDashboard`, `JobDetail`, `Profile`):
  - the browse filter and the score tier;
  - the analytics tiles;
  - the comma-list forms and their join/parse round trip;
  - the apply flow and the application-status buttons;
  - the profile save and cancel.

Shared pieces:

- `Wrappers`: `Option` and `Result`.
- `Seqs`: filter, `findIndex`, slice and dedup, with their laws.
- `Text`: ASCII lowercasing, `includes`, `trim`, `split`, `join` and the comma-list parse.
- `Ranking`: a stable insertion sort on a two-level key, with sortedness, permutation and top-k lemmas.
- `Entities`: the four record types and the shallow merge `{ ...record, ...patch }`.

The database class declares `getJobs`, `getApplications` and `getMessages` twice, and in a JavaScript class body the later declaration wins. So the store operations follow the code, not the intended design:

- Every live `getX(filters)` call ignores its filters and returns the whole collection in storage order. `LiveGettersIgnoreFilters` states this.
- `markMessagesAsRead(u, o)` marks every message addressed to `u`, whoever sent it.
- The seeker's browse list includes drafts.
- The finder's analytics count every stored job.
- The applicant list under a job shows all applications.

The filtering bodies are modelled separately in `Queries`. The conversation list is built on them, because that is what the page is written against.

Other points where the model follows the code:

- `createJob` always stores status "active", even when the form says "draft".
- The page's seeker score on first mount is computed against an empty job. A stale `null` job is in scope at that point, so the final score is 3·k, where k counts completed profile items.

## Model

| member | source | states |
|---|---|---|
| MatchScore.CalculateMatchScore | src/services/matchScore.js:3-79 | score is non-negative; skill/tag percentages are non-negative; experience percentage lies in [25,100]; completeness percentage is 20 per satisfied profile item; a missing list on either side gives a 0 percentage |
| MatchScore.ScoreIsRoundedSum | src/services/matchScore.js:8-62 | the four weights always add up to 100, so the score is the rounded weighted sum of the four terms |
| MatchScore.WorkedExample | src/services/matchScore.js:8-62 | any complete profile with skills React, CSS, interest Startups and level intermediate, against any intermediate job asking React, CSS, HTML and tagged Startups, Remote, scores 74 with breakdown 67/50/100/100 |
| MatchScore.ListRatio | src/services/matchScore.js:10-17 | the overlap ratio is non-negative, zero when either list is missing, and zero (never full) for an empty required list because the divisor is at least 1 |
| MatchScore.ScoreBounds | src/services/matchScore.js:11-30 | with case-distinct skills and interests, score and every percentage lie in [0,100] |
| MatchScore.RepeatedSkillsOvershoot | src/services/matchScore.js:67-70 | skills React, react against required React give a skill percentage of 200 |
| MatchScore.LevelIndex | src/services/matchScore.js:37-39 | the index is -1..3; a non-negative index names the lowercased level; -1 means the level is not one of the four |
| MatchScore.ExperienceTerm | src/services/matchScore.js:36-48 | the term lies in [0,20]; it is 0 when either level is empty; it is 20 exactly when the seeker's index is at least the job's, which includes an unknown job level; otherwise it is 20·(u+1)/(j+1), and 0 for an unknown seeker level |
| MatchScore.ExperienceMatch | src/services/matchScore.js:81-92 | the breakdown value lies in [25,100]; it is 50 for missing or unknown levels; it is 100 exactly when both levels are known and the seeker's is at least the job's; a seeker who falls short gets round((u+1)/(j+1)·100), at most 75; with both levels known it is the experience score term scaled to 100 and rounded |
| MatchScore.UnderQualifiedShare | src/services/matchScore.js:89-91 | a seeker below the job's level gets between 25% and 75% of the experience weight |
| MatchScore.ExperienceViewsDisagree | src/services/matchScore.js:36-48 | an unknown seeker level against "advanced" gives breakdown 50 but score term 0 |
| MatchScore.EmptyJobScore | src/services/matchScore.js:53-59 | against an empty job the score is 3·k and the breakdown is (0, 0, 50, 20·k) |
| MatchScore.ScoreIgnoresCase | src/services/matchScore.js:13 | changing the letter case of skills, interests, tags or levels changes neither score nor breakdown |
| MatchScore.RecommendedJobs | src/services/matchScore.js:95-113 | every recommended job is active, comes from the input and carries its own score; the length is min(limit, number of active jobs); the list is ordered by score, then creation time, highest first; no entry occurs more often than among the scored active jobs |
| MatchScore.RecommendedJobsOfActive | src/pages/TalentSeekerDashboard.jsx:29-31 | without scores, no job is recommended more often than it occurs among the active jobs, and the jobs stay ordered best first |
| MatchScore.RecommendationsAreTop | src/services/matchScore.js:102-110 | no active job left out ranks above the last one returned |
| MatchScore.RecommendedJobsDefault | src/services/matchScore.js:95 | with the default limit exactly min(10, number of active jobs) come back |
| Ranking.Sort | src/services/matchScore.js:102-109 | the output is sorted by the key, highest first, and is a permutation of the input |
| Queries.QueryJobs | src/services/database.js:97-124 | the result holds exactly the jobs meeting every given option, each as often as stored, newest first |
| Queries.SearchIgnoresCase | src/services/database.js:109-115 | the search option gives the same list whatever the letter case of the term |
| Queries.QueryApplications | src/services/database.js:186-200 | the result holds exactly the matching applications, newest first |
| Queries.QueryMessages | src/services/database.js:230-247 | the result holds exactly the pair's messages, or the user's, or all, oldest first |
| Queries.NoFiltersKeepAll | src/services/database.js:97-124 | without options each query returns every record, only reordered |
| Database.LiveGettersIgnoreFilters | src/services/database.js:278-296 | the live getters return the raw collections whatever filters are passed |
| Database.CreateUser | src/services/database.js:25-46 | an email already present (exact match) fails with "User already exists" and leaves the store unchanged; otherwise exactly one record is appended and returned without password; email uniqueness is preserved |
| Database.AuthenticateUser | src/services/database.js:48-56 | a user comes back iff some record has both that email and password, and it is the first such record without its password |
| Database.AuthenticateNeedsBoth | src/services/database.js:48-56 | with distinct emails, login succeeds iff the stored password matches, so unknown email and wrong password fail alike |
| Database.CreateThenAuthenticate | src/services/database.js:25-56 | a user just created can log in with the same credentials and gets the created record back |
| Database.GetUser | src/services/database.js:58-66 | the first user with that id, without password, or nothing |
| Database.UpdateUser | src/services/database.js:68-77 | a missing id writes nothing; otherwise only the first record with that id is replaced by its merge with the patch, and that record is returned with its password |
| Database.UpdateWithoutEmailKeepsEmailsUnique | src/services/database.js:68-77 | a patch without an email keeps emails distinct |
| Database.UpdateCanDuplicateEmail | src/services/database.js:68-77 | a patch carrying another user's email makes two users share it |
| Database.CreateJob | src/services/database.js:80-95 | one job is appended; status is "active", counters are 0 and creation time is now, whatever the data says; the other fields come from the data |
| Database.GetJob | src/services/database.js:126-129 | the first job with that id, or nothing |
| Database.UpdateJob | src/services/database.js:131-140 | only the first job with that id changes, to its merge with the patch; a missing id writes nothing |
| Database.DeleteJob | src/services/database.js:142-147 | no job with that id remains, every other job keeps its multiplicity and order, the other collections are untouched, and the answer is true |
| Database.IncrementJobViews | src/services/database.js:149-154 | a missing id changes nothing; otherwise only the job collection changes, keeping its length |
| Database.IncrementOnce | src/services/database.js:149-154 | one call adds one view to the first job with that id, touches nothing else, and that job stays the first with its id |
| Database.IncrementViewsAddsN | src/services/database.js:149-154 | n calls add exactly n views to that job and change nothing else |
| Database.CreateApplication | src/services/database.js:157-184 | a repeated (job, applicant) pair fails with "Already applied to this job" and writes nothing; otherwise one "pending" application is appended and the first job with that id gains exactly one application |
| Database.ApplyTwice | src/services/database.js:157-184 | applying twice for the same pair stores one application and counts it once: the second call fails and changes nothing, and the job's application counter rises by one overall, or not at all when the pair had already applied |
| Database.UpdateApplication | src/services/database.js:202-211 | only the first application with that id is merged with the patch; a missing id writes nothing |
| Database.CreateMessage | src/services/database.js:214-228 | one unread message with the given ends, text and job is appended |
| Database.UpdateMessage | src/services/database.js:258-267 | only the first message with that id is merged with the patch; a missing id writes nothing |
| Database.MarkMessagesAsReadSpec | src/services/database.js:249-256 | with distinct message ids, exactly the messages addressed to the user become read, whoever sent them, and nothing else changes |
| Database.MarkMessagesAsReadMonotone | src/services/database.js:249-256 | no read flag is cleared, and every message to the user ends up read |
| Database.MarkMessagesAsReadIdempotent | src/services/database.js:249-256 | marking twice is marking once |
| Chat.PartnerIds | src/pages/ChatPage.jsx:41-52 | the partner ids are distinct and are exactly the other ends of the user's messages |
| Chat.Summarize | src/pages/ChatPage.jsx:52-63 | the unread count equals the independent count of the pair's unread messages to the user, so it is 0 exactly when none of the pair's messages is unread for the user; the last message exists iff the pair has messages, belongs to the pair and is a latest one |
| Chat.CountUnread | src/pages/ChatPage.jsx:56 | the count of unread messages to the user is at most the list's length, 0 iff none is unread for the user, and the full length iff all are |
| Chat.FilterCountsUnread | src/pages/ChatPage.jsx:56 | filtering for unread messages keeps exactly as many as the count, so the filtered length is 0 iff no message is unread for the user |
| Chat.Conversations | src/pages/ChatPage.jsx:40-71 | one entry per partner with distinct ids, each the summary for its partner, ordered by last-message time with entries lacking one last |
| Chat.ConversationCount | src/pages/ChatPage.jsx:52 | the list has as many entries as the user has partners |
| Chat.ConversationOrder | src/pages/ChatPage.jsx:64-68 | an entry with a last message is preceded only by entries with a last message at least as late |
| Chat.EveryEntryHasLastMessage | src/pages/ChatPage.jsx:54-55 | every entry has a last message |
| Chat.SelectingClearsUnread | src/pages/ChatPage.jsx:23-30 | the selection marks messages read without reloading the list; the next time the list is loaded, every entry shows 0 unread |
| Chat.SendMessage | src/pages/ChatPage.jsx:78-86 | blank text or no partner sends nothing; otherwise exactly one unread message carrying the trimmed text is appended |
| SeekerDashboard.FilterJobs | src/pages/TalentSeekerDashboard.jsx:35-52 | the result is a subsequence of the jobs and keeps a job iff the search is empty or hits it and the type is "all" or the job's |
| SeekerDashboard.FilterJobsIdempotent | src/pages/TalentSeekerDashboard.jsx:35-52 | filtering twice equals filtering once |
| SeekerDashboard.NoFilterShowsAll | src/pages/TalentSeekerDashboard.jsx:38-49 | an empty search with "all" returns the input |
| SeekerDashboard.FilterJobsIgnoresCase | src/pages/TalentSeekerDashboard.jsx:39 | the result does not depend on the letter case of the search |
| SeekerDashboard.ScoreTier | src/pages/TalentSeekerDashboard.jsx:169 | "high" iff the score is at least 70, "low" iff below 50 |
| SeekerDashboard.ScoreTierMonotone | src/pages/TalentSeekerDashboard.jsx:169 | a higher score never gets a lower tier |
| SeekerDashboard.LoadJobs | src/pages/TalentSeekerDashboard.jsx:27-33 | the browse list is the whole job collection; at most 5 recommendations, all active and stored, none recommended more often than it is stored as active, ordered best match first |
| SeekerDashboard.DraftsAreBrowsed | src/pages/TalentSeekerDashboard.jsx:28 | a stored draft appears in the browse list |
| FinderDashboard.Tally | src/pages/TalentFinderDashboard.jsx:29-31 | total views and applications are the sums over the jobs; the active count is the number of active jobs, at most the list length |
| FinderDashboard.CalculateAnalytics | src/pages/TalentFinderDashboard.jsx:27-34 | the tiles are computed over every stored job |
| FinderDashboard.InitialJobForm | src/pages/TalentFinderDashboard.jsx:206-216 | a new form has type "academic-projects", level "intermediate" and status "draft"; an edit form takes the job's values, defaults filling empty ones, with tags and required skills joined by ", " |
| FinderDashboard.SubmitJobForm | src/pages/TalentFinderDashboard.jsx:218-234 | the patch sets exactly the nine form fields; its lists are the comma-list parses of the two text fields, so they hold only non-empty, trimmed, comma-free items |
| FinderDashboard.EditKeepsIdentity | src/pages/TalentFinderDashboard.jsx:43-48 | an edit keeps id, owner, creation time and counters |
| FinderDashboard.PostedJobIsActive | src/pages/TalentFinderDashboard.jsx:36-41 | a job posted from a new form is stored active although the form says "draft" |
| FinderDashboard.UneditedSubmitChangesNothing | src/pages/TalentFinderDashboard.jsx:210-226 | submitting an unedited form writes a well-formed job back unchanged |
| Text.ParseList | src/pages/TalentFinderDashboard.jsx:225-226 | every parsed item is non-empty, trimmed and comma-free |
| Text.TrimAndDropIsFilter | src/pages/TalentFinderDashboard.jsx:225-226 | the parse keeps exactly the non-blank trimmed pieces, in order |
| Text.ParseBlank | src/pages/TalentFinderDashboard.jsx:225-226 | text made only of commas and whitespace parses to no items |
| Text.ParseJoin | src/pages/TalentFinderDashboard.jsx:210-226 | parsing the ", "-join of well-formed items gives the items back |
| Text.JoinSplit | src/pages/TalentFinderDashboard.jsx:225 | joining the split pieces with the separator gives the text back |
| Text.Trim | src/pages/ChatPage.jsx:80 | the result has no surrounding whitespace, is a piece of the input with only whitespace cut from either end, and is empty iff the input is all whitespace |
| Text.TrimIsUnique | src/pages/ChatPage.jsx:80 | any non-empty piece cut from the input by removing only whitespace, with no whitespace left at its ends, is the trim result |
| Text.Utf16Length | src/services/matchScore.js:55 | a string's JavaScript length is between its character count and twice that |
| Text.Utf16LengthIsLength | src/services/matchScore.js:55 | the JavaScript length equals the character count exactly when no character lies outside the Basic Multilingual Plane |
| JobDetail.LoadJob | src/pages/JobDetailPage.jsx:30-41 | the job shown is the first stored one with that id; a missing job leaves the store unchanged and shows no score; only jobs change; a seeker is scored against the job as read |
| JobDetail.Mount | src/pages/JobDetailPage.jsx:20-28 | the seeker's final score is computed against the stale job or an empty one; a finder gets all stored applications |
| JobDetail.FirstVisitScoresEmptyJob | src/pages/JobDetailPage.jsx:20-28 | on a first visit the score shown is 3·k with breakdown (0, 0, 50, 20·k) |
| JobDetail.VisitAddsOneView | src/pages/JobDetailPage.jsx:30-41 | a visit adds one view to that job and changes no other job |
| JobDetail.HandleApply | src/pages/JobDetailPage.jsx:48-62 | a duplicate surfaces "Already applied to this job" with the store unchanged; otherwise a pending application with the message and no resume is stored |
| JobDetail.SetStatus | src/pages/JobDetailPage.jsx:64-67 | the first application with that id takes the button's status and nothing else changes; an unknown id changes nothing |
| JobDetail.Press | src/pages/JobDetailPage.jsx:263-283 | a disabled button changes nothing; an enabled one sets that application's status to its target, which differs from the old one, and touches nothing else |
| JobDetail.NeverBackToPending | src/pages/JobDetailPage.jsx:64-67 | a status a button changed is never "pending" |
| JobDetail.LeftPendingForGood | src/pages/JobDetailPage.jsx:263-283 | once out of "pending", no series of presses returns there |
| JobDetail.ApplicantList | src/pages/JobDetailPage.jsx:213-229 | the list appears only for the finder who owns the job, and then holds every stored application |
| JobDetail.ApplicantListIsNotPerJob | src/pages/JobDetailPage.jsx:213-229 | an application to another job is listed, though the job query would exclude it |
| Profile.InitialProfileForm | src/pages/ProfilePage.jsx:10-16 | the form takes the user's name and bio, skills and interests joined by ", ", and the level defaults to "intermediate" |
| Profile.SavePatch | src/pages/ProfilePage.jsx:19-27 | the patch sets exactly name, bio, skills, interests and level, never email or password; skills and interests are the comma-list parses of the text fields, hence well formed |
| Profile.MergeIsWithForm | src/pages/ProfilePage.jsx:19-27 | merging the save patch writes the five form fields and keeps every other field of the user |
| Profile.Save | src/contexts/AuthContext.jsx:75-80 | the session user and the first stored user with its id both become the old record with exactly the five form fields written in; every other user and every other collection is unchanged; an unknown id leaves the store alone |
| Profile.SaveStored | src/services/database.js:68-77 | the update replaces only the first user with that id, by that user with the form written in |
| Profile.SaveKeepsEmailsUnique | src/pages/ProfilePage.jsx:19-27 | saving a profile keeps emails distinct |
| Profile.UneditedSaveKeepsProfile | src/pages/ProfilePage.jsx:10-27 | saving an unedited form gives a well-formed user back unchanged |
| Profile.Cancel | src/pages/ProfilePage.jsx:29-38 | whatever was typed, the form goes back to the user's name, bio, joined lists and level ("intermediate" when the user has none); without a user the text fields are blank and the level is "intermediate" |
| Profile.CancelThenSaveKeepsProfile | src/pages/ProfilePage.jsx:29-38 | after cancelling any edits, saving gives the user back unchanged |
| Entities.WithoutPassword | src/services/database.js:52-53 | the result has no password and differs from the record in nothing else |

## Left out

- Persistence: localStorage and JSON (de)serialisation. The store is an in-memory value.
- Ids and timestamps: `generateId` and `new Date()` are parameters. Timestamps are integers standing for the ISO strings.
- Database.MarkMessagesAsReadSpec: the pointwise result assumes distinct message ids, as `generateId` is meant to give. With repeated ids, `updateMessage` would update only the first record.
- Database.MarkMessagesAsReadMonotone: assumes distinct message ids, for the same reason. With a repeated id, a later record with that id addressed to the user could stay unread.
- Database.MarkMessagesAsReadIdempotent: assumes distinct message ids, for the same reason.
- Chat.SelectingClearsUnread: assumes distinct message ids, for the same reason. With a repeated id, a partner's entry could still show an unread message after the next load.
- JobDetail.Press: assumes the pressed card is the first stored application with its id, as distinct `generateId` ids give. With a repeated id, the button's enabled state would be read from one record while `updateApplication` writes another. `JobDetail.NeverBackToPending`, `JobDetail.PressAll` and `JobDetail.LeftPendingForGood` make the same assumption.
- Seed data: `seedDemoData` only loads fixture records and is not modelled.
- Floating point: scores use exact rational arithmetic with round(x) = floor(x + 1/2). IEEE-754 artefacts such as the accumulated 0.2 steps in completeness are not modelled.
- Unicode case and whitespace: `toLowerCase` is modelled on ASCII letters only. `trim` uses the ECMAScript white-space and line-terminator set.
- Merge limits: a patch can set a field but cannot unset one. JavaScript's `undefined`-valued keys are not modelled.
- Tags treated as empty: a job without a `tags` array is treated as having no tags in the search filters. The source would throw there.
- MatchScore.ScoreBounds: bounded to [0,100] only for case-distinct skills and interests. Repeated skills overshoot, as `RepeatedSkillsOvershoot` shows.
- Ranking.Sort: stability of the sort is not stated as a lemma. Only sortedness and permutation are.
- FinderDashboard.Tally: sums from the end of the list rather than the front. Integer sums do not depend on order.
- Queries.SearchIgnoresCase: the job query's search option is proved case-insensitive, but its `tags` option is case-sensitive, as in the code.
- Chat.Conversations: built on the filtering message query, which the page is written against. The live `getMessages` ignores its filters, so at run time every stored message would count toward every partner's summary; that degenerate list is not modelled.
- UI plumbing: React state, rendering, alerts, confirmations, navigation and routing. Also the session plumbing of AuthContext other than `updateProfile`.
- Static and I/O files: LandingPage.jsx, RoleSelectionModal.jsx and extract-pdf.js are not part of this model.
- Concurrency: cross-tab lost updates are not modelled.
