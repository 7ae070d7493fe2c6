/** The compatibility score between a seeker and a job, its four-part
    breakdown, and the recommendation ranking built on it.

    Arithmetic is exact: the source's floating-point ratios are `real`s and
    `Math.round` is `Round`, the floor of x + 1/2. */
module MatchScore {
  import opened Wrappers
  import opened Entities
  import opened Ranking
  import Text
  import Seqs

  const SkillWeight := 40
  const TagWeight := 25
  const ExperienceWeight := 20
  const ProfileWeight := 15

  /** The sum of the weights of the factors evaluated; every factor is
      always evaluated, whatever data is missing. */
  const MaxScore := SkillWeight + TagWeight + ExperienceWeight + ProfileWeight

  /** The ordinal experience scale. */
  const Levels: seq<string> := ["beginner", "intermediate", "advanced", "expert"]

  /** `Math.round` on exact values: the nearest integer, halves rounded up. */
  function Round(x: real): (n: int)
    ensures n as real - 0.5 <= x < n as real + 0.5
  {
    (x + 0.5).Floor
  }

  /** Rounding is monotone and leaves integers unchanged. */
  lemma {:induction false} RoundFacts(x: real, y: real, n: int)
    ensures x <= y ==> Round(x) <= Round(y)
    ensures Round(n as real) == n
  {
  }

  predicate SameIgnoringCase(a: string, b: string) {
    Text.Lower(a) == Text.Lower(b)
  }

  /** `ys.some(y => y.toLowerCase() === x.toLowerCase())`. */
  predicate MatchesSome(x: string, ys: seq<string>) {
    exists k :: 0 <= k < |ys| && SameIgnoringCase(ys[k], x)
  }

  /** `xs.filter(x => MatchesSome(x, ys)).length`: how many entries of `xs`
      (repeats counted) equal, ignoring case, some entry of `ys`. */
  function MatchCount(xs: seq<string>, ys: seq<string>): (n: nat)
    ensures n <= |xs|
    decreases |xs|
  {
    if |xs| == 0 then 0
    else (if MatchesSome(xs[0], ys) then 1 else 0) + MatchCount(xs[1..], ys)
  }

  /** `count / Math.max(total, 1)`. */
  function Ratio(count: nat, total: nat): real {
    count as real / (if total > 1 then total else 1) as real
  }

  /** The fraction of the job's list matched by the seeker's list; 0 when
      either array is missing. */
  function ListRatio(mine: Option<seq<string>>, wanted: Option<seq<string>>): (q: real)
    ensures q >= 0.0
    ensures mine.None? || wanted.None? ==> q == 0.0
    ensures wanted.Some? && |wanted.value| == 0 ==> q == 0.0
  {
    if mine.Some? && wanted.Some? then
      NothingMatchesEmpty(mine.value, wanted.value);
      Ratio(MatchCount(mine.value, wanted.value), |wanted.value|)
    else 0.0
  }

  /** Against an empty list nothing matches. */
  lemma {:induction false} NothingMatchesEmpty(xs: seq<string>, ys: seq<string>)
    ensures |ys| == 0 ==> MatchCount(xs, ys) == 0
    decreases |xs|
  {
    if |xs| > 0 {
      NothingMatchesEmpty(xs[1..], ys);
    }
  }

  /** `levels.indexOf(level.toLowerCase())`. */
  function LevelIndex(level: string): (i: int)
    ensures -1 <= i < |Levels|
    ensures i >= 0 ==> Levels[i] == Text.Lower(level)
    ensures i == -1 ==> Text.Lower(level) !in Levels
  {
    var l := Text.Lower(level);
    if l == Levels[0] then 0
    else if l == Levels[1] then 1
    else if l == Levels[2] then 2
    else if l == Levels[3] then 3
    else -1
  }

  /** The experience term of the score: nothing unless both levels are
      given; full weight when the seeker's index reaches the job's
      (an unrecognised job level has index -1, so always); otherwise
      partial credit (u + 1) / (j + 1). */
  function ExperienceTerm(userLevel: string, jobLevel: string): (t: real)
    ensures 0.0 <= t <= ExperienceWeight as real
    ensures userLevel == "" || jobLevel == "" ==> t == 0.0
    ensures userLevel != "" && jobLevel != "" ==>
      (t == ExperienceWeight as real <==> LevelIndex(userLevel) >= LevelIndex(jobLevel))
    ensures userLevel != "" && jobLevel != "" && LevelIndex(jobLevel) == -1 ==> t == ExperienceWeight as real
    ensures userLevel != "" && jobLevel != "" && LevelIndex(userLevel) < LevelIndex(jobLevel) ==>
      t * (LevelIndex(jobLevel) + 1) as real == ((LevelIndex(userLevel) + 1) * ExperienceWeight) as real
    ensures userLevel != "" && LevelIndex(userLevel) == -1 && jobLevel != "" && LevelIndex(jobLevel) >= 0 ==> t == 0.0
  {
    if userLevel == "" || jobLevel == "" then 0.0
    else
      var u := LevelIndex(userLevel);
      var j := LevelIndex(jobLevel);
      if u >= j then ExperienceWeight as real
      else ((u + 1) as real / (j + 1) as real) * ExperienceWeight as real
  }

  /** `calculateExperienceMatch`: the breakdown's experience percentage,
      neutral 50 when a level is missing or unrecognised. */
  function ExperienceMatch(userLevel: string, jobLevel: string): (p: int)
    ensures 25 <= p <= 100
    ensures userLevel == "" || jobLevel == "" ==> p == 50
    ensures LevelIndex(userLevel) == -1 || LevelIndex(jobLevel) == -1 ==> p == 50
    ensures p == 100 <==> userLevel != "" && jobLevel != "" && 0 <= LevelIndex(jobLevel) <= LevelIndex(userLevel)
    ensures userLevel != "" && jobLevel != "" && 0 <= LevelIndex(userLevel) < LevelIndex(jobLevel) ==> p <= 75
    ensures userLevel != "" && jobLevel != "" && 0 <= LevelIndex(userLevel) < LevelIndex(jobLevel) ==>
      p == Round(((LevelIndex(userLevel) + 1) as real / (LevelIndex(jobLevel) + 1) as real) * 100.0)
    ensures userLevel != "" && jobLevel != "" && LevelIndex(userLevel) >= 0 && LevelIndex(jobLevel) >= 0 ==>
      p == Round(ExperienceTerm(userLevel, jobLevel) * 5.0)
  {
    if userLevel == "" || jobLevel == "" then 50
    else
      var u := LevelIndex(userLevel);
      var j := LevelIndex(jobLevel);
      if u == -1 || j == -1 then 50
      else if u >= j then 100
      else
        UnderQualifiedShare(u, j);
        RoundFacts(((u + 1) as real / (j + 1) as real) * 100.0, 75.0, 75);
        Round(((u + 1) as real / (j + 1) as real) * 100.0)
  }

  /** A seeker below the job's level earns at most three quarters of the
      experience percentage: the best case is one level short of the top. */
  lemma {:induction false} UnderQualifiedShare(u: int, j: int)
    requires 0 <= u < j < |Levels|
    ensures 25.0 <= ((u + 1) as real / (j + 1) as real) * 100.0 <= 75.0
  {
    if j == 1 {
      assert u == 0;
    } else if j == 2 {
      assert u == 0 || u == 1;
    } else {
      assert u == 0 || u == 1 || u == 2;
    }
  }

  /** How many of the five profile items are present: a name, a bio longer
      than 50 UTF-16 code units (JavaScript's `length`), a non-empty skills
      list, an experience level and a profile picture. */
  function CompletenessCount(u: User): (k: nat)
    ensures k <= 5
  {
    (if u.name != "" then 1 else 0)
    + (if Text.Utf16Length(u.bio) > 50 then 1 else 0)
    + (if u.skills.Some? && |u.skills.value| > 0 then 1 else 0)
    + (if u.experienceLevel != "" then 1 else 0)
    + (if u.profilePicture != "" then 1 else 0)
  }

  datatype Breakdown = Breakdown(skillMatch: int, tagMatch: int, experienceMatch: int, profileCompleteness: int)

  datatype MatchResult = MatchResult(score: int, breakdown: Breakdown)

  /** The weighted sum before rounding. */
  function WeightedSum(u: User, j: Job): real {
    ListRatio(u.skills, j.requiredSkills) * SkillWeight as real
    + ListRatio(u.interests, j.tags) * TagWeight as real
    + ExperienceTerm(u.experienceLevel, j.experienceLevel)
    + (CompletenessCount(u) as real * 0.2) * ProfileWeight as real
  }

  /** `calculateMatchScore(user, job)`. */
  function CalculateMatchScore(u: User, j: Job): (r: MatchResult)
    ensures r.score >= 0
    ensures r.breakdown.skillMatch >= 0 && r.breakdown.tagMatch >= 0
    ensures 25 <= r.breakdown.experienceMatch <= 100
    ensures r.breakdown.profileCompleteness == 20 * CompletenessCount(u)
    ensures u.skills.None? || j.requiredSkills.None? ==> r.breakdown.skillMatch == 0
    ensures u.interests.None? || j.tags.None? ==> r.breakdown.tagMatch == 0
  {
    var score := if MaxScore > 0 then Round((WeightedSum(u, j) / MaxScore as real) * 100.0) else 0;
    var breakdown := Breakdown(
      if u.skills.Some? && j.requiredSkills.Some? then Round(ListRatio(u.skills, j.requiredSkills) * 100.0) else 0,
      if u.interests.Some? && j.tags.Some? then Round(ListRatio(u.interests, j.tags) * 100.0) else 0,
      ExperienceMatch(u.experienceLevel, j.experienceLevel),
      Round(CompletenessCount(u) as real * 0.2 * 100.0));
    RoundFacts(0.0, WeightedSum(u, j), 0);
    RoundFacts(0.0, ListRatio(u.skills, j.requiredSkills) * 100.0, 0);
    RoundFacts(0.0, ListRatio(u.interests, j.tags) * 100.0, 0);
    RoundFacts(0.0, 0.0, 20 * CompletenessCount(u));
    assert CompletenessCount(u) as real * 0.2 * 100.0 == (20 * CompletenessCount(u)) as real;
    MatchResult(score, breakdown)
  }

  /** The weights add up to 100, so the score is the weighted sum rounded. */
  lemma {:induction false} ScoreIsRoundedSum(u: User, j: Job)
    ensures MaxScore == 100
    ensures CalculateMatchScore(u, j).score == Round(WeightedSum(u, j))
  {
    assert (WeightedSum(u, j) / 100.0) * 100.0 == WeightedSum(u, j);
  }

  /** The worked example: any complete profile with skills React and CSS and
      interest Startups, at level intermediate, against any job asking for
      React, CSS and HTML, tagged Startups and Remote, at level
      intermediate, gives breakdown 67/50/100/100 and score 74. */
  lemma WorkedExample(seeker: User, job: Job)
    requires seeker.skills == Some(["React", "CSS"]) && seeker.interests == Some(["Startups"])
    requires seeker.experienceLevel == "intermediate" && CompletenessCount(seeker) == 5
    requires job.requiredSkills == Some(["React", "CSS", "HTML"]) && job.tags == Some(["Startups", "Remote"])
    requires job.experienceLevel == "intermediate"
    ensures CalculateMatchScore(seeker, job) == MatchResult(74, Breakdown(67, 50, 100, 100))
  {
    var skill := ListRatio(seeker.skills, job.requiredSkills);
    var tag := ListRatio(seeker.interests, job.tags);
    ExampleSkillRatio();
    ExampleTagRatio();
    IntermediateIndex();
    assert ExperienceTerm(seeker.experienceLevel, job.experienceLevel) == 20.0;
    assert ExperienceMatch(seeker.experienceLevel, job.experienceLevel) == 100;
    assert WeightedSum(seeker, job) == 80.0 / 3.0 + 12.5 + 20.0 + 15.0;
    ScoreIsRoundedSum(seeker, job);
    assert Round(WeightedSum(seeker, job)) == 74;
    assert Round(skill * 100.0) == 67;
    assert Round(tag * 100.0) == 50;
  }

  lemma IntermediateIndex()
    ensures LevelIndex("intermediate") == 1
  {
    Text.LowerOfLowercase("intermediate");
  }

  lemma ExampleSkillRatio()
    ensures ListRatio(Some(["React", "CSS"]), Some(["React", "CSS", "HTML"])) == 2.0 / 3.0
  {
    var skills := ["React", "CSS"];
    var required := ["React", "CSS", "HTML"];
    assert Text.Lower("React") == "react";
    assert Text.Lower("CSS") == "css";
    assert Text.Lower("HTML") == "html";
    assert MatchesSome("React", required) by { assert SameIgnoringCase(required[0], "React"); }
    assert MatchesSome("CSS", required) by { assert SameIgnoringCase(required[1], "CSS"); }
    assert skills[1..] == ["CSS"];
    assert skills[1..][1..] == [];
  }

  lemma ExampleTagRatio()
    ensures ListRatio(Some(["Startups"]), Some(["Startups", "Remote"])) == 0.5
  {
    var tags := ["Startups", "Remote"];
    assert SameIgnoringCase(tags[0], "Startups");
    assert ["Startups"][1..] == [];
  }

  /** No two entries of `xs` are equal once lowercased. */
  predicate DistinctIgnoringCase(xs: seq<string>) {
    forall i, j :: 0 <= i < j < |xs| ==> Text.Lower(xs[i]) != Text.Lower(xs[j])
  }

  /** `ys` without the entries equal to `x` ignoring case. */
  function DropSame(ys: seq<string>, x: string): (r: seq<string>)
    ensures |r| <= |ys|
    decreases |ys|
  {
    if |ys| == 0 then []
    else if SameIgnoringCase(ys[0], x) then DropSame(ys[1..], x)
    else [ys[0]] + DropSame(ys[1..], x)
  }

  /** Dropping `x` shortens a list that matches it and changes no other
      entry's match. */
  lemma {:induction false} DropSameSpec(ys: seq<string>, x: string)
    ensures MatchesSome(x, ys) ==> |DropSame(ys, x)| < |ys|
    ensures forall z :: !SameIgnoringCase(z, x) ==> (MatchesSome(z, DropSame(ys, x)) <==> MatchesSome(z, ys))
    decreases |ys|
  {
    if |ys| > 0 {
      DropSameSpec(ys[1..], x);
      var rest := DropSame(ys[1..], x);
      var r := DropSame(ys, x);
      forall z | !SameIgnoringCase(z, x)
        ensures MatchesSome(z, r) <==> MatchesSome(z, ys)
      {
        MatchesSomeCons(z, ys);
        if !SameIgnoringCase(ys[0], x) {
          MatchesSomeCons(z, r);
          assert r[1..] == rest;
        }
      }
      if MatchesSome(x, ys) && !SameIgnoringCase(ys[0], x) {
        MatchesSomeCons(x, ys);
      }
    }
  }

  lemma {:induction false} MatchesSomeCons(z: string, ys: seq<string>)
    requires |ys| > 0
    ensures MatchesSome(z, ys) <==> SameIgnoringCase(ys[0], z) || MatchesSome(z, ys[1..])
  {
    if MatchesSome(z, ys) && !SameIgnoringCase(ys[0], z) {
      var k :| 0 <= k < |ys| && SameIgnoringCase(ys[k], z);
      assert ys[1..][k - 1] == ys[k];
    }
    if MatchesSome(z, ys[1..]) {
      var k :| 0 <= k < |ys[1..]| && SameIgnoringCase(ys[1..][k], z);
      assert ys[k + 1] == ys[1..][k];
    }
  }

  /** Entries that differ from `x` ignoring case match a list with `x` dropped
      exactly as often as they match the whole list. */
  lemma {:induction false} MatchCountDrop(xs: seq<string>, ys: seq<string>, x: string)
    requires forall i :: 0 <= i < |xs| ==> !SameIgnoringCase(xs[i], x)
    ensures MatchCount(xs, DropSame(ys, x)) == MatchCount(xs, ys)
    decreases |xs|
  {
    if |xs| > 0 {
      MatchCountDrop(xs[1..], ys, x);
      DropSameSpec(ys, x);
    }
  }

  /** With no repeats (ignoring case) among the seeker's entries, at most
      one entry per job entry can match. */
  lemma {:induction false} MatchCountAtMost(xs: seq<string>, ys: seq<string>)
    requires DistinctIgnoringCase(xs)
    ensures MatchCount(xs, ys) <= |ys|
    decreases |xs|
  {
    if |xs| > 0 {
      var tail := xs[1..];
      assert DistinctIgnoringCase(tail) by {
        forall i, j | 0 <= i < j < |tail| ensures Text.Lower(tail[i]) != Text.Lower(tail[j]) {
          assert tail[i] == xs[i + 1] && tail[j] == xs[j + 1];
        }
      }
      if MatchesSome(xs[0], ys) {
        assert forall i :: 0 <= i < |tail| ==> !SameIgnoringCase(tail[i], xs[0]) by {
          forall i | 0 <= i < |tail| ensures !SameIgnoringCase(tail[i], xs[0]) {
            assert tail[i] == xs[i + 1];
          }
        }
        MatchCountDrop(tail, ys, xs[0]);
        DropSameSpec(ys, xs[0]);
        MatchCountAtMost(tail, DropSame(ys, xs[0]));
      } else {
        MatchCountAtMost(tail, ys);
      }
    }
  }

  /** A list ratio stays within [0, 1] when the seeker's entries are
      distinct ignoring case. */
  lemma {:induction false} ListRatioAtMostOne(mine: Option<seq<string>>, wanted: Option<seq<string>>)
    requires mine.Some? ==> DistinctIgnoringCase(mine.value)
    ensures 0.0 <= ListRatio(mine, wanted) <= 1.0
  {
    if mine.Some? && wanted.Some? {
      MatchCountAtMost(mine.value, wanted.value);
    }
  }

  /** When the seeker's skills are pairwise distinct ignoring case, and
      likewise the interests, the score and the skill and tag percentages
      all lie in [0, 100]. */
  lemma {:induction false} ScoreBounds(u: User, j: Job)
    requires u.skills.Some? ==> DistinctIgnoringCase(u.skills.value)
    requires u.interests.Some? ==> DistinctIgnoringCase(u.interests.value)
    ensures var r := CalculateMatchScore(u, j);
      && 0 <= r.score <= 100
      && 0 <= r.breakdown.skillMatch <= 100
      && 0 <= r.breakdown.tagMatch <= 100
      && 0 <= r.breakdown.profileCompleteness <= 100
  {
    ListRatioAtMostOne(u.skills, j.requiredSkills);
    ListRatioAtMostOne(u.interests, j.tags);
    ScoreIsRoundedSum(u, j);
    assert WeightedSum(u, j) <= 100.0;
    RoundFacts(WeightedSum(u, j), 100.0, 100);
    RoundFacts(ListRatio(u.skills, j.requiredSkills) * 100.0, 100.0, 100);
    RoundFacts(ListRatio(u.interests, j.tags) * 100.0, 100.0, 100);
  }

  /** Why the bound needs distinct entries: the code counts the seeker's
      entries, so skills React and react against a job requiring React give
      a skill percentage of 200. */
  lemma RepeatedSkillsOvershoot()
    ensures var u := User("u", "e", None, "", Some(["React", "react"]), None, "", "", "", 0, 0);
            var j := EmptyJob.(requiredSkills := Some(["React"]));
            CalculateMatchScore(u, j).breakdown.skillMatch == 200
  {
    assert Text.Lower("React") == "react";
    assert Text.Lower("react") == "react";
    var xs := ["React", "react"];
    assert MatchesSome(xs[0], ["React"]) by { assert SameIgnoringCase(["React"][0], xs[0]); }
    assert MatchesSome(xs[1], ["React"]) by { assert SameIgnoringCase(["React"][0], xs[1]); }
    assert MatchCount(xs, ["React"]) == 2 by {
      assert xs[1..] == ["react"];
      assert xs[1..][1..] == [];
    }
  }

  /** The breakdown and the score treat an unrecognised seeker level
      differently: against a known job level the breakdown shows the
      neutral 50 while the score's experience term is 0. */
  lemma ExperienceViewsDisagree()
    ensures ExperienceMatch("guru", "advanced") == 50
    ensures ExperienceTerm("guru", "advanced") == 0.0
  {
    assert Text.Lower("guru") == "guru";
    assert Text.Lower("advanced") == "advanced";
  }

  /** Against the empty job `{}` only profile completeness counts: with k of
      the five profile items present the score is 3k and the breakdown is
      (0, 0, 50, 20k). */
  lemma {:induction false} EmptyJobScore(u: User)
    ensures CalculateMatchScore(u, EmptyJob)
      == MatchResult(3 * CompletenessCount(u), Breakdown(0, 0, 50, 20 * CompletenessCount(u)))
  {
    ScoreIsRoundedSum(u, EmptyJob);
    assert WeightedSum(u, EmptyJob) == (3 * CompletenessCount(u)) as real;
    RoundFacts(0.0, 0.0, 3 * CompletenessCount(u));
  }

  /** Two lists that agree entry by entry once lowercased. */
  predicate SameListIgnoringCase(xs: seq<string>, ys: seq<string>) {
    |xs| == |ys| && forall i :: 0 <= i < |xs| ==> SameIgnoringCase(xs[i], ys[i])
  }

  predicate SameOptListIgnoringCase(a: Option<seq<string>>, b: Option<seq<string>>) {
    (a.None? && b.None?) || (a.Some? && b.Some? && SameListIgnoringCase(a.value, b.value))
  }

  /** `v` is `u` with the letter case of skills, interests or level changed. */
  predicate UserCaseVariant(u: User, v: User) {
    && u.name == v.name && u.bio == v.bio && u.profilePicture == v.profilePicture
    && SameOptListIgnoringCase(u.skills, v.skills)
    && SameOptListIgnoringCase(u.interests, v.interests)
    && SameIgnoringCase(u.experienceLevel, v.experienceLevel)
  }

  /** `k` is `j` with the letter case of tags, required skills or level changed. */
  predicate JobCaseVariant(j: Job, k: Job) {
    && SameOptListIgnoringCase(j.requiredSkills, k.requiredSkills)
    && SameOptListIgnoringCase(j.tags, k.tags)
    && SameIgnoringCase(j.experienceLevel, k.experienceLevel)
  }

  lemma {:induction false} MatchesSomeIgnoresCase(x: string, x': string, ys: seq<string>, ys': seq<string>)
    requires SameIgnoringCase(x, x') && SameListIgnoringCase(ys, ys')
    ensures MatchesSome(x, ys) <==> MatchesSome(x', ys')
  {
    if MatchesSome(x, ys) {
      var k :| 0 <= k < |ys| && SameIgnoringCase(ys[k], x);
      assert SameIgnoringCase(ys'[k], x');
    }
    if MatchesSome(x', ys') {
      var k :| 0 <= k < |ys'| && SameIgnoringCase(ys'[k], x');
      assert SameIgnoringCase(ys[k], x);
    }
  }

  lemma {:induction false} MatchCountIgnoresCase(xs: seq<string>, xs': seq<string>, ys: seq<string>, ys': seq<string>)
    requires SameListIgnoringCase(xs, xs') && SameListIgnoringCase(ys, ys')
    ensures MatchCount(xs, ys) == MatchCount(xs', ys')
    decreases |xs|
  {
    if |xs| > 0 {
      MatchesSomeIgnoresCase(xs[0], xs'[0], ys, ys');
      assert SameListIgnoringCase(xs[1..], xs'[1..]) by {
        forall i | 0 <= i < |xs[1..]| ensures SameIgnoringCase(xs[1..][i], xs'[1..][i]) {
          assert xs[1..][i] == xs[i + 1] && xs'[1..][i] == xs'[i + 1];
        }
      }
      MatchCountIgnoresCase(xs[1..], xs'[1..], ys, ys');
    }
  }

  /** Score and breakdown do not depend on the letter case of any skill,
      interest, tag or level string. */
  lemma {:induction false} ScoreIgnoresCase(u: User, v: User, j: Job, k: Job)
    requires UserCaseVariant(u, v) && JobCaseVariant(j, k)
    ensures CalculateMatchScore(u, j) == CalculateMatchScore(v, k)
  {
    if u.skills.Some? && j.requiredSkills.Some? {
      MatchCountIgnoresCase(u.skills.value, v.skills.value, j.requiredSkills.value, k.requiredSkills.value);
    }
    if u.interests.Some? && j.tags.Some? {
      MatchCountIgnoresCase(u.interests.value, v.interests.value, j.tags.value, k.tags.value);
    }
    assert |u.experienceLevel| == |Text.Lower(u.experienceLevel)|;
    assert |v.experienceLevel| == |Text.Lower(v.experienceLevel)|;
    assert |j.experienceLevel| == |Text.Lower(j.experienceLevel)|;
    assert |k.experienceLevel| == |Text.Lower(k.experienceLevel)|;
    assert LevelIndex(u.experienceLevel) == LevelIndex(v.experienceLevel);
    assert LevelIndex(j.experienceLevel) == LevelIndex(k.experienceLevel);
    assert CompletenessCount(u) == CompletenessCount(v);
    assert WeightedSum(u, j) == WeightedSum(v, k);
  }

  /** A job paired with its score, as the recommendation list holds them. */
  datatype Scored = Scored(job: Job, matchScore: MatchResult)

  predicate IsActive(j: Job) {
    j.status == "active"
  }

  /** The number of jobs recommended when the caller gives no limit. */
  const DefaultLimit := 10

  /** `jobs.map(job => ({ job, matchScore: calculateMatchScore(user, job) }))`. */
  function ScoreAll(u: User, jobs: seq<Job>): (r: seq<Scored>)
    ensures |r| == |jobs|
    ensures forall i :: 0 <= i < |r| ==> r[i] == Scored(jobs[i], CalculateMatchScore(u, jobs[i]))
    decreases |jobs|
  {
    if |jobs| == 0 then [] else [Scored(jobs[0], CalculateMatchScore(u, jobs[0]))] + ScoreAll(u, jobs[1..])
  }

  /** Higher score first, then the newer job. */
  function RecommendationRank(s: Scored): Rank {
    Rank(s.matchScore.score, s.job.createdAt)
  }

  /** `getRecommendedJobs(user, allJobs, limit)`: the active jobs with their
      scores, best first, newer first among equal scores, cut to `limit`. */
  function RecommendedJobs(u: User, allJobs: seq<Job>, limit: int): (r: seq<Scored>)
    ensures forall i :: 0 <= i < |r| ==>
      && IsActive(r[i].job) && r[i].job in allJobs
      && r[i].matchScore == CalculateMatchScore(u, r[i].job)
    ensures var active := |Seqs.Filter(allJobs, IsActive)|;
      limit >= 0 ==> |r| == if limit < active then limit else active
    ensures SortedBy(r, RecommendationRank)
    ensures multiset(r) <= multiset(ScoreAll(u, Seqs.Filter(allJobs, IsActive)))
  {
    var active := Seqs.Filter(allJobs, IsActive);
    var ranked := Sort(ScoreAll(u, active), RecommendationRank);
    var r := Seqs.Slice(ranked, limit);
    forall i | 0 <= i < |r|
      ensures IsActive(r[i].job) && r[i].job in allJobs && r[i].matchScore == CalculateMatchScore(u, r[i].job)
    {
      assert r[i] == ranked[i];
      assert r[i] in multiset(ScoreAll(u, active));
      var k :| 0 <= k < |ScoreAll(u, active)| && ScoreAll(u, active)[k] == r[i];
      assert active[k] in multiset(active);
    }
    SortedPrefix(ranked, RecommendationRank, |r|);
    r
  }

  lemma {:induction false} SortedPrefix<T>(s: seq<T>, key: T -> Rank, k: nat)
    requires SortedBy(s, key) && k <= |s|
    ensures SortedBy(s[..k], key)
  {
    forall i, j | 0 <= i < j < k ensures AtLeast(key(s[..k][i]), key(s[..k][j])) {
      assert s[..k][i] == s[i] && s[..k][j] == s[j];
    }
  }

  /** The recommendations are a top-k: every active job left out ranks no
      higher than the last one recommended. */
  lemma {:induction false} RecommendationsAreTop(u: User, allJobs: seq<Job>, limit: int, j: Job)
    requires j in allJobs && IsActive(j)
    requires var r := RecommendedJobs(u, allJobs, limit);
      |r| > 0 && Scored(j, CalculateMatchScore(u, j)) !in r
    ensures var r := RecommendedJobs(u, allJobs, limit);
      AtLeast(RecommendationRank(r[|r| - 1]), RecommendationRank(Scored(j, CalculateMatchScore(u, j))))
  {
    var ranked := Sort(ScoreAll(u, Seqs.Filter(allJobs, IsActive)), RecommendationRank);
    var r := RecommendedJobs(u, allJobs, limit);
    var x := Scored(j, CalculateMatchScore(u, j));
    assert r == ranked[..|r|];
    ActiveIsRanked(u, allJobs, j);
    PrefixIsTop(ranked, RecommendationRank, |r|, x);
  }

  /** Every active job is among the ranked candidates, with its score. */
  lemma {:induction false} ActiveIsRanked(u: User, allJobs: seq<Job>, j: Job)
    requires j in allJobs && IsActive(j)
    ensures Scored(j, CalculateMatchScore(u, j)) in Sort(ScoreAll(u, Seqs.Filter(allJobs, IsActive)), RecommendationRank)
  {
    var active := Seqs.Filter(allJobs, IsActive);
    var scored := ScoreAll(u, active);
    assert j in multiset(active);
    var k :| 0 <= k < |active| && active[k] == j;
    assert scored[k] == Scored(j, CalculateMatchScore(u, j));
    assert scored[k] in multiset(scored);
  }

  /** The job of a scored entry, as `r => r.job` picks it. */
  function JobOf(s: Scored): Job {
    s.job
  }

  /** Scoring and then dropping the scores gives back the jobs. */
  lemma {:induction false} JobsOfScoreAll(u: User, jobs: seq<Job>)
    ensures Seqs.Map(ScoreAll(u, jobs), JobOf) == jobs
  {
  }

  /** Without their scores, the recommendations are active jobs, each
      recommended at most as often as it occurs, best first. */
  lemma {:induction false} RecommendedJobsOfActive(u: User, allJobs: seq<Job>, limit: int)
    ensures var jobs := Seqs.Map(RecommendedJobs(u, allJobs, limit), JobOf);
      && multiset(jobs) <= multiset(Seqs.Filter(allJobs, IsActive))
      && forall i :: 0 <= i < |jobs| - 1 ==>
           AtLeast(RecommendationRank(Scored(jobs[i], CalculateMatchScore(u, jobs[i]))),
                   RecommendationRank(Scored(jobs[i + 1], CalculateMatchScore(u, jobs[i + 1]))))
  {
    var r := RecommendedJobs(u, allJobs, limit);
    var active := Seqs.Filter(allJobs, IsActive);
    Seqs.MapSubMultiset(r, ScoreAll(u, active), JobOf);
    JobsOfScoreAll(u, active);
    forall i | 0 <= i < |r| - 1
      ensures AtLeast(RecommendationRank(r[i]), RecommendationRank(r[i + 1]))
    {
    }
  }

  /** `getRecommendedJobs(user, allJobs)` with the limit left out: the best
      ten active jobs, or all of them when fewer are active. */
  function RecommendedJobsDefault(u: User, allJobs: seq<Job>): (r: seq<Scored>)
    ensures var active := |Seqs.Filter(allJobs, IsActive)|;
      |r| == if active < DefaultLimit then active else DefaultLimit
  {
    RecommendedJobs(u, allJobs, DefaultLimit)
  }
}
