/**
 * The match scorer: compares the resume's skills with the skills found in a
 * job description.
 */
module SkillMatch {
  import opened TextOps
  import opened Skills

  datatype Option<T> = None | Some(value: T)

  datatype SkillsMatch = SkillsMatch(
    matchScore: nat,
    matchingSkills: set<string>,
    missingSkills: set<string>,
    matchingSkillsCount: nat,
    missingSkillsCount: nat,
    totalJobSkills: nat)

  /** The comparison proper, reached once the job description has yielded at
      least one skill: the job skills split into those the resume has and
      those it lacks, and the percentage of job skills matched, rounded
      down. */
  function CompareSkills(resumeSkills: set<string>, jobSkills: set<string>): (m: SkillsMatch)
    requires jobSkills != {}
    ensures m.matchingSkills !! m.missingSkills
    ensures m.matchingSkills + m.missingSkills == jobSkills
    ensures m.matchingSkills <= resumeSkills && m.missingSkills !! resumeSkills
    ensures m.matchingSkillsCount == |m.matchingSkills| && m.missingSkillsCount == |m.missingSkills|
    ensures m.totalJobSkills == |jobSkills|
    ensures m.matchingSkillsCount + m.missingSkillsCount == m.totalJobSkills
    ensures m.matchScore <= 100
    ensures m.matchScore * m.totalJobSkills <= 100 * m.matchingSkillsCount < (m.matchScore + 1) * m.totalJobSkills
    ensures m.matchScore == 100 <==> jobSkills <= resumeSkills
    ensures jobSkills !! resumeSkills ==> m.matchScore == 0
  {
    var matching := resumeSkills * jobSkills;
    var missing := jobSkills - resumeSkills;
    assert matching + missing == jobSkills && matching !! missing;
    SubsetSize(matching, jobSkills);
    assert missing == jobSkills - matching;
    var score := (100 * |matching|) / |jobSkills|;
    ScoreBounds(|matching|, |jobSkills|);
    assert |matching| == |jobSkills| ==> matching == jobSkills by {
      if |matching| == |jobSkills| {
        SameSizeSubsetEqual(matching, jobSkills);
      }
    }
    SkillsMatch(score, matching, missing, |matching|, |missing|, |jobSkills|)
  }

  /** The score `100 * matched / total`, rounded down, of `matched` out of
      `total` skills. */
  lemma ScoreBounds(matched: nat, total: nat)
    requires 0 < total && matched <= total
    ensures var score := (100 * matched) / total;
      && score * total <= 100 * matched < (score + 1) * total
      && score <= 100
      && (score == 100 <==> matched == total)
      && (matched == 0 ==> score == 0)
  {
  }

  lemma SubsetSize(a: set<string>, b: set<string>)
    requires a <= b
    ensures |a| <= |b|
    ensures |b - a| == |b| - |a|
  {
    assert b == a + (b - a);
  }

  lemma SameSizeSubsetEqual(a: set<string>, b: set<string>)
    requires a <= b && |a| == |b|
    ensures a == b
  {
    SubsetSize(a, b);
    assert b - a == {};
    assert b == a + (b - a);
  }

  /** `analyze_skills_match`: nothing is computed for a blank job
      description or one that mentions no skill; otherwise the comparison of
      the resume's skills with the job description's. */
  method AnalyzeSkillsMatch(resumeSkills: set<string>, jobDescription: string)
    returns (r: Option<SkillsMatch>)
    ensures r.None? <==> AllSpace(jobDescription) || SkillSet(SkillKeywords, jobDescription) == {}
    ensures r.Some? ==> r.value == CompareSkills(resumeSkills, SkillSet(SkillKeywords, jobDescription))
  {
    StripEmptyIffBlank(jobDescription);
    if Strip(jobDescription) == [] {
      return None;
    }
    var jobSkills := ExtractSkills(jobDescription);
    if jobSkills == {} {
      return None;
    }
    return Some(CompareSkills(resumeSkills, jobSkills));
  }

  /** One job skill of three matched: a score of 33. */
  lemma OneOfThreeScores33()
    ensures CompareSkills({"Python", "Java"}, {"Python", "Sql", "Docker"}).matchScore == 33
  {
    var m := CompareSkills({"Python", "Java"}, {"Python", "Sql", "Docker"});
    assert m.matchingSkills == {"Python"};
    assert |{"Python", "Sql", "Docker"}| == 3;
  }
}
