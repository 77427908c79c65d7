/**
 * The skill matcher: a fixed, ordered keyword vocabulary and the scan that
 * reports, title-cased, every keyword occurring as a substring of the
 * lower-cased text.
 */
module Skills {
  import opened TextOps

  /** The skill vocabulary, in the order it is scanned (179 lower-case
      phrases), written in the groups of its definition. */
  const SkillKeywords: seq<string> :=
      ["python", "java", "javascript", "html", "css", "sql", "react", "angular"]
    + ["node", "django", "flask", "spring", "aws", "docker", "kubernetes"]
    + ["machine learning", "data analysis", "project management", "communication"]
    + ["teamwork", "leadership", "problem solving", "research", "design"]
    + ["c++", "c#", "ruby", "php", "swift", "kotlin", "go", "rust"]
    + ["tensorflow", "pytorch", "scikit-learn", "pandas", "numpy", "matplotlib"]
    + ["git", "jenkins", "travis ci", "circle ci", "github", "gitlab"]
    + ["mysql", "postgresql", "mongodb", "redis", "elasticsearch"]
    + ["linux", "ubuntu", "centos", "bash", "shell scripting"]
    + ["agile", "scrum", "kanban", "jira", "confluence"]
    + ["excel", "tableau", "power bi", "spark", "hadoop"]
    + ["networking", "security", "encryption", "firewall"]
    + ["api", "rest", "graphql", "soap", "microservices"]
    + ["testing", "unit testing", "integration testing", "selenium"]
    + ["devops", "ci/cd", "terraform", "ansible", "puppet"]
    + ["cloud", "azure", "gcp", "firebase", "heroku"]
    + ["mobile development", "android", "ios", "flutter", "react native"]
    + ["database design", "orm", "hibernate", "entity framework"]
    + ["ux/ui", "wireframing", "prototyping", "adobe creative suite"]
    + ["seo", "digital marketing", "content management", "wordpress"]
    + ["salesforce", "sap", "oracle", "erp", "crm"]
    + ["financial analysis", "risk management", "accounting", "auditing"]
    + ["customer service", "technical support", "troubleshooting"]
    + ["product management", "business analysis", "requirements gathering"]
    + ["quality assurance", "qa", "six sigma", "lean"]
    + ["copywriting", "technical writing", "documentation"]
    + ["public speaking", "presentation", "negotiation"]
    + ["time management", "organization", "multitasking"]
    + ["critical thinking", "creativity", "innovation"]
    + ["foreign languages", "spanish", "french", "german", "chinese"]
    + ["data visualization", "d3.js", "chart.js", "plotly"]
    + ["blockchain", "cryptocurrency", "ethereum", "smart contracts"]
    + ["artificial intelligence", "natural language processing", "computer vision"]
    + ["iot", "embedded systems", "arduino", "raspberry pi"]
    + ["cybersecurity", "penetration testing", "vulnerability assessment"]
    + ["big data", "data mining", "data warehousing"]
    + ["robotics", "automation", "control systems"]
    + ["supply chain", "logistics", "inventory management"]
    + ["human resources", "recruitment", "training"]
    + ["legal", "compliance", "regulatory affairs"]
    + ["healthcare", "clinical research", "patient care"]
    + ["construction", "civil engineering", "structural analysis"]

  /** The skills `text` mentions: the title-cased form of every keyword that
      is a substring of the lower-cased text. Short keywords also match inside
      longer words (`"go"` inside `"good"`), as in the scan it specifies. */
  function SkillSet(keywords: seq<string>, text: string): (skills: set<string>)
    ensures |skills| == |MatchedKeywords(keywords, text)|
  {
    MatchedAreLower(keywords, text);
    TitleImageSize(MatchedKeywords(keywords, text));
    set k | k in MatchedKeywords(keywords, text) :: Title(k)
  }

  /** The keyword list holds 179 entries. */
  lemma SkillKeywordCount()
    ensures |SkillKeywords| == 179
  {
  }

  /** The scan over the vocabulary: each keyword found in the lower-cased
      text has its title-cased form appended; the list is then turned into a
      set, which drops repeated names. */
  method ExtractSkills(text: string) returns (skills: set<string>)
    ensures skills == SkillSet(SkillKeywords, text)
  {
    var found: seq<string> := [];
    var textLower := Lower(text);
    for i := 0 to |SkillKeywords|
      invariant forall s :: s in found <==>
        exists k :: k in SkillKeywords[..i] && Contains(textLower, k) && s == Title(k)
    {
      var skill := SkillKeywords[i];
      assert SkillKeywords[..i + 1] == SkillKeywords[..i] + [skill];
      if Contains(textLower, skill) {
        found := found + [Title(skill)];
      }
    }
    assert SkillKeywords[..|SkillKeywords|] == SkillKeywords;
    skills := set s | s in found;
  }

  /** Only keywords that occur in the lower-cased text are reported, and each
      of them is: for a lower-case phrase `k`, its title-cased form is among
      the skills exactly when `k` is a keyword and a substring of the
      lower-cased text. */
  lemma SkillReportedIff(keywords: seq<string>, text: string, k: string)
    requires NoUpper(k)
    ensures Title(k) in SkillSet(keywords, text) <==> k in keywords && Contains(Lower(text), k)
  {
    if Title(k) in SkillSet(keywords, text) {
      var k' :| k' in keywords && Contains(Lower(text), k') && Title(k') == Title(k);
      ContainedInNoUpper(Lower(text), k');
      TitleInjectiveOnLower(k', k);
    }
  }

  /** The skills depend on the text only through its lower-cased form. */
  lemma SkillSetOfLowered(keywords: seq<string>, text: string)
    ensures SkillSet(keywords, Lower(text)) == SkillSet(keywords, text)
  {
    LowerIdempotent(text);
  }

  /** The keywords of `keywords` found in `text`. */
  function MatchedKeywords(keywords: seq<string>, text: string): set<string>
  {
    set k | k in keywords && Contains(Lower(text), k)
  }

  /** Title-casing a set of lower-case phrases merges none of them. */
  lemma {:induction false} TitleImageSize(ks: set<string>)
    requires forall k :: k in ks ==> NoUpper(k)
    ensures |set k | k in ks :: Title(k)| == |ks|
    decreases |ks|
  {
    if ks != {} {
      var x :| x in ks;
      var rest := ks - {x};
      TitleImageSize(rest);
      var image := set k | k in ks :: Title(k);
      var restImage := set k | k in rest :: Title(k);
      assert image == restImage + {Title(x)};
      assert Title(x) !in restImage by {
        if Title(x) in restImage {
          var y :| y in rest && Title(y) == Title(x);
          TitleInjectiveOnLower(x, y);
        }
      }
    }
  }

  /** Anything found in lower-cased text is itself lower case. */
  lemma MatchedAreLower(keywords: seq<string>, text: string)
    ensures forall k :: k in MatchedKeywords(keywords, text) ==> NoUpper(k)
  {
    forall k | k in MatchedKeywords(keywords, text) ensures NoUpper(k) {
      ContainedInNoUpper(Lower(text), k);
    }
  }

  /** Substring matching reports "Go" for a text that only says "good". */
  lemma GoFoundInGood()
    ensures "Go" in SkillSet(SkillKeywords, "good")
  {
    assert SkillKeywords[30] == "go";
    assert OccursAt("go", Lower("good"), 0);
    assert Title("go") == "Go";
  }
}
