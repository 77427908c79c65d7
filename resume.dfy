/**
 * Result assembly for one resume: the normalised tokens, their 20 most common
 * words, the skills, the experience estimate derived from the word count and
 * the contact details. The e-mail and phone regular expressions are not
 * modelled: their matches, in text order, are inputs.
 */
module Resume {
  import opened Skills
  import opened Preprocess
  import opened Frequency

  /** One match of the phone pattern: its four capture groups, an optional
      group that did not take part being the empty string. */
  datatype PhoneMatch = PhoneMatch(countryCode: string, area: string, exchange: string, line: string)

  datatype AnalysisResult = AnalysisResult(
    wordCount: nat,
    mostCommonWords: seq<WordCount>,
    skills: set<string>,
    experienceEstimate: nat,
    emails: seq<string>,
    phones: seq<string>)

  /** Python's `round(n / 100)` for a count `n`: the nearest whole number,
      a half going to the even neighbour. */
  function RoundHundredths(n: nat): (r: nat)
    ensures 100 * r - 50 <= n <= 100 * r + 50
    ensures (n == 100 * r - 50 || n == 100 * r + 50) ==> r % 2 == 0
  {
    var q := n / 100;
    var rem := n % 100;
    if rem > 50 then q + 1
    else if rem < 50 then q
    else if q % 2 == 0 then q
    else q + 1
  }

  /** `min(round(word_count / 100), 10)`. */
  function ExperienceEstimate(wordCount: nat): (e: nat)
    ensures e <= 10
    ensures e == 10 <==> wordCount >= 950
    ensures e < 10 ==> 100 * e - 50 <= wordCount <= 100 * e + 50
    ensures e < 10 ==> e == RoundHundredths(wordCount)
  {
    var r := RoundHundredths(wordCount);
    if r < 10 then r else 10
  }

  /** The first three matches, or all of them when there are fewer. */
  function FirstThree<T>(s: seq<T>): (r: seq<T>)
    ensures |r| == if |s| < 3 then |s| else 3
    ensures r == s[..|r|]
  {
    if |s| <= 3 then s else s[..3]
  }

  /** `''.join(groups)` for one phone match. */
  function JoinGroups(m: PhoneMatch): (s: string)
    ensures |s| == |m.countryCode| + |m.area| + |m.exchange| + |m.line|
  {
    m.countryCode + m.area + m.exchange + m.line
  }

  /** The phone numbers reported: the first three matches, each the four
      groups run together. */
  function Phones(matches: seq<PhoneMatch>): (phones: seq<string>)
    ensures |phones| == if |matches| < 3 then |matches| else 3
    ensures forall i :: 0 <= i < |phones| ==> phones[i] == JoinGroups(matches[i])
  {
    var kept := FirstThree(matches);
    seq(|kept|, i requires 0 <= i < |kept| => JoinGroups(kept[i]))
  }

  /** Every word in the top 20 is a token that survived stopword removal,
      reported with its exact number of occurrences. */
  lemma TopWordsAreKeptTokens(text: string, stopWords: set<string>)
    ensures var tokens := PreprocessText(text, stopWords);
      var top := MostCommonWords(tokens);
      forall i :: 0 <= i < |top| ==>
        top[i].word in tokens && top[i].word !in stopWords &&
        top[i].count == Count(tokens, top[i].word) >= 1
  {
    var tokens := PreprocessText(text, stopWords);
    var top := MostCommonWords(tokens);
    MostCommonWordsCounts(tokens);
    forall i | 0 <= i < |top| ensures top[i].word !in stopWords {
      var k :| 0 <= k < |tokens| && tokens[k] == top[i].word;
    }
  }

  /** The analysis of one resume text. `stopWords` is the stopword list;
      `emailMatches` and `phoneMatches` are the matches of the e-mail and
      phone patterns over `text`, in text order. */
  method AnalyzeResume(text: string, stopWords: set<string>,
                       emailMatches: seq<string>, phoneMatches: seq<PhoneMatch>)
    returns (result: AnalysisResult)
    ensures result.wordCount == |PreprocessText(text, stopWords)|
    ensures result.mostCommonWords == MostCommonWords(PreprocessText(text, stopWords))
    ensures |result.mostCommonWords| <= 20
    ensures forall i :: 0 <= i < |result.mostCommonWords| ==>
      var wc := result.mostCommonWords[i];
      wc.word in PreprocessText(text, stopWords) && wc.word !in stopWords &&
      wc.count == Count(PreprocessText(text, stopWords), wc.word) >= 1
    ensures result.skills == SkillSet(SkillKeywords, text)
    ensures result.experienceEstimate == ExperienceEstimate(result.wordCount) <= 10
    ensures |result.emails| <= 3 && |result.emails| <= |emailMatches|
    ensures result.emails == emailMatches[..|result.emails|]
    ensures |result.emails| == |emailMatches| || |result.emails| == 3
    ensures |result.phones| <= 3 && |result.phones| <= |phoneMatches|
    ensures |result.phones| == |phoneMatches| || |result.phones| == 3
    ensures forall i :: 0 <= i < |result.phones| ==> result.phones[i] == JoinGroups(phoneMatches[i])
  {
    var tokens := PreprocessText(text, stopWords);
    var mostCommon := MostCommonWords(tokens);
    TopWordsAreKeptTokens(text, stopWords);
    var skills := ExtractSkills(text);
    var wordCount := |tokens|;
    var estimate := ExperienceEstimate(wordCount);
    result := AnalysisResult(wordCount, mostCommon, skills, estimate,
                             FirstThree(emailMatches), Phones(phoneMatches));
  }
}
