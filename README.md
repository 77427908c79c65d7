# Resume analyser text core, in Dafny

This project models the text-analysis core of a resume-analysis web
application. The application takes the plain text of a resume and produces
five things:

- a normalised token list: lower-cased, punctuation stripped, tokenised, stopwords dropped;
- the 20 most common tokens with their counts;
- the skills the text mentions, found by substring search for a fixed keyword list and title-cased;
- an experience estimate derived from the token count;
- the first three e-mail addresses and phone numbers.

It also compares a resume's skills with the skills named in a job
description and reports the matching and missing skills and a percentage
score.

Modules:

- `TextOps` (`text.dfy`): the string primitives the core relies on. These are lower-casing, title-casing, Python's whitespace set, the 32 ASCII punctuation characters, substring search, strip, and a whitespace split.
- `Skills` (`skills.dfy`): the keyword list. It is the 179 keywords of `SKILL_KEYWORDS`, one group per source line. It also holds the skill-set specification and the keyword loop that extracts skills.
- `Preprocess` (`preprocess.dfy`): the token pipeline.
- `Frequency` (`frequency.dfy`): `Counter(tokens).most_common(20)`. This is a stable selection: the highest count first, and ties in first-seen order.
- `Resume` (`resume.dfy`): how the resume analysis is assembled. This covers the rounding rule of the estimate and the truncation and joining of the contact matches.
- `SkillMatch` (`skill_match.dfy`): the job-description comparison and its score.

The skill list is returned by the source as `list(set(...))`, so its order is
not defined; the model returns a `set<string>`. Title-casing follows
`str.title` on ASCII text. For example, the keyword `sql` is reported as
`Sql`.

## Model

| member | source | states |
|---|---|---|
| TextOps.Lower | app.py:116 | `text.lower()` keeps the length and leaves no upper-case letter |
| TextOps.LowerKeepsCharacters | app.py:116 | lower-casing changes nothing but case: a character that is not an upper-case letter stays where it is, and an upper-case letter becomes the lower-case letter whose upper case it is |
| TextOps.LowerIdempotent | app.py:116 | lower-casing twice is the same as lower-casing once |
| TextOps.TitleFrom | app.py:136 | title-casing keeps the length and the lower-cased text; a letter is upper-case exactly when it does not follow a letter, and every other character is lower-case or unchanged |
| TextOps.Title | app.py:136 | `skill.title()` keeps the length and the lower-cased text, and puts exactly the letters that do not follow a letter in upper case |
| TextOps.TitleInjectiveOnLower | app.py:136 | two lower-case keywords with the same title-cased form are equal, so `skill.title()` never merges two keywords |
| TextOps.Contains | app.py:135 | `skill in text_lower` holds exactly when the keyword occurs at some position of the text |
| TextOps.ContainedInNoUpper | app.py:133-135 | anything found in lower-cased text has no upper-case letter |
| TextOps.RemovePunctuation | app.py:119 | removing `string.punctuation` leaves no punctuation character and never lengthens the text |
| TextOps.RemovePunctuationCounts | app.py:119 | every character that is not punctuation is kept as often as it occurs, and punctuation is gone |
| TextOps.RemovePunctuationAppend | app.py:119 | removal from a concatenation is the concatenation of the removals, so kept characters stay in their order |
| TextOps.RemovePunctuationChar | app.py:119 | a single character is deleted exactly when it is punctuation; with the previous row this determines the result for every text |
| TextOps.TrimStart | app.py:175 | the leading whitespace removed is all whitespace, and the rest is a suffix of the input that starts with a non-space |
| TextOps.TrimEnd | app.py:175 | the trailing whitespace removed is all whitespace, and the rest is a prefix of the input that ends with a non-space |
| TextOps.Strip | app.py:175 | `job_description.strip()` is no longer than the text and neither starts nor ends with whitespace |
| TextOps.StripEmptyIffBlank | app.py:175-176 | `job_description.strip()` is empty if and only if the description is empty or all whitespace |
| TextOps.ConcatAppend | app.py:122 | joining the tokens of two lists is joining each list and concatenating the results |
| TextOps.SplitFromWords | app.py:122 | every token produced while scanning is non-empty and free of whitespace |
| TextOps.SplitFromKeepsText | app.py:122 | the tokens produced while scanning, put back together, are the pending word followed by the rest of the text without its whitespace |
| TextOps.Split | app.py:122 | every token is non-empty and free of whitespace, and the tokens together spell the text without its whitespace |
| TextOps.SplitFromWord | app.py:122 | a whitespace-free remainder joins the pending word into a single token |
| TextOps.SplitWord | app.py:122 | a whitespace-free text is one token, or no token when it is empty, so a word is never cut up |
| TextOps.SplitFromAtSpace | app.py:122 | a whitespace character ends the pending word, and what follows it is tokenised afresh |
| TextOps.SplitAtSpace | app.py:122 | a text cut at a whitespace character has the tokens of the left part followed by those of the right part; with the previous row this fixes where every token ends |
| Skills.SkillKeywords | app.py:37-80 | the keyword list, in source order, one group per source line |
| Skills.SkillKeywordCount | app.py:37-80 | the keyword list has 179 entries |
| Skills.SkillSet | app.py:130-137 | the set of skills for a text has as many members as there are distinct keywords found, so de-duplication drops nothing but repeats |
| Skills.MatchedAreLower | app.py:133-135 | every keyword found in the lower-cased text is itself lower case |
| Skills.ExtractSkills | app.py:130-137 | the keyword loop returns exactly the title-cased keywords that occur in the lower-cased text |
| Skills.SkillReportedIff | app.py:133-136 | a keyword's title-cased form is reported if and only if the keyword is in the list and occurs in the lower-cased text |
| Skills.SkillSetOfLowered | app.py:133 | the skills found depend on the text only through its lower-cased form |
| Skills.TitleImageSize | app.py:135-137 | title-casing a set of lower-case keywords yields a set of the same size |
| Skills.GoFoundInGood | app.py:38-79 | substring search reports the skill `Go` for a text that only says `good` |
| Preprocess.RemoveStopwords | app.py:126 | no stopword survives, every kept token comes from the input, and the list does not grow |
| Preprocess.RemoveStopwordsCounts | app.py:126 | a word that is not a stopword keeps its number of occurrences |
| Preprocess.RemoveStopwordsAppend | app.py:126 | filtering distributes over concatenation, so the order of kept tokens is the input order |
| Preprocess.RemoveStopwordsKeepsClean | app.py:126 | a list with no stopwords is returned unchanged |
| Preprocess.Clean | app.py:116-119 | the cleaned text has no upper-case letter and no punctuation |
| Preprocess.CleanAppend | app.py:116-119 | cleaning a concatenation is concatenating the cleaned parts, so no character moves |
| Preprocess.CleanChar | app.py:116-119 | one character is deleted when it is punctuation and otherwise kept, lower-cased; with the previous row this determines the cleaned text |
| Preprocess.PreprocessText | app.py:113-128 | every token comes from splitting the cleaned text and none is a stopword |
| Preprocess.PreprocessTokensClean | app.py:113-128 | each token is non-empty, has no whitespace, no upper-case letter and no punctuation, and is not a stopword |
| Preprocess.PreprocessWithoutStopwords | app.py:116-122 | with no stopwords, the tokens together spell the cleaned text without its whitespace |
| Preprocess.ConcatElementInText | app.py:122 | each token's characters occur in the joined tokens |
| Preprocess.DropSpacesIn | app.py:122 | dropping whitespace only removes characters |
| Frequency.Count | app.py:145 | a word's count is at most the number of tokens, and positive exactly when the word is a token |
| Frequency.FirstIndex | app.py:145 | the first position of a word: the word is there and nowhere before it |
| Frequency.FirstIndexUnique | app.py:145 | a position holding the word with no earlier occurrence is the first position |
| Frequency.Distinct | app.py:145 | the distinct words are exactly the words of the tokens, without repeats |
| Frequency.DistinctInFirstSeenOrder | app.py:145 | the distinct words appear in the order of their first occurrence in the tokens, as `Counter` keeps them |
| Frequency.Tally | app.py:145 | one entry per distinct word, in first-seen order, carrying that word's exact number of occurrences (at least 1) |
| Frequency.FirstMaxIndex | app.py:146 | picks an entry with the highest count, and no earlier entry reaches that count |
| Frequency.RemoveAtIndex | app.py:146 | removing an entry shifts the later entries down by one and leaves the earlier ones in place |
| Frequency.RemoveAtMember | app.py:146 | removing an entry adds no new entry |
| Frequency.OutranksAfterRemove | app.py:146 | an ordering between two entries after a removal already held before it |
| Frequency.BeforeAfterRemove | app.py:146 | relative order of two entries survives a removal |
| Frequency.OutranksOthers | app.py:146 | the selected entry has a higher count than every remaining entry, or an equal count and an earlier position |
| Frequency.FirstMaxOutranksRest | app.py:146 | the selected entry outranks every remaining entry |
| Frequency.MostCommon | app.py:146 | `most_common(n)` returns `min(n, len)` entries, each taken from the tally |
| Frequency.MostCommonOrdered | app.py:146 | the entries are in rank order: count descending, and on a tie the entry that came first in the tally comes first |
| Frequency.MostCommonLeftOutRankLower | app.py:146 | every entry left out ranks below every entry kept |
| Frequency.RemoveAtNoDuplicates | app.py:146 | removing an entry from a repeat-free list keeps it repeat-free and removes that entry entirely |
| Frequency.MostCommonNoDuplicates | app.py:146 | no entry is reported twice |
| Frequency.TallyNoDuplicates | app.py:145 | the tally has no repeated entry |
| Frequency.TallyEntry | app.py:145 | each tally entry is a word of the tokens with its exact count |
| Frequency.TallyBeforeIsFirstSeen | app.py:145 | when one tally entry comes before another, the first occurrence of its word comes before the other's |
| Frequency.MostCommonWords | app.py:146 | `most_common(20)` has at most 20 entries, each taken from the counter |
| Frequency.MostCommonWordsCounts | app.py:145-146 | the top list has `min(20, distinct words)` entries, each a token with its exact count, and no word twice |
| Frequency.MostCommonWordsOrdered | app.py:145-146 | the top list is sorted by count, descending, and equal counts keep the order in which the words first appear |
| Frequency.MostCommonWordsLeftOut | app.py:145-146 | a token missing from the top list has a lower count than every listed word, or an equal count and a later first appearance |
| Resume.RoundHundredths | app.py:153 | `round(n / 100)` is within a half of `n / 100`, and an exact half goes to the even neighbour |
| Resume.ExperienceEstimate | app.py:152-153 | the estimate is at most 10, it is 10 exactly when the word count is at least 950, and below that it is `round(word_count / 100)`, halves going to the even neighbour |
| Resume.FirstThree | app.py:168-169 | `[:3]` keeps a prefix of length `min(3, len)` |
| Resume.JoinGroups | app.py:169 | joining the four groups of a phone match loses no character |
| Resume.Phones | app.py:169 | at most three phones, the i-th being the i-th match's groups joined |
| Resume.TopWordsAreKeptTokens | app.py:142-146 | every word in the top 20 is a token that survived stopword removal, with its exact count |
| Resume.AnalyzeResume | app.py:139-171 | every result field is the model of its source expression: the token count, the top 20 words (each a non-stopword token with its exact count), the skill set, an estimate of at most 10, and the first three e-mails and joined phones |
| SkillMatch.CompareSkills | app.py:184-197 | the job skills split into matching (held by the resume) and missing (not held), disjointly; the counts add up to the job total; the score is the rounded-down percentage matched, at most 100; it is 100 exactly when every job skill is held, and 0 when none is |
| SkillMatch.ScoreBounds | app.py:188 | `100 * matched / total`, rounded down, lies between 0 and 100, is 100 only for a full match and 0 for none |
| SkillMatch.SubsetSize | app.py:185-186 | a subset is no larger than its superset, and the difference accounts for the rest |
| SkillMatch.SameSizeSubsetEqual | app.py:188 | a subset as large as its superset is the superset, so a full score means every job skill is held |
| SkillMatch.AnalyzeSkillsMatch | app.py:173-197 | nothing is returned exactly when the job description is blank or names no skill; otherwise the comparison of the resume's skills with the skills extracted from the description |
| SkillMatch.OneOfThreeScores33 | app.py:185-188 | a resume holding one of three job skills scores 33 |

## Left out

- File upload, the web routes and JSON responses (app.py:199-257) are I/O and are not modelled.
- Text extraction from PDF, DOCX and TXT files (app.py:82-111) calls file-format libraries; the model starts from the extracted text.
- The NLTK data download at start-up (app.py:12-21) is I/O.
- Preprocess.PreprocessText: NLTK's `word_tokenize` is modelled as a split on Python's whitespace characters. The real tokeniser differs on text that reaches it. It splits some words (`cannot` becomes `can` and `not`, `gonna` becomes `gon` and `na`). It also separates characters that `string.punctuation` does not contain, such as the typographic quotes in `i’m`, into tokens of their own. Both change `word_count` and the word frequencies. These rules are not modelled.
- Preprocess.PreprocessText: the English stopword list of NLTK is a parameter, not a constant, since it is external data.
- The e-mail and phone regular expressions (app.py:156-160) are not evaluated: the matches, in text order, are inputs to `Resume.AnalyzeResume`.
- TextOps.Lower: lower-casing and title-casing are modelled for ASCII letters only; Unicode case mappings (including ones that change the length) are not modelled.
- SkillMatch.CompareSkills: the score is the exact `(100 * matched) / total` rounded down. The source computes `int((matched / total) * 100)` in floating point, which can land one below. For example, 29 of 100 gives 28 in the source, because `0.29 * 100` is slightly below 29. Floating point is not modelled.
- Skills.ExtractSkills: the order of the list built by `list(set(...))` depends on string hashing, so the result is modelled as a set.
- SkillMatch.CompareSkills: the matching and missing lists are likewise modelled as sets.
- Resume.AnalyzeResume: `dict(most_common(20))` is modelled as the ordered list of word and count pairs it is built from.
- A timeline of roles and dates is not part of this model: the code has no such feature.
