/**
 * The normaliser: lower-case the text, delete punctuation, split it into
 * words and drop the stopwords. The word tokeniser is modelled as a split at
 * whitespace and the stopword list is a parameter.
 */
module Preprocess {
  import opened TextOps

  /** The tokens that are not stopwords, in their original order, repeats
      kept (the list comprehension of the normaliser). */
  function RemoveStopwords(tokens: seq<string>, stopWords: set<string>): (r: seq<string>)
    ensures |r| <= |tokens|
    ensures forall i :: 0 <= i < |r| ==> r[i] in tokens && r[i] !in stopWords
  {
    if tokens == [] then []
    else
      var rest := RemoveStopwords(tokens[1..], stopWords);
      assert forall i :: 0 <= i < |rest| ==> rest[i] in tokens;
      (if tokens[0] in stopWords then [] else [tokens[0]]) + rest
  }

  /** A word that is not a stopword is kept as often as it occurs. */
  lemma {:induction false} RemoveStopwordsCounts(tokens: seq<string>, stopWords: set<string>, w: string)
    requires w !in stopWords
    ensures multiset(RemoveStopwords(tokens, stopWords))[w] == multiset(tokens)[w]
  {
    if tokens != [] {
      RemoveStopwordsCounts(tokens[1..], stopWords, w);
      assert tokens == [tokens[0]] + tokens[1..];
      var head := if tokens[0] in stopWords then [] else [tokens[0]];
      assert RemoveStopwords(tokens, stopWords) == head + RemoveStopwords(tokens[1..], stopWords);
    }
  }

  /** Filtering keeps order: it works piece by piece. */
  lemma {:induction false} RemoveStopwordsAppend(a: seq<string>, b: seq<string>, stopWords: set<string>)
    ensures RemoveStopwords(a + b, stopWords) == RemoveStopwords(a, stopWords) + RemoveStopwords(b, stopWords)
  {
    if a != [] {
      var head := if a[0] in stopWords then [] else [a[0]];
      assert (a + b)[0] == a[0] && (a + b)[1..] == a[1..] + b;
      calc {
        RemoveStopwords(a + b, stopWords);
        head + RemoveStopwords(a[1..] + b, stopWords);
        { RemoveStopwordsAppend(a[1..], b, stopWords); }
        head + (RemoveStopwords(a[1..], stopWords) + RemoveStopwords(b, stopWords));
        (head + RemoveStopwords(a[1..], stopWords)) + RemoveStopwords(b, stopWords);
      }
    } else {
      assert a + b == b;
    }
  }

  /** A token list without stopwords passes through unchanged. */
  lemma {:induction false} RemoveStopwordsKeepsClean(tokens: seq<string>, stopWords: set<string>)
    requires forall i :: 0 <= i < |tokens| ==> tokens[i] !in stopWords
    ensures RemoveStopwords(tokens, stopWords) == tokens
  {
    if tokens != [] {
      RemoveStopwordsKeepsClean(tokens[1..], stopWords);
    }
  }

  /** The cleaned text before tokenising: lower case, no punctuation. */
  function Clean(text: string): (r: string)
    ensures NoUpper(r)
    ensures forall i :: 0 <= i < |r| ==> !IsPunctuation(r[i])
  {
    var r := RemovePunctuation(Lower(text));
    RemovePunctuationCounts(Lower(text));
    assert forall i :: 0 <= i < |r| ==> r[i] in multiset(Lower(text));
    r
  }

  /** Cleaning works character by character: cleaning a concatenation is
      concatenating the cleaned parts, so no character moves. */
  lemma CleanAppend(a: string, b: string)
    ensures Clean(a + b) == Clean(a) + Clean(b)
  {
    assert Lower(a + b) == Lower(a) + Lower(b);
    RemovePunctuationAppend(Lower(a), Lower(b));
  }

  /** One character is deleted when it is punctuation and otherwise kept,
      lower-cased. */
  lemma CleanChar(c: char)
    ensures Clean([c]) == if IsPunctuation(c) then [] else [LowerChar(c)]
  {
    assert Lower([c]) == [LowerChar(c)];
    RemovePunctuationChar(LowerChar(c));
  }

  /** The words of `text` after lower-casing, deleting punctuation,
      tokenising and removing stopwords. */
  function PreprocessText(text: string, stopWords: set<string>): (tokens: seq<string>)
    ensures forall i :: 0 <= i < |tokens| ==> tokens[i] !in stopWords
    ensures forall i :: 0 <= i < |tokens| ==> tokens[i] in Split(Clean(text))
  {
    RemoveStopwords(Split(Clean(text)), stopWords)
  }

  /** Every token is a non-empty run of lower-case, non-punctuation,
      non-whitespace characters that is not a stopword. */
  lemma PreprocessTokensClean(text: string, stopWords: set<string>, i: int)
    requires 0 <= i < |PreprocessText(text, stopWords)|
    ensures var w := PreprocessText(text, stopWords)[i];
      w != [] && w !in stopWords && NoUpper(w) && NoSpace(w) &&
      forall j :: 0 <= j < |w| ==> !IsPunctuation(w[j])
  {
    var c := Clean(text);
    var w := PreprocessText(text, stopWords)[i];
    var k :| 0 <= k < |Split(c)| && Split(c)[k] == w;
    ConcatElementInText(Split(c), k);
    DropSpacesIn(c);
    forall j | 0 <= j < |w| ensures !IsUpper(w[j]) && !IsPunctuation(w[j]) {
      assert w[j] in multiset(Concat(Split(c)));
    }
  }

  /** With no stopwords, the tokens put back together are the cleaned text
      without its whitespace: nothing but whitespace is lost. */
  lemma PreprocessWithoutStopwords(text: string)
    ensures Concat(PreprocessText(text, {})) == DropSpaces(Clean(text))
  {
    var ts := Split(Clean(text));
    RemoveStopwordsKeepsClean(ts, {});
  }

  lemma {:induction false} ConcatElementInText(ts: seq<string>, k: int)
    requires 0 <= k < |ts|
    ensures multiset(ts[k]) <= multiset(Concat(ts))
  {
    if k > 0 {
      ConcatElementInText(ts[1..], k - 1);
    }
  }

  lemma {:induction false} DropSpacesIn(s: string)
    ensures multiset(DropSpaces(s)) <= multiset(s)
  {
    if s != [] {
      DropSpacesIn(s[1..]);
      assert s == [s[0]] + s[1..];
    }
  }
}
