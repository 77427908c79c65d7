/**
 * The frequency analyser: count every token and keep the 20 most frequent,
 * highest count first, equal counts in the order the tokens were first seen
 * (the behaviour of `Counter(tokens).most_common(20)`).
 */
module Frequency {

  /** One entry of the counter: a word and how often it occurs. */
  datatype WordCount = WordCount(word: string, count: nat)

  /** Number of occurrences of `w` in `tokens`. */
  function Count(tokens: seq<string>, w: string): (n: nat)
    ensures n <= |tokens|
    ensures n > 0 <==> w in tokens
  {
    multiset(tokens)[w]
  }

  predicate NoDuplicates<T(==)>(s: seq<T>)
  {
    forall i, j :: 0 <= i < j < |s| ==> s[i] != s[j]
  }

  /** Position of the first occurrence of `w` in `s`. */
  ghost function FirstIndex(s: seq<string>, w: string): (p: nat)
    requires w in s
    ensures p < |s| && s[p] == w && w !in s[..p]
  {
    if s[0] == w then 0
    else
      var p := FirstIndex(s[1..], w);
      assert s[1..][..p] == s[1..p + 1];
      assert s[..p + 1] == [s[0]] + s[1..p + 1];
      p + 1
  }

  /** Any position holding the first occurrence of `w` is FirstIndex. */
  lemma FirstIndexUnique(s: seq<string>, w: string, p: nat)
    requires p < |s| && s[p] == w && w !in s[..p]
    ensures FirstIndex(s, w) == p
  {
  }

  /** The distinct tokens in the order they are first seen: the keys of the
      counter, in its insertion order. */
  function Distinct(tokens: seq<string>): (ws: seq<string>)
    ensures forall w :: w in ws <==> w in tokens
    ensures NoDuplicates(ws)
  {
    if tokens == [] then []
    else
      var init := tokens[..|tokens| - 1];
      var last := tokens[|tokens| - 1];
      assert tokens == init + [last];
      var ws := Distinct(init);
      if last in ws then ws else ws + [last]
  }

  /** The distinct tokens are ordered by first occurrence. */
  lemma {:induction false} DistinctInFirstSeenOrder(tokens: seq<string>)
    ensures forall i, j :: 0 <= i < j < |Distinct(tokens)| ==>
      FirstIndex(tokens, Distinct(tokens)[i]) < FirstIndex(tokens, Distinct(tokens)[j])
  {
    if tokens != [] {
      var init := tokens[..|tokens| - 1];
      var last := tokens[|tokens| - 1];
      assert tokens == init + [last];
      DistinctInFirstSeenOrder(init);
      var ws := Distinct(init);
      // a word already seen in `init` is first seen at the same place in `tokens`
      forall w | w in init ensures FirstIndex(tokens, w) == FirstIndex(init, w) {
        var p := FirstIndex(init, w);
        assert tokens[..p] == init[..p];
        FirstIndexUnique(tokens, w, p);
      }
      if last !in ws {
        assert last !in init;
        assert tokens[..|tokens| - 1] == init;
        FirstIndexUnique(tokens, last, |tokens| - 1);
      }
    }
  }

  /** The counter: every distinct token with its number of occurrences, in
      first-seen order. */
  function Tally(tokens: seq<string>): (e: seq<WordCount>)
    ensures |e| == |Distinct(tokens)|
    ensures forall i :: 0 <= i < |e| ==> e[i].word == Distinct(tokens)[i]
    ensures forall i :: 0 <= i < |e| ==> e[i].count == Count(tokens, e[i].word) >= 1
  {
    var ws := Distinct(tokens);
    assert forall w :: w in ws ==> w in multiset(tokens);
    seq(|ws|, i requires 0 <= i < |ws| => WordCount(ws[i], Count(tokens, ws[i])))
  }

  /** Position of the first entry with the highest count. */
  function FirstMaxIndex(e: seq<WordCount>): (i: nat)
    requires e != []
    ensures i < |e|
    ensures forall j :: 0 <= j < |e| ==> e[j].count <= e[i].count
    ensures forall j :: 0 <= j < i ==> e[j].count < e[i].count
  {
    if |e| == 1 then 0
    else
      var k := FirstMaxIndex(e[1..]) + 1;
      assert forall j :: 1 <= j < |e| ==> e[j] == e[1..][j - 1];
      if e[0].count >= e[k].count then 0 else k
  }

  /** `e` without its entry at position `i`. */
  function RemoveAt(e: seq<WordCount>, i: nat): (rest: seq<WordCount>)
    requires i < |e|
    ensures |rest| == |e| - 1
  {
    e[..i] + e[i + 1..]
  }

  /** Where each remaining entry stood before the removal. */
  lemma RemoveAtIndex(e: seq<WordCount>, i: nat, k: nat)
    requires i < |e| && k < |e| - 1
    ensures RemoveAt(e, i)[k] == if k < i then e[k] else e[k + 1]
  {
  }

  /** Removing an entry adds no new one. */
  lemma RemoveAtMember(e: seq<WordCount>, i: nat, x: WordCount)
    requires i < |e|
    requires x in RemoveAt(e, i)
    ensures x in e
  {
    var k :| 0 <= k < |RemoveAt(e, i)| && RemoveAt(e, i)[k] == x;
    RemoveAtIndex(e, i, k);
  }

  /** `x` stands before `y` in `e`. */
  ghost predicate Before(e: seq<WordCount>, x: WordCount, y: WordCount)
  {
    exists p, q :: 0 <= p < q < |e| && e[p] == x && e[q] == y
  }

  /** `x` ranks above `y` in `e`: a higher count, or the same count and an
      earlier place. */
  ghost predicate Outranks(e: seq<WordCount>, x: WordCount, y: WordCount)
  {
    x.count > y.count || (x.count == y.count && Before(e, x, y))
  }

  /** Removing an entry keeps the relative order of the others. */
  lemma OutranksAfterRemove(e: seq<WordCount>, i: nat, x: WordCount, y: WordCount)
    requires i < |e|
    requires Outranks(RemoveAt(e, i), x, y)
    ensures Outranks(e, x, y)
  {
    if x.count == y.count {
      BeforeAfterRemove(e, i, x, y);
    }
  }

  /** Removing an entry keeps the relative order of the others. */
  lemma BeforeAfterRemove(e: seq<WordCount>, i: nat, x: WordCount, y: WordCount)
    requires i < |e|
    requires Before(RemoveAt(e, i), x, y)
    ensures Before(e, x, y)
  {
    var rest := RemoveAt(e, i);
    var p, q :| 0 <= p < q < |rest| && rest[p] == x && rest[q] == y;
    RemoveAtIndex(e, i, p);
    RemoveAtIndex(e, i, q);
    var p' := if p < i then p else p + 1;
    var q' := if q < i then q else q + 1;
    assert e[p'] == x && e[q'] == y;
  }

  /** An entry other than the first maximum at position `i` either has a
      smaller count or has the same count and stands after it. */
  lemma OutranksOthers(e: seq<WordCount>, x: WordCount)
    requires e != []
    requires x in RemoveAt(e, FirstMaxIndex(e))
    ensures var m := e[FirstMaxIndex(e)];
      x.count < m.count || (x.count == m.count && Before(e, m, x))
  {
    var i := FirstMaxIndex(e);
    var rest := RemoveAt(e, i);
    var q :| 0 <= q < |rest| && rest[q] == x;
    RemoveAtIndex(e, i, q);
    var q' := if q < i then q else q + 1;
    assert e[q'] == x;
    if q' > i {
      assert Before(e, e[i], x);
    }
  }

  /** The `n` most frequent entries, highest count first: repeatedly take the
      first entry with the highest count among those not yet taken. */
  function MostCommon(e: seq<WordCount>, n: nat): (r: seq<WordCount>)
    ensures |r| == if n < |e| then n else |e|
    ensures forall k :: 0 <= k < |r| ==> r[k] in e
    decreases n
  {
    if n == 0 || e == [] then []
    else
      var i := FirstMaxIndex(e);
      var rest := RemoveAt(e, i);
      var tail := MostCommon(rest, n - 1);
      assert forall k :: 0 <= k < |tail| ==> tail[k] in e by {
        forall k | 0 <= k < |tail| ensures tail[k] in e {
          RemoveAtMember(e, i, tail[k]);
        }
      }
      [e[i]] + tail
  }

  /** The first maximum of `e` outranks every entry of `e` left after
      removing it. */
  lemma FirstMaxOutranksRest(e: seq<WordCount>, x: WordCount)
    requires e != []
    requires x in RemoveAt(e, FirstMaxIndex(e))
    ensures Outranks(e, e[FirstMaxIndex(e)], x)
  {
    OutranksOthers(e, x);
  }

  /** The selected entries are ordered by count, highest first; entries with
      equal counts keep the order they have in `e`. */
  lemma {:induction false} MostCommonOrdered(e: seq<WordCount>, n: nat)
    ensures forall a, b :: 0 <= a < b < |MostCommon(e, n)| ==>
      Outranks(e, MostCommon(e, n)[a], MostCommon(e, n)[b])
    decreases n
  {
    if n != 0 && e != [] {
      var i := FirstMaxIndex(e);
      var rest := RemoveAt(e, i);
      var tail := MostCommon(rest, n - 1);
      var r := MostCommon(e, n);
      assert r == [e[i]] + tail;
      MostCommonOrdered(rest, n - 1);
      forall a, b | 0 <= a < b < |r| ensures Outranks(e, r[a], r[b]) {
        assert r[b] == tail[b - 1];
        if a == 0 {
          FirstMaxOutranksRest(e, r[b]);
        } else {
          assert r[a] == tail[a - 1];
          assert Outranks(rest, tail[a - 1], tail[b - 1]);
          OutranksAfterRemove(e, i, r[a], r[b]);
        }
      }
    }
  }

  /** Every entry left out ranks below every selected one: its count is
      smaller, or equal and it stands later in `e`. */
  lemma {:induction false} MostCommonLeftOutRankLower(e: seq<WordCount>, n: nat)
    ensures forall x, a :: x in e && x !in MostCommon(e, n) && 0 <= a < |MostCommon(e, n)| ==>
      Outranks(e, MostCommon(e, n)[a], x)
    decreases n
  {
    if n != 0 && e != [] {
      var i := FirstMaxIndex(e);
      var rest := RemoveAt(e, i);
      var tail := MostCommon(rest, n - 1);
      var r := MostCommon(e, n);
      assert r == [e[i]] + tail;
      MostCommonLeftOutRankLower(rest, n - 1);
      forall x, a | x in e && x !in r && 0 <= a < |r| ensures Outranks(e, r[a], x) {
        var q :| 0 <= q < |e| && e[q] == x;
        assert q != i;
        assert x in rest by {
          if q < i {
            RemoveAtIndex(e, i, q);
            assert rest[q] == x;
          } else {
            RemoveAtIndex(e, i, q - 1);
            assert rest[q - 1] == x;
          }
        }
        if a == 0 {
          FirstMaxOutranksRest(e, x);
        } else {
          assert r[a] == tail[a - 1];
          assert Outranks(rest, tail[a - 1], x);
          OutranksAfterRemove(e, i, r[a], x);
        }
      }
    }
  }

  lemma RemoveAtNoDuplicates(e: seq<WordCount>, i: nat)
    requires i < |e| && NoDuplicates(e)
    ensures NoDuplicates(RemoveAt(e, i))
    ensures e[i] !in RemoveAt(e, i)
  {
    var rest := RemoveAt(e, i);
    forall a, b | 0 <= a < b < |rest| ensures rest[a] != rest[b] {
      RemoveAtIndex(e, i, a);
      RemoveAtIndex(e, i, b);
    }
    forall q | 0 <= q < |rest| ensures rest[q] != e[i] {
      RemoveAtIndex(e, i, q);
    }
  }

  /** Selecting from entries without repeats gives entries without repeats. */
  lemma {:induction false} MostCommonNoDuplicates(e: seq<WordCount>, n: nat)
    requires NoDuplicates(e)
    ensures NoDuplicates(MostCommon(e, n))
    decreases n
  {
    if n != 0 && e != [] {
      var i := FirstMaxIndex(e);
      var rest := RemoveAt(e, i);
      var tail := MostCommon(rest, n - 1);
      var r := MostCommon(e, n);
      assert r == [e[i]] + tail;
      RemoveAtNoDuplicates(e, i);
      MostCommonNoDuplicates(rest, n - 1);
      forall a, b | 0 <= a < b < |r| ensures r[a] != r[b] {
        assert r[b] == tail[b - 1] && r[b] in rest;
        if a > 0 {
          assert r[a] == tail[a - 1];
        }
      }
    }
  }

  /** The words of a list of entries (the keys of the resulting dict). The
      `ensures` only unfolds the body for the lemmas that use it. */
  function Words(r: seq<WordCount>): (ws: seq<string>)
    ensures |ws| == |r| && forall i :: 0 <= i < |r| ==> ws[i] == r[i].word
  {
    seq(|r|, i requires 0 <= i < |r| => r[i].word)
  }

  /** `dict(Counter(tokens).most_common(20))`, as an ordered list of
      entries. */
  function MostCommonWords(tokens: seq<string>): (r: seq<WordCount>)
    ensures |r| <= 20
    ensures forall i :: 0 <= i < |r| ==> r[i] in Tally(tokens)
  {
    MostCommon(Tally(tokens), 20)
  }

  /** The counter's entries, like its keys, are all different. */
  lemma TallyNoDuplicates(tokens: seq<string>)
    ensures NoDuplicates(Tally(tokens))
  {
    var e := Tally(tokens);
    forall a, b | 0 <= a < b < |e| ensures e[a] != e[b] {
      assert e[a].word == Distinct(tokens)[a] && e[b].word == Distinct(tokens)[b];
    }
  }

  /** The most common words: at most 20 different tokens, each with its
      exact number of occurrences. */
  lemma MostCommonWordsCounts(tokens: seq<string>)
    ensures var r := MostCommonWords(tokens);
      && |r| == (if |Distinct(tokens)| < 20 then |Distinct(tokens)| else 20)
      && (forall i :: 0 <= i < |r| ==> r[i].word in tokens && r[i].count == Count(tokens, r[i].word) >= 1)
      && NoDuplicates(Words(r))
  {
    var e := Tally(tokens);
    var r := MostCommonWords(tokens);
    TallyNoDuplicates(tokens);
    MostCommonNoDuplicates(e, 20);
    forall i | 0 <= i < |r| ensures r[i].word in tokens && r[i].count == Count(tokens, r[i].word) >= 1 {
      TallyEntry(tokens, r[i]);
    }
  }

  lemma TallyEntry(tokens: seq<string>, x: WordCount)
    requires x in Tally(tokens)
    ensures x.word in tokens && x.count == Count(tokens, x.word) >= 1
  {
  }

  /** Order in the counter is first-seen order. */
  lemma TallyBeforeIsFirstSeen(tokens: seq<string>, x: WordCount, y: WordCount)
    requires Before(Tally(tokens), x, y)
    ensures x.word in tokens && y.word in tokens
    ensures FirstIndex(tokens, x.word) < FirstIndex(tokens, y.word)
  {
    var e := Tally(tokens);
    DistinctInFirstSeenOrder(tokens);
    var p, q :| 0 <= p < q < |e| && e[p] == x && e[q] == y;
  }

  /** The most common words come highest count first, equal counts in the
      order the words were first seen. */
  lemma MostCommonWordsOrdered(tokens: seq<string>)
    ensures var r := MostCommonWords(tokens);
      forall i, j :: 0 <= i < j < |r| ==>
        r[i].count > r[j].count ||
        (r[i].count == r[j].count && FirstIndex(tokens, r[i].word) < FirstIndex(tokens, r[j].word))
  {
    var e := Tally(tokens);
    var r := MostCommonWords(tokens);
    MostCommonOrdered(e, 20);
    forall i, j | 0 <= i < j < |r| && r[i].count == r[j].count
      ensures FirstIndex(tokens, r[i].word) < FirstIndex(tokens, r[j].word)
    {
      assert Outranks(e, r[i], r[j]);
      TallyBeforeIsFirstSeen(tokens, r[i], r[j]);
    }
  }

  /** A token left out of the most common words occurs no more often than any
      word kept, and if exactly as often, it was first seen later. */
  lemma MostCommonWordsLeftOut(tokens: seq<string>, w: string)
    requires w in tokens && w !in Words(MostCommonWords(tokens))
    ensures var r := MostCommonWords(tokens);
      forall i :: 0 <= i < |r| ==>
        Count(tokens, w) < r[i].count ||
        (Count(tokens, w) == r[i].count && FirstIndex(tokens, r[i].word) < FirstIndex(tokens, w))
  {
    var e := Tally(tokens);
    var ws := Distinct(tokens);
    var r := MostCommonWords(tokens);
    MostCommonLeftOutRankLower(e, 20);
    var k :| 0 <= k < |ws| && ws[k] == w;
    var x := e[k];
    assert x.word == w && x.count == Count(tokens, w);
    forall j | 0 <= j < |r| ensures r[j] != x {
      assert Words(r)[j] != w;
    }
    assert x in e && x !in r;
    forall i | 0 <= i < |r|
      ensures x.count < r[i].count ||
        (x.count == r[i].count && FirstIndex(tokens, r[i].word) < FirstIndex(tokens, w))
    {
      assert Outranks(e, r[i], x);
      if x.count == r[i].count {
        TallyBeforeIsFirstSeen(tokens, r[i], x);
      }
    }
  }
}
