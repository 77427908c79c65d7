/**
 * Character and string operations the analysis functions are built from:
 * Python's `str.lower` and `str.title` on ASCII letters, the whitespace that
 * `str.strip` and `str.split` recognise, the characters of
 * `string.punctuation`, stripping, whitespace tokenising and substring search
 * (Python's `k in t` on strings).
 */
module TextOps {

  // ---------------------------------------------------------------------
  // Characters
  // ---------------------------------------------------------------------

  predicate IsUpper(c: char) { 'A' <= c <= 'Z' }

  predicate IsLower(c: char) { 'a' <= c <= 'z' }

  /** A cased character in Python's sense, restricted to ASCII. */
  predicate IsLetter(c: char) { IsUpper(c) || IsLower(c) }

  /** The characters for which Python's `str.isspace` holds. */
  predicate IsSpace(c: char)
  {
    var n := c as int;
    n == 0x20 || 0x09 <= n <= 0x0D || 0x1C <= n <= 0x1F || n == 0x85 || n == 0xA0 ||
    n == 0x1680 || 0x2000 <= n <= 0x200A || n == 0x2028 || n == 0x2029 ||
    n == 0x202F || n == 0x205F || n == 0x3000
  }

  /** The 32 characters of Python's `string.punctuation`. */
  predicate IsPunctuation(c: char)
  {
    var n := c as int;
    0x21 <= n <= 0x2F || 0x3A <= n <= 0x40 || 0x5B <= n <= 0x60 || 0x7B <= n <= 0x7E
  }

  function LowerChar(c: char): (d: char)
    ensures !IsUpper(d)
    ensures IsLetter(d) == IsLetter(c)
  {
    if IsUpper(c) then (c as int + 32) as char else c
  }

  function UpperChar(c: char): (d: char)
    ensures !IsLower(d)
    ensures IsLetter(d) == IsLetter(c)
    ensures LowerChar(d) == LowerChar(c)
  {
    if IsLower(c) then (c as int - 32) as char else c
  }

  // ---------------------------------------------------------------------
  // Case mapping
  // ---------------------------------------------------------------------

  predicate NoUpper(s: string)
  {
    forall i :: 0 <= i < |s| ==> !IsUpper(s[i])
  }

  /** `str.lower()` on ASCII letters; every other character is kept. */
  function Lower(s: string): (r: string)
    ensures |r| == |s|
    ensures NoUpper(r)
  {
    seq(|s|, i requires 0 <= i < |s| => LowerChar(s[i]))
  }

  /** Lower-casing changes nothing but case: a character that is not an
      upper-case letter is kept, and an upper-case letter becomes the
      lower-case letter whose upper case it is. */
  lemma LowerKeepsCharacters(s: string, i: int)
    requires 0 <= i < |s|
    ensures !IsUpper(s[i]) ==> Lower(s)[i] == s[i]
    ensures IsUpper(s[i]) ==> IsLower(Lower(s)[i]) && UpperChar(Lower(s)[i]) == s[i]
  {
  }

  /** Whether the letter case of `r[i]` is the one `str.title()` gives the
      character `s[i]`: upper case exactly for a letter not preceded by a
      letter (`afterLetter` says whether a letter came before `s[0]`). */
  predicate TitleCasedAt(s: string, r: string, afterLetter: bool, i: int)
    requires 0 <= i < |s| && |r| == |s|
  {
    IsUpper(r[i]) <==> IsLetter(s[i]) && !(if i == 0 then afterLetter else IsLetter(s[i - 1]))
  }

  /** `str.title()`, started with `afterLetter` telling whether the character
      before `s` was a letter: a letter that follows a non-letter becomes
      upper case, every other letter lower case. */
  function TitleFrom(s: string, afterLetter: bool): (r: string)
    ensures |r| == |s|
    ensures Lower(r) == Lower(s)
    ensures forall i :: 0 <= i < |s| ==> TitleCasedAt(s, r, afterLetter, i)
  {
    if s == [] then []
    else
      var c := if afterLetter then LowerChar(s[0]) else UpperChar(s[0]);
      var rest := TitleFrom(s[1..], IsLetter(s[0]));
      assert Lower([c] + rest) == [LowerChar(c)] + Lower(rest);
      assert Lower(s) == [LowerChar(s[0])] + Lower(s[1..]);
      var r := [c] + rest;
      assert forall i :: 0 <= i < |s| ==> TitleCasedAt(s, r, afterLetter, i) by {
        forall i | 0 <= i < |s| ensures TitleCasedAt(s, r, afterLetter, i) {
          if i > 0 {
            assert TitleCasedAt(s[1..], rest, IsLetter(s[0]), i - 1);
            assert r[i] == rest[i - 1] && s[i] == s[1..][i - 1];
            if i > 1 { assert s[i - 1] == s[1..][i - 2]; }
          }
        }
      }
      r
  }

  /** `str.title()`: every letter that does not follow a letter is upper
      case, every other letter lower case, and nothing else changes. */
  function Title(s: string): (r: string)
    ensures |r| == |s|
    ensures Lower(r) == Lower(s)
    ensures forall i :: 0 <= i < |s| ==> TitleCasedAt(s, r, false, i)
  {
    TitleFrom(s, false)
  }

  /** Title-casing loses nothing but case: two lower-case strings with the
      same title-cased form are equal. */
  lemma TitleInjectiveOnLower(a: string, b: string)
    requires NoUpper(a) && NoUpper(b)
    requires Title(a) == Title(b)
    ensures a == b
  {
    LowerOfNoUpper(a);
    LowerOfNoUpper(b);
  }

  lemma LowerOfNoUpper(s: string)
    requires NoUpper(s)
    ensures Lower(s) == s
  {
  }

  lemma LowerIdempotent(s: string)
    ensures Lower(Lower(s)) == Lower(s)
  {
    LowerOfNoUpper(Lower(s));
  }

  // ---------------------------------------------------------------------
  // Substrings
  // ---------------------------------------------------------------------

  ghost predicate OccursAt(k: string, t: string, i: int)
  {
    0 <= i && i + |k| <= |t| && t[i..i + |k|] == k
  }

  /** Python's `k in t` for strings: `k` is a contiguous part of `t`. */
  function Contains(t: string, k: string): (b: bool)
    ensures b <==> exists i :: OccursAt(k, t, i)
    decreases |t|
  {
    if |k| > |t| then
      assert forall i :: !OccursAt(k, t, i);
      false
    else if t[..|k|] == k then
      assert OccursAt(k, t, 0);
      true
    else
      var b := Contains(t[1..], k);
      assert b ==> exists i :: OccursAt(k, t, i) by {
        if b {
          var i :| OccursAt(k, t[1..], i);
          assert t[1..][i..i + |k|] == t[i + 1..i + 1 + |k|];
          assert OccursAt(k, t, i + 1);
        }
      }
      assert (exists i :: OccursAt(k, t, i)) ==> b by {
        if exists i :: OccursAt(k, t, i) {
          var i :| OccursAt(k, t, i);
          assert i != 0;
          assert t[1..][i - 1..i - 1 + |k|] == t[i..i + |k|];
          assert OccursAt(k, t[1..], i - 1);
        }
      }
      b
  }

  /** Every part of a string without upper-case letters is free of them too. */
  lemma ContainedInNoUpper(t: string, k: string)
    requires NoUpper(t)
    requires Contains(t, k)
    ensures NoUpper(k)
  {
    var i :| OccursAt(k, t, i);
    forall j | 0 <= j < |k| ensures !IsUpper(k[j]) {
      assert k[j] == t[i + j];
    }
  }

  // ---------------------------------------------------------------------
  // Punctuation removal
  // ---------------------------------------------------------------------

  /** `s.translate(str.maketrans('', '', string.punctuation))`: every
      punctuation character is deleted, everything else kept in order. */
  function RemovePunctuation(s: string): (r: string)
    ensures |r| <= |s|
    ensures forall i :: 0 <= i < |r| ==> !IsPunctuation(r[i])
  {
    if s == [] then []
    else (if IsPunctuation(s[0]) then [] else [s[0]]) + RemovePunctuation(s[1..])
  }

  /** Every character that is not punctuation is kept as often as it occurs;
      punctuation is gone. */
  lemma {:induction false} RemovePunctuationCounts(s: string)
    ensures forall c :: multiset(RemovePunctuation(s))[c] == if IsPunctuation(c) then 0 else multiset(s)[c]
  {
    if s != [] {
      assert s == [s[0]] + s[1..];
      RemovePunctuationCounts(s[1..]);
    }
  }

  /** Deletion works character by character, so the kept characters stay in
      their order: removing from a concatenation is concatenating the
      removals. */
  lemma {:induction false} RemovePunctuationAppend(a: string, b: string)
    ensures RemovePunctuation(a + b) == RemovePunctuation(a) + RemovePunctuation(b)
  {
    if a != [] {
      var h := if IsPunctuation(a[0]) then [] else [a[0]];
      assert (a + b)[0] == a[0];
      assert (a + b)[1..] == a[1..] + b;
      assert RemovePunctuation(a + b) == h + RemovePunctuation(a[1..] + b);
      assert RemovePunctuation(a) == h + RemovePunctuation(a[1..]);
      RemovePunctuationAppend(a[1..], b);
    } else {
      assert a + b == b;
    }
  }

  /** A single character is deleted exactly when it is punctuation. */
  lemma RemovePunctuationChar(c: char)
    ensures RemovePunctuation([c]) == if IsPunctuation(c) then [] else [c]
  {
  }

  // ---------------------------------------------------------------------
  // Stripping
  // ---------------------------------------------------------------------

  predicate AllSpace(s: string)
  {
    forall i :: 0 <= i < |s| ==> IsSpace(s[i])
  }

  function TrimStart(s: string): (r: string)
    ensures |r| <= |s| && r == s[|s| - |r|..]
    ensures AllSpace(s[..|s| - |r|])
    ensures r != [] ==> !IsSpace(r[0])
  {
    if s != [] && IsSpace(s[0]) then TrimStart(s[1..]) else s
  }

  function TrimEnd(s: string): (r: string)
    ensures |r| <= |s| && r == s[..|r|]
    ensures AllSpace(s[|r|..])
    ensures r != [] ==> !IsSpace(r[|r| - 1])
  {
    if s != [] && IsSpace(s[|s| - 1]) then
      var r := TrimEnd(s[..|s| - 1]);
      assert s[|r|..] == s[..|s| - 1][|r|..] + [s[|s| - 1]];
      r
    else s
  }

  /** `str.strip()`: leading and trailing whitespace removed. What is left
      neither starts nor ends with whitespace. */
  function Strip(s: string): (r: string)
    ensures |r| <= |s|
    ensures r != [] ==> !IsSpace(r[0]) && !IsSpace(r[|r| - 1])
  {
    var a := TrimStart(s);
    var r := TrimEnd(a);
    assert r != [] ==> r[0] == a[0];
    r
  }

  /** `not s.strip()` holds exactly for the strings made of whitespace only. */
  lemma StripEmptyIffBlank(s: string)
    ensures Strip(s) == [] <==> AllSpace(s)
  {
    var a := TrimStart(s);
    if Strip(s) == [] {
      assert AllSpace(a[0..]);
      assert |a| == 0;
      assert s[..|s| - |a|] == s;
    } else {
      assert !IsSpace(Strip(s)[0]);
      assert Strip(s)[0] == s[|s| - |a|];
    }
  }

  // ---------------------------------------------------------------------
  // Whitespace tokenising
  // ---------------------------------------------------------------------

  predicate NoSpace(s: string)
  {
    forall i :: 0 <= i < |s| ==> !IsSpace(s[i])
  }

  function Concat(ts: seq<string>): string
  {
    if ts == [] then [] else ts[0] + Concat(ts[1..])
  }

  lemma {:induction false} ConcatAppend(a: seq<string>, b: seq<string>)
    ensures Concat(a + b) == Concat(a) + Concat(b)
  {
    if a == [] {
      assert a + b == b;
    } else {
      assert (a + b)[1..] == a[1..] + b;
      ConcatAppend(a[1..], b);
    }
  }

  /** The non-whitespace characters of `s`, in order. */
  function DropSpaces(s: string): string
  {
    if s == [] then [] else (if IsSpace(s[0]) then [] else [s[0]]) + DropSpaces(s[1..])
  }

  /** Splits `s` at runs of whitespace, `cur` being the part of a word
      already read. */
  function SplitFrom(s: string, cur: string): seq<string>
    requires NoSpace(cur)
    decreases |s|
  {
    if s == [] then
      if cur == [] then [] else [cur]
    else if IsSpace(s[0]) then
      (if cur == [] then [] else [cur]) + SplitFrom(s[1..], [])
    else
      SplitFrom(s[1..], cur + [s[0]])
  }

  /** Every word produced is non-empty and free of whitespace. */
  lemma {:induction false} SplitFromWords(s: string, cur: string)
    requires NoSpace(cur)
    ensures forall i :: 0 <= i < |SplitFrom(s, cur)| ==>
      SplitFrom(s, cur)[i] != [] && NoSpace(SplitFrom(s, cur)[i])
    decreases |s|
  {
    if s != [] {
      if IsSpace(s[0]) {
        SplitFromWords(s[1..], []);
      } else {
        assert NoSpace(cur + [s[0]]);
        SplitFromWords(s[1..], cur + [s[0]]);
      }
    }
  }

  /** The words put back together are the pending word followed by the rest
      of the text without its whitespace. */
  lemma {:induction false} SplitFromKeepsText(s: string, cur: string)
    requires NoSpace(cur)
    ensures Concat(SplitFrom(s, cur)) == cur + DropSpaces(s)
    decreases |s|
  {
    if s == [] {
      if cur != [] {
        assert Concat([cur]) == cur + Concat([]);
      }
    } else if IsSpace(s[0]) {
      var first: seq<string> := if cur == [] then [] else [cur];
      var rest := SplitFrom(s[1..], []);
      SplitFromKeepsText(s[1..], []);
      ConcatAppend(first, rest);
      assert Concat(first) == cur by {
        if cur != [] {
          assert Concat([cur]) == cur + Concat([]);
        }
      }
      assert SplitFrom(s, cur) == first + rest;
      assert DropSpaces(s) == DropSpaces(s[1..]);
    } else {
      assert NoSpace(cur + [s[0]]);
      SplitFromKeepsText(s[1..], cur + [s[0]]);
      assert DropSpaces(s) == [s[0]] + DropSpaces(s[1..]);
      assert cur + DropSpaces(s) == (cur + [s[0]]) + DropSpaces(s[1..]);
    }
  }

  /** The words of `s`: its maximal runs of non-whitespace characters.
      Every word is non-empty and free of whitespace, and the words put back
      together are the text with its whitespace deleted. */
  function Split(s: string): (ts: seq<string>)
    ensures forall i :: 0 <= i < |ts| ==> ts[i] != [] && NoSpace(ts[i])
    ensures Concat(ts) == DropSpaces(s)
  {
    SplitFromWords(s, []);
    SplitFromKeepsText(s, []);
    assert [] + DropSpaces(s) == DropSpaces(s);
    SplitFrom(s, [])
  }

  lemma {:induction false} SplitFromWord(w: string, cur: string)
    requires NoSpace(w) && NoSpace(cur)
    ensures SplitFrom(w, cur) == if cur + w == [] then [] else [cur + w]
    decreases |w|
  {
    if w != [] {
      assert NoSpace(cur + [w[0]]);
      SplitFromWord(w[1..], cur + [w[0]]);
      assert (cur + [w[0]]) + w[1..] == cur + w;
    } else {
      assert cur + w == cur;
    }
  }

  /** A text without whitespace is one word, or none when it is empty. */
  lemma SplitWord(w: string)
    requires NoSpace(w)
    ensures Split(w) == if w == [] then [] else [w]
  {
    SplitFromWord(w, []);
    assert [] + w == w;
  }

  lemma {:induction false} SplitFromAtSpace(a: string, c: char, b: string, cur: string)
    requires IsSpace(c) && NoSpace(cur)
    ensures SplitFrom(a + [c] + b, cur) == SplitFrom(a, cur) + Split(b)
    decreases |a|
  {
    var s := a + [c] + b;
    if a == [] {
      assert s[0] == c && s[1..] == b;
    } else {
      assert s[0] == a[0] && s[1..] == a[1..] + [c] + b;
      if IsSpace(a[0]) {
        SplitFromAtSpace(a[1..], c, b, []);
      } else {
        assert NoSpace(cur + [a[0]]);
        SplitFromAtSpace(a[1..], c, b, cur + [a[0]]);
      }
    }
  }

  /** A whitespace character always ends a word: the words of a text split
      at a whitespace character are the words of each side. */
  lemma SplitAtSpace(a: string, c: char, b: string)
    requires IsSpace(c)
    ensures Split(a + [c] + b) == Split(a) + Split(b)
  {
    SplitFromAtSpace(a, c, b, []);
  }
}
