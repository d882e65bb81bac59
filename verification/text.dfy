/**
 The string primitives the evaluator is built from: Python's `str.lower()`,
 `str.split()` with no separator, and the `in` substring test, together with the
 two keyword tests the evaluator applies to one candidate turn.
 */
module Text {

  /** Python's `str.isspace()` characters: the separators `str.split()` splits on. */
  predicate IsSpace(c: char) {
    || ('\t' <= c <= '\r')
    || ('\U{1C}' <= c <= ' ')
    || c == '\U{85}' || c == '\U{A0}' || c == '\U{1680}'
    || ('\U{2000}' <= c <= '\U{200A}')
    || c == '\U{2028}' || c == '\U{2029}' || c == '\U{202F}' || c == '\U{205F}' || c == '\U{3000}'
  }

  /** Lower-casing of one character, restricted to the ASCII letters. */
  function LowerChar(c: char): char {
    if 'A' <= c <= 'Z' then (c as int + 32) as char else c
  }

  /** `s.lower()` on ASCII text: every upper-case letter replaced by its lower-case form. */
  function Lower(s: string): (r: string)
    ensures |r| == |s|
    ensures forall i :: 0 <= i < |s| ==> r[i] == LowerChar(s[i])
    ensures forall i :: 0 <= i < |r| ==> !('A' <= r[i] <= 'Z')
  {
    seq(|s|, i requires 0 <= i < |s| => LowerChar(s[i]))
  }

  /** Lower-casing already lower-cased text changes nothing. */
  lemma LowerIdempotent(s: string)
    ensures Lower(Lower(s)) == Lower(s)
  {
  }

  // ---------------------------------------------------------------------------
  // Substring test: `t in s`
  // ---------------------------------------------------------------------------

  /** `t` occurs in `s` starting at index `i`. */
  predicate OccursAt(s: string, t: string, i: int) {
    0 <= i && i + |t| <= |s| && s[i..i + |t|] == t
  }

  /** Python's `t in s` on strings: `t` is a contiguous piece of `s`. */
  predicate Contains(s: string, t: string) {
    exists i | 0 <= i <= |s| - |t| :: OccursAt(s, t, i)
  }

  /** A piece of a piece of `a` is a piece of `a`. */
  lemma ContainsTransitive(a: string, b: string, c: string)
    requires Contains(a, b) && Contains(b, c)
    ensures Contains(a, c)
  {
    var i :| 0 <= i <= |a| - |b| && OccursAt(a, b, i);
    var j :| 0 <= j <= |b| - |c| && OccursAt(b, c, j);
    forall k | 0 <= k < |c|
      ensures a[i + j + k] == c[k]
    {
      assert c[k] == b[j + k] == a[i + j + k];
    }
    assert a[i + j..i + j + |c|] == c;
    assert OccursAt(a, c, i + j);
  }

  /** Every text containing "implemented" also contains "implement". */
  lemma ImplementedContainsImplement(s: string)
    requires Contains(s, "implemented")
    ensures Contains(s, "implement")
  {
    assert OccursAt("implemented", "implement", 0);
    ContainsTransitive(s, "implemented", "implement");
  }

  // ---------------------------------------------------------------------------
  // Whitespace split: `s.split()`
  // ---------------------------------------------------------------------------

  /** Length of the longest whitespace-free prefix of `s`. */
  function WordLength(s: string): (n: nat)
    ensures n <= |s|
    ensures forall i :: 0 <= i < n ==> !IsSpace(s[i])
    ensures n == |s| || IsSpace(s[n])
  {
    if s == [] || IsSpace(s[0]) then 0 else 1 + WordLength(s[1..])
  }

  /** `s` with every whitespace character removed. */
  function Squeeze(s: string): string {
    if s == [] then []
    else (if IsSpace(s[0]) then [] else [s[0]]) + Squeeze(s[1..])
  }

  /** The words of a list, written one after the other. */
  function Concat(words: seq<string>): string {
    if words == [] then [] else words[0] + Concat(words[1..])
  }

  /** Python's `s.split()`: the maximal runs of non-whitespace characters, in order. */
  function Split(s: string): seq<string>
    decreases |s|
  {
    if s == [] then []
    else if IsSpace(s[0]) then Split(s[1..])
    else
      var n := WordLength(s);
      [s[..n]] + Split(s[n..])
  }

  /** A word: non-empty and free of whitespace. */
  predicate IsWord(w: string) {
    |w| > 0 && forall k :: 0 <= k < |w| ==> !IsSpace(w[k])
  }

  /**
   The pieces `s.split()` returns are words, and written one after the other they
   give back `s` with its whitespace removed.
   */
  lemma {:induction false} SplitIntoWords(s: string)
    ensures forall w :: w in Split(s) ==> IsWord(w)
    ensures Concat(Split(s)) == Squeeze(s)
    decreases |s|
  {
    if s == [] {
    } else if IsSpace(s[0]) {
      SplitIntoWords(s[1..]);
    } else {
      var n := WordLength(s);
      SplitIntoWords(s[n..]);
      SqueezeWord(s, n);
      var words := [s[..n]] + Split(s[n..]);
      assert words[1..] == Split(s[n..]);
    }
  }

  /** Removing whitespace from a whitespace-free prefix keeps that prefix. */
  lemma {:induction false} SqueezeWord(s: string, n: nat)
    requires n <= |s|
    requires forall i :: 0 <= i < n ==> !IsSpace(s[i])
    ensures Squeeze(s) == s[..n] + Squeeze(s[n..])
    decreases n
  {
    if n > 0 {
      SqueezeWord(s[1..], n - 1);
      assert s[1..][n - 1..] == s[n..];
      assert s[..n] == [s[0]] + s[1..][..n - 1];
    }
  }

  /**
   An independent word counter: a two-state scan that counts the places where a
   run of non-whitespace begins. `inWord` says whether the character just before
   `s` was part of a word.
   */
  function WordStarts(s: string, inWord: bool): nat
    decreases |s|
  {
    if s == [] then 0
    else if IsSpace(s[0]) then WordStarts(s[1..], false)
    else (if inWord then 0 else 1) + WordStarts(s[1..], true)
  }

  /** Inside a word, the scan adds nothing until the word ends. */
  lemma {:induction false} WordStartsInsideWord(s: string, k: nat, n: nat)
    requires 1 <= k <= n <= |s|
    requires forall i :: 0 <= i < n ==> !IsSpace(s[i])
    ensures WordStarts(s[k..], true) == WordStarts(s[n..], true)
    decreases n - k
  {
    if k < n {
      assert s[k..][1..] == s[k + 1..];
      WordStartsInsideWord(s, k + 1, n);
    }
  }

  /** The number of words `s.split()` returns is the number of places a word begins. */
  lemma {:induction false} SplitCountsWordStarts(s: string)
    ensures |Split(s)| == WordStarts(s, false)
    decreases |s|
  {
    if s == [] {
    } else if IsSpace(s[0]) {
      SplitCountsWordStarts(s[1..]);
    } else {
      var n := WordLength(s);
      SplitCountsWordStarts(s[n..]);
      if n < |s| {
        WordStartsInsideWord(s, 1, n);
        assert s[n..][1..] == s[n + 1..];
      } else {
        WordStartsInsideWord(s, 1, n);
      }
    }
  }

  // ---------------------------------------------------------------------------
  // Keyword tests on one (already lower-cased) turn
  // ---------------------------------------------------------------------------

  /** Some term of the list occurs in the text. */
  predicate ContainsAny(terms: seq<string>, text: string) {
    exists i | 0 <= i < |terms| :: Contains(text, terms[i])
  }

  /** The terms of the list that occur in the text. */
  function Matched(terms: seq<string>, text: string): set<string> {
    set i | 0 <= i < |terms| && Contains(text, terms[i]) :: terms[i]
  }

  /** No term is listed twice. */
  predicate Distinct(terms: seq<string>) {
    forall i, j :: 0 <= i < j < |terms| ==> terms[i] != terms[j]
  }

  /** The number of listed terms that occur in the text, each counted once however often it occurs. */
  function CountTerms(terms: seq<string>, text: string): (n: nat)
    ensures n <= |terms|
    ensures n > 0 <==> ContainsAny(terms, text)
  {
    if terms == [] then 0
    else
      var init := terms[..|terms| - 1];
      var last := terms[|terms| - 1];
      assert forall i :: 0 <= i < |init| ==> init[i] == terms[i];
      CountTerms(init, text) + (if Contains(text, last) then 1 else 0)
  }

  /** With a repetition-free list, the count is the number of distinct terms that occur. */
  lemma {:induction false} CountTermsIsDistinctMatches(terms: seq<string>, text: string)
    requires Distinct(terms)
    ensures CountTerms(terms, text) == |Matched(terms, text)|
  {
    if terms != [] {
      var init := terms[..|terms| - 1];
      var last := terms[|terms| - 1];
      assert Distinct(init) by {
        assert forall i :: 0 <= i < |init| ==> init[i] == terms[i];
      }
      CountTermsIsDistinctMatches(init, text);
      MatchedStep(terms, text);
    } else {
      assert Matched(terms, text) == {};
    }
  }

  /** Matching one more, not yet listed, term adds it to the matched set exactly when it occurs. */
  lemma MatchedStep(terms: seq<string>, text: string)
    requires terms != [] && Distinct(terms)
    ensures var last := terms[|terms| - 1];
            && last !in Matched(terms[..|terms| - 1], text)
            && Matched(terms, text)
               == Matched(terms[..|terms| - 1], text) + (if Contains(text, last) then {last} else {})
  {
    var init := terms[..|terms| - 1];
    var last := terms[|terms| - 1];
    assert forall i :: 0 <= i < |init| ==> init[i] == terms[i];
    if Contains(text, last) {
      assert Matched(terms, text) == Matched(init, text) + {last};
    } else {
      assert Matched(terms, text) == Matched(init, text);
    }
  }
}
