/** Word counting as the validator does it: `text.split()` with no separator
    (runs of whitespace separate words, leading and trailing whitespace is
    ignored), then the number of pieces, compared with a limit of eight. */
module Words {

  /** The characters Python's `str.split()` separates on: those for which
      `str.isspace()` holds. */
  predicate IsWhitespace(c: char)
  {
    c == ' ' || ('\t' <= c <= '\r') || ('\U{1C}' <= c <= '\U{1F}') || c == '\U{85}' || c == '\U{A0}'
    || c == '\U{1680}' || ('\U{2000}' <= c <= '\U{200A}') || c == '\U{2028}' || c == '\U{2029}'
    || c == '\U{202F}' || c == '\U{205F}' || c == '\U{3000}'
  }

  /** A word: a non-empty run of non-whitespace characters. */
  predicate IsWord(w: string)
  {
    w != [] && forall i :: 0 <= i < |w| ==> !IsWhitespace(w[i])
  }

  predicate AllWhitespace(s: string)
  {
    forall i :: 0 <= i < |s| ==> IsWhitespace(s[i])
  }

  /** Length of the leading run of non-whitespace characters of `s`. */
  function TokenLength(s: string): (n: nat)
    ensures n <= |s|
    ensures forall i :: 0 <= i < n ==> !IsWhitespace(s[i])
    ensures n < |s| ==> IsWhitespace(s[n])
  {
    if s == [] || IsWhitespace(s[0]) then 0 else 1 + TokenLength(s[1..])
  }

  /** Python's `s.split()`: the maximal runs of non-whitespace characters, in order. */
  function Split(s: string): seq<string>
    decreases |s|
  {
    if s == [] then []
    else if IsWhitespace(s[0]) then Split(s[1..])
    else
      var n := TokenLength(s);
      [s[..n]] + Split(s[n..])
  }

  /** The pieces are words, and there are none exactly when the text is
      all whitespace (the empty text included). */
  lemma {:induction false} SplitWords(s: string)
    ensures forall w :: w in Split(s) ==> IsWord(w)
    ensures Split(s) == [] <==> AllWhitespace(s)
    decreases |s|
  {
    if s != [] {
      if IsWhitespace(s[0]) {
        SplitWords(s[1..]);
        assert forall i :: 1 <= i < |s| ==> s[1..][i - 1] == s[i];
      } else {
        SplitWords(s[TokenLength(s)..]);
      }
    }
  }

  /** count_words: the number of words of `text`. */
  function CountWords(text: string): nat
  {
    |Split(text)|
  }

  /** The default limit of validate_word_count. */
  const MaxWords: int := 8

  /** validate_word_count: at most `maxWords` words. */
  function ValidateWordCount(text: string, maxWords: int := MaxWords): bool
  {
    CountWords(text) <= maxWords
  }

  /** The limit holds iff the text has at most `maxWords` word starts; a
      text of whitespace only (the empty text included) always passes a
      limit that is not negative. */
  lemma ValidateWordCountMeaning(text: string, maxWords: int)
    ensures ValidateWordCount(text, maxWords) <==> WordStarts(text, true) <= maxWords
    ensures AllWhitespace(text) ==> (ValidateWordCount(text, maxWords) <==> 0 <= maxWords)
  {
    SplitCountsWordStarts(text, true);
    SplitWords(text);
  }

  /** An independent count of words: the positions where a non-whitespace
      character follows whitespace or the start of the text. `afterSpace`
      says whether the position before `s` counts as whitespace. */
  function WordStarts(s: string, afterSpace: bool): nat
    decreases |s|
  {
    if s == [] then 0
    else (if afterSpace && !IsWhitespace(s[0]) then 1 else 0) + WordStarts(s[1..], IsWhitespace(s[0]))
  }

  /** Inside a word, no new word starts. */
  lemma {:induction false} WordStartsSkipsToken(s: string, m: nat)
    requires m <= |s|
    requires forall i :: 0 <= i < m ==> !IsWhitespace(s[i])
    ensures WordStarts(s, false) == WordStarts(s[m..], false)
    decreases m
  {
    if m > 0 {
      assert s[1..][m - 1..] == s[m..];
      WordStartsSkipsToken(s[1..], m - 1);
    }
  }

  /** Splitting yields exactly one word per word start: `count_words` agrees
      with the independent count. */
  lemma {:induction false} SplitCountsWordStarts(s: string, afterSpace: bool)
    requires afterSpace || s == [] || IsWhitespace(s[0])
    ensures |Split(s)| == WordStarts(s, afterSpace)
    decreases |s|
  {
    if s == [] {
    } else if IsWhitespace(s[0]) {
      SplitCountsWordStarts(s[1..], true);
    } else {
      var n := TokenLength(s);
      SplitCountsWordStarts(s[n..], true);
      WordStartsSkipsToken(s[1..], n - 1);
      assert s[1..][n - 1..] == s[n..];
      if n < |s| {
        assert WordStarts(s[n..], false) == WordStarts(s[n..], true);
      }
    }
  }

  /** Words joined by single spaces. */
  function JoinWords(words: seq<string>): string
  {
    if |words| <= 1 then (if words == [] then "" else words[0])
    else words[0] + " " + JoinWords(words[1..])
  }

  lemma {:induction false} TokenLengthOfWord(w: string, rest: string)
    requires IsWord(w)
    requires rest == [] || IsWhitespace(rest[0])
    ensures TokenLength(w + rest) == |w|
    decreases |w|
  {
    if |w| > 1 {
      assert (w + rest)[1..] == w[1..] + rest;
      TokenLengthOfWord(w[1..], rest);
    } else {
      assert (w + rest)[1..] == rest;
    }
  }

  /** Round trip: splitting words joined by spaces gives the words back. */
  lemma {:induction false} SplitJoinWords(words: seq<string>)
    requires forall w :: w in words ==> IsWord(w)
    ensures Split(JoinWords(words)) == words
    decreases |words|
  {
    if |words| == 1 {
      var w := words[0];
      TokenLengthOfWord(w, "");
      assert w + "" == w;
      assert w[|w|..] == [];
    } else if |words| > 1 {
      var w := words[0];
      var rest := JoinWords(words[1..]);
      var s := w + " " + rest;
      TokenLengthOfWord(w, " " + rest);
      assert s == w + (" " + rest);
      assert s[..|w|] == w;
      assert s[|w|..] == " " + rest;
      assert (" " + rest)[1..] == rest;
      SplitJoinWords(words[1..]);
      assert words == [w] + words[1..];
    }
  }

  /** A word made of ASCII letters only. */
  lemma LettersAreWord(w: string)
    requires w != []
    requires forall i :: 0 <= i < |w| ==> 'A' <= w[i] <= 'Z' || 'a' <= w[i] <= 'z'
    ensures IsWord(w)
  {
  }

  /** The documented example of a text within the limit: the seven words
      "Stamp this and send it back now", joined by single spaces, pass. */
  lemma SevenWordsPass()
    ensures ValidateWordCount(JoinWords(["Stamp", "this", "and", "send", "it", "back", "now"]))
  {
    var words := ["Stamp", "this", "and", "send", "it", "back", "now"];
    forall w | w in words ensures IsWord(w) { LettersAreWord(w); }
    SplitJoinWords(words);
    assert |words| == 7;
  }

  /** The documented example of a text over the limit: the ten words
      "Stamp this and send it back to the office today", joined by single
      spaces, fail. */
  lemma TenWordsFail()
    ensures !ValidateWordCount(JoinWords(["Stamp", "this", "and", "send", "it", "back", "to", "the", "office", "today"]))
  {
    var words := ["Stamp", "this", "and", "send", "it", "back", "to", "the", "office", "today"];
    forall w | w in words ensures IsWord(w) { LettersAreWord(w); }
    SplitJoinWords(words);
  }
}
