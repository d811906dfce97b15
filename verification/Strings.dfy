/** White space and words of a text, as Python's `str.strip` and `str.split` see them. */
module Strings {
  predicate IsSpace(ch: char) {
    var u := ch as int;
    9 <= u <= 13 || 28 <= u <= 32 || u == 0x85 || u == 0xA0 || u == 0x1680 ||
    0x2000 <= u <= 0x200A || u == 0x2028 || u == 0x2029 || u == 0x202F || u == 0x205F || u == 0x3000
  }

  predicate Blank(s: string) {
    forall k :: 0 <= k < |s| ==> IsSpace(s[k])
  }

  predicate Spaceless(s: string) {
    forall k :: 0 <= k < |s| ==> !IsSpace(s[k])
  }

  /** The words of s, where `word` has been read just before it. */
  function WordsFrom(word: string, s: string): seq<string>
    decreases |s|
  {
    if s == "" then Finished(word)
    else if IsSpace(s[0]) then Finished(word) + WordsFrom("", s[1..])
    else WordsFrom(word + [s[0]], s[1..])
  }

  function Finished(word: string): seq<string> {
    if word == "" then [] else [word]
  }

  function Split(s: string): seq<string> {
    WordsFrom("", s)
  }

  lemma {:induction false} WordsFromAtSpace(word: string, a: string, sp: char, b: string)
    requires IsSpace(sp)
    ensures WordsFrom(word, a + [sp] + b) == WordsFrom(word, a) + Split(b)
    decreases |a|
  {
    hide IsSpace;
    var s := a + [sp] + b;
    if a == "" {
      assert s[1..] == b;
    } else {
      assert s[1..] == a[1..] + [sp] + b;
      if IsSpace(a[0]) {
        WordsFromAtSpace("", a[1..], sp, b);
      } else {
        WordsFromAtSpace(word + [a[0]], a[1..], sp, b);
      }
    }
  }

  /** At a white-space character a text splits into the words before it and the words after it. */
  lemma SplitAtSpace(a: string, sp: char, b: string)
    requires IsSpace(sp)
    ensures Split(a + [sp] + b) == Split(a) + Split(b)
  {
    WordsFromAtSpace("", a, sp, b);
  }

  lemma {:induction false} WordsFromSpaceless(word: string, s: string)
    requires Spaceless(s)
    ensures WordsFrom(word, s) == Finished(word + s)
    decreases |s|
  {
    if s == "" {
      assert word + s == word;
    } else {
      assert word + [s[0]] + s[1..] == word + s;
      WordsFromSpaceless(word + [s[0]], s[1..]);
    }
  }

  /** A text without white space is its only word. */
  lemma SplitSpaceless(s: string)
    requires Spaceless(s)
    ensures Split(s) == Finished(s)
  {
    WordsFromSpaceless("", s);
    assert "" + s == s;
  }

  lemma {:induction false} WordsFromAre(word: string, s: string, w: string)
    requires Spaceless(word) && w in WordsFrom(word, s)
    ensures w != "" && Spaceless(w)
    decreases |s|
  {
    hide IsSpace;
    if s != "" {
      if IsSpace(s[0]) {
        if w !in Finished(word) {
          WordsFromAre("", s[1..], w);
        }
      } else {
        WordsFromAre(word + [s[0]], s[1..], w);
      }
    }
  }

  /** No word is empty or holds white space. */
  lemma SplitAre(s: string, w: string)
    requires w in Split(s)
    ensures w != "" && Spaceless(w)
  {
    WordsFromAre("", s, w);
  }

  lemma {:induction false} BlankWordsFrom(word: string, s: string)
    ensures WordsFrom(word, s) == [] <==> word == "" && Blank(s)
    decreases |s|
  {
    hide IsSpace;
    if s != "" {
      if IsSpace(s[0]) {
        BlankWordsFrom("", s[1..]);
      } else {
        BlankWordsFrom(word + [s[0]], s[1..]);
      }
      assert s == [s[0]] + s[1..];
    }
  }

  /** A text is blank exactly when it has no words. */
  lemma BlankHasNoWords(s: string)
    ensures Blank(s) <==> Split(s) == []
  {
    BlankWordsFrom("", s);
  }

  /** White space, code point by code point. */
  lemma SpacesAre(ch: char)
    ensures IsSpace(ch) <==> ch as int in {
      0x09, 0x0A, 0x0B, 0x0C, 0x0D, 0x1C, 0x1D, 0x1E, 0x1F, 0x20, 0x85, 0xA0, 0x1680,
      0x2000, 0x2001, 0x2002, 0x2003, 0x2004, 0x2005, 0x2006, 0x2007, 0x2008, 0x2009, 0x200A,
      0x2028, 0x2029, 0x202F, 0x205F, 0x3000}
  {
  }
}
