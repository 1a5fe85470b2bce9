/**
 * The word cursor (`skip_blank`, `skip_word`, `get_word`). A word is a run of
 * the characters `.`, `:`, `A`-`Z` and `0`-`9`; every other character
 * separates words. The buffer assembler also makes a newline a word of its
 * own (`newlineWords`); the line assembler does not.
 */
module Tokenizer {
  import opened CStrings
  import opened Isa

  predicate IsWordChar(c: char)
  {
    c == '.' || c == ':' || ('A' <= c <= 'Z') || ('0' <= c <= '9')
  }

  /** A character `skip_blank` stops at. */
  predicate StopsBlank(c: char, newlineWords: bool)
  {
    c == '\0' || IsWordChar(c) || (newlineWords && c == '\n')
  }

  /** Where `skip_blank` leaves the cursor: the first stop character. */
  function BlankEnd(s: seq<char>, i: nat, newlineWords: bool): (j: nat)
    requires i <= |s|
    ensures i <= j <= |s| && StopsBlank(At(s, j), newlineWords)
    ensures forall k :: i <= k < j ==> !StopsBlank(s[k], newlineWords)
    decreases |s| - i
  {
    if StopsBlank(At(s, i), newlineWords) then i else BlankEnd(s, i + 1, newlineWords)
  }

  /** The end of the run of word characters starting at `i`. */
  function RunEnd(s: seq<char>, i: nat): (j: nat)
    requires i <= |s|
    ensures i <= j <= |s| && !IsWordChar(At(s, j))
    ensures forall k :: i <= k < j ==> IsWordChar(s[k])
    decreases |s| - i
  {
    if !IsWordChar(At(s, i)) then i else RunEnd(s, i + 1)
  }

  /** Where `skip_word` leaves the cursor. */
  function WordEnd(s: seq<char>, i: nat, newlineWords: bool): (j: nat)
    requires i <= |s|
    ensures i <= j <= |s|
  {
    if newlineWords && At(s, i) == '\n' then i + 1 else RunEnd(s, i)
  }

  /** `get_word`: the word found from `pos` and the cursor after it. The word
      is a maximal run of word characters, a lone newline (buffer assembler
      only), or empty at the terminating NUL; everything skipped before it is
      a separator. */
  function NextWord(s: seq<char>, pos: nat, newlineWords: bool): (r: (string, nat))
    requires pos <= |s|
    ensures pos <= r.1 - |r.0| && r.1 <= |s| && r.0 == s[r.1 - |r.0|..r.1]
    ensures forall k :: pos <= k < r.1 - |r.0| ==> !StopsBlank(s[k], newlineWords)
    ensures r.0 == [] ==> At(s, r.1) == '\0'
    ensures r.0 == "\n" || (forall k :: 0 <= k < |r.0| ==> IsWordChar(r.0[k]))
    ensures r.0 != [] && r.0 != "\n" ==> !IsWordChar(At(s, r.1))
    ensures r.0 == "\n" ==> newlineWords
    ensures At(s, pos) != '\0' ==> pos < r.1
  {
    var start := BlankEnd(s, pos, newlineWords);
    var end := WordEnd(s, start, newlineWords);
    (s[start..end], end)
  }

  method SkipBlank(s: seq<char>, i: nat, newlineWords: bool) returns (j: nat)
    requires i <= |s|
    ensures j == BlankEnd(s, i, newlineWords)
  {
    j := i;
    while j < |s| && !StopsBlank(s[j], newlineWords)
      invariant i <= j <= |s| && BlankEnd(s, j, newlineWords) == BlankEnd(s, i, newlineWords)
    {
      j := j + 1;
    }
  }

  method SkipWord(s: seq<char>, i: nat, newlineWords: bool) returns (j: nat)
    requires i <= |s|
    ensures j == WordEnd(s, i, newlineWords)
  {
    if newlineWords && i < |s| && s[i] == '\n' {
      return i + 1;
    }
    j := i;
    while j < |s| && IsWordChar(s[j])
      invariant i <= j <= |s| && RunEnd(s, j) == RunEnd(s, i)
    {
      j := j + 1;
    }
  }

  method GetWord(s: seq<char>, pos: nat, newlineWords: bool) returns (word: string, next: nat)
    requires pos <= |s|
    ensures (word, next) == NextWord(s, pos, newlineWords)
  {
    var start := SkipBlank(s, pos, newlineWords);
    next := SkipWord(s, start, newlineWords);
    word := s[start..next];
  }

  /** The words successive `get_word` calls return while the cursor is not
      at the terminating NUL. */
  function Tokens(s: seq<char>, pos: nat, newlineWords: bool): seq<string>
    requires pos <= |s|
    decreases |s| - pos
  {
    if At(s, pos) == '\0' then []
    else
      var (w, next) := NextWord(s, pos, newlineWords);
      [w] + Tokens(s, next, newlineWords)
  }

  /** The word a `get_word` call returns, with the empty word once the
      buffer is exhausted. */
  function Head(ts: seq<string>): string
  {
    if ts == [] then "" else ts[0]
  }

  function Tail(ts: seq<string>): seq<string>
  {
    if ts == [] then [] else ts[1..]
  }

  /** Successive `get_word` calls read the word sequence left to right: the
      next call returns its head and leaves the cursor where the rest begins,
      also at the end of the buffer, where the cursor no longer moves. */
  lemma GetWordReadsTokens(s: seq<char>, pos: nat, newlineWords: bool)
    requires pos <= |s|
    ensures NextWord(s, pos, newlineWords).0 == Head(Tokens(s, pos, newlineWords))
    ensures Tokens(s, NextWord(s, pos, newlineWords).1, newlineWords) == Tail(Tokens(s, pos, newlineWords))
  {
    if At(s, pos) == '\0' {
      assert BlankEnd(s, pos, newlineWords) == pos;
      assert RunEnd(s, pos) == pos;
    }
  }

  /** No word holds a NUL or starts with `;`, so `is_comment` is false of
      every word the cursor returns. */
  lemma {:induction false} TokensNeverComments(s: seq<char>, pos: nat, newlineWords: bool)
    requires pos <= |s|
    ensures forall t :: t in Tokens(s, pos, newlineWords) ==> !IsComment(t) && '\0' !in t
    decreases |s| - pos
  {
    if At(s, pos) != '\0' {
      var (w, next) := NextWord(s, pos, newlineWords);
      TokensNeverComments(s, next, newlineWords);
      assert w == "\n" || w == [] || IsWordChar(w[0]);
    }
  }

  /** Only the last word of a buffer can be empty. */
  lemma {:induction false} TokensEmptyOnlyLast(s: seq<char>, pos: nat, newlineWords: bool)
    requires pos <= |s|
    ensures forall k :: 0 <= k < |Tokens(s, pos, newlineWords)| - 1 ==> Tokens(s, pos, newlineWords)[k] != []
    decreases |s| - pos
  {
    if At(s, pos) != '\0' {
      var (w, next) := NextWord(s, pos, newlineWords);
      TokensEmptyOnlyLast(s, next, newlineWords);
      if w == [] {
        assert Tokens(s, next, newlineWords) == [];
      }
    }
  }
}
