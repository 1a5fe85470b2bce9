/**
 * NUL-terminated character buffers. A buffer is a `seq<char>`; every C loop
 * of the form `while (buf[i])` stops at the first NUL, and a read past the end
 * of the sequence yields the terminating NUL (`At`).
 */
module CStrings {

  /** `buf[i]`, with the terminating NUL past the end. */
  function At(s: seq<char>, i: nat): char
  {
    if i < |s| then s[i] else '\0'
  }

  /** Index of the first `c` in `s`, or `|s|` when there is none. */
  function FirstOf(s: seq<char>, c: char): (n: nat)
    ensures n <= |s|
    ensures n < |s| ==> s[n] == c
    ensures forall i :: 0 <= i < n ==> s[i] != c
  {
    if s == [] then 0 else if s[0] == c then 0 else 1 + FirstOf(s[1..], c)
  }

  /** Length of the C string held in `s`. */
  function FirstNul(s: seq<char>): nat
  {
    FirstOf(s, '\0')
  }

  /** `SubString == const char*`: the first `|word|` characters agree and the
      literal ends right there. */
  predicate CStrEq(word: string, lit: string)
  {
    (forall i :: 0 <= i < |word| ==> word[i] == At(lit, i)) && At(lit, |word|) == '\0'
  }

  /** For NUL-free operands the C comparison is string equality. */
  lemma CStrEqIsEquality(word: string, lit: string)
    requires '\0' !in word && '\0' !in lit
    ensures CStrEq(word, lit) <==> word == lit
  {
    if CStrEq(word, lit) {
      var n := |word|;
      assert At(lit, n) == '\0';
      assert n > |lit| ==> word[|lit|] in word && word[|lit|] == At(lit, |lit|);
    }
  }

  /** ASCII `toupper`. */
  function UpperChar(c: char): char
  {
    if 'a' <= c <= 'z' then (c as int - 32) as char else c
  }

  /** The buffer after `to_upper`: letters before the first NUL are upper-case. */
  function Upper(s: seq<char>): (r: seq<char>)
    ensures |r| == |s| && FirstNul(r) == FirstNul(s)
    ensures forall i :: 0 <= i < FirstNul(s) ==> !('a' <= r[i] <= 'z')
    ensures forall i :: 0 <= i < |s| && !('a' <= s[i] <= 'z') ==> r[i] == s[i]
    ensures forall i :: 0 <= i < FirstNul(s) && 'a' <= s[i] <= 'z' ==> r[i] as int == s[i] as int - 32
    ensures forall i :: FirstNul(s) <= i < |s| ==> r[i] == s[i]
  {
    var n := FirstNul(s);
    var r := seq(|s|, i requires 0 <= i < |s| => if i < n then UpperChar(s[i]) else s[i]);
    assert FirstNul(r) == n by {
      FirstOfUnique(r, '\0', n);
    }
    r
  }

  /** `FirstOf` is pinned down by its three properties. */
  lemma FirstOfUnique(s: seq<char>, c: char, n: nat)
    requires n <= |s| && (n < |s| ==> s[n] == c)
    requires forall i :: 0 <= i < n ==> s[i] != c
    ensures FirstOf(s, c) == n
  {
  }

  lemma UpperIdempotent(s: seq<char>)
    ensures Upper(Upper(s)) == Upper(s)
  {
  }

  /** The buffer after `strip_comments`: every character from the first `;`
      up to the terminating NUL becomes NUL. */
  function Stripped(s: seq<char>): (r: seq<char>)
    ensures |r| == |s|
    ensures FirstNul(r) == FirstOf(s[..FirstNul(s)], ';')
    ensures ';' !in r[..FirstNul(r)]
    ensures r[..FirstNul(r)] == s[..FirstNul(r)]
    ensures forall i :: FirstNul(s) <= i < |s| ==> r[i] == s[i]
  {
    var n := FirstNul(s);
    var c := FirstOf(s[..n], ';');
    var r := seq(|s|, i requires 0 <= i < |s| => if c <= i < n then '\0' else s[i]);
    assert FirstNul(r) == c by {
      FirstOfUnique(r, '\0', c);
    }
    assert forall i :: 0 <= i < c ==> r[..c][i] != ';';
    r
  }

  method ToUpper(buf: array<char>)
    modifies buf
    ensures buf[..] == Upper(old(buf[..]))
  {
    ghost var s := buf[..];
    var i := 0;
    while i < buf.Length && buf[i] != '\0'
      invariant i <= FirstNul(s)
      invariant forall k :: 0 <= k < i ==> buf[k] == UpperChar(s[k])
      invariant forall k :: i <= k < buf.Length ==> buf[k] == s[k]
    {
      buf[i] := UpperChar(buf[i]);
      i := i + 1;
    }
    FirstOfUnique(s, '\0', i);
  }

  method StripComments(buf: array<char>)
    modifies buf
    ensures buf[..] == Stripped(old(buf[..]))
  {
    ghost var s := buf[..];
    ghost var n := FirstNul(s);
    ghost var c := FirstOf(s[..n], ';');
    var i := 0;
    var found := false;
    while i < buf.Length && buf[i] != '\0'
      invariant i <= n && (found <==> c < i)
      invariant forall k :: 0 <= k < i ==> buf[k] == (if c <= k then '\0' else s[k])
      invariant forall k :: i <= k < buf.Length ==> buf[k] == s[k]
    {
      assert s[..n][i] == s[i];
      if buf[i] == ';' {
        found := true;
      }
      if found {
        buf[i] := '\0';
      }
      i := i + 1;
    }
    FirstOfUnique(s, '\0', i);
  }
}
