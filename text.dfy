/** String helpers with the meaning Python gives them: `str.isspace`,
    `str.lower`, `in` on strings, `str.split(sep)`, `str.split()` and
    `str.replace`. Strings are sequences of characters. */
module Text {

  /** The characters for which Python's `str.isspace()` holds; `str.split()`
      and `str.strip()` with no argument use exactly this set. */
  predicate IsSpace(c: char) {
    || c == ' '
    || '\t' <= c <= '\r'
    || '\U{1c}' <= c <= '\U{1f}'
    || c == '\U{85}' || c == '\U{a0}' || c == '\U{1680}'
    || '\U{2000}' <= c <= '\U{200a}'
    || c == '\U{2028}' || c == '\U{2029}' || c == '\U{202f}'
    || c == '\U{205f}' || c == '\U{3000}'
  }

  /** `s.strip()` is empty. */
  predicate IsBlank(s: string) {
    forall i :: 0 <= i < |s| ==> IsSpace(s[i])
  }

  /** Lower-casing of one character, for the ASCII and Latin-1 letters. */
  function LowerChar(c: char): char {
    if 'A' <= c <= 'Z' || ('\U{c0}' <= c <= '\U{de}' && c != '\U{d7}') then
      (c as int + 32) as char
    else
      c
  }

  /** Upper-casing of one ASCII character. */
  function UpperChar(c: char): char {
    if 'a' <= c <= 'z' then (c as int - 32) as char else c
  }

  /** `s.lower()`. */
  function Lower(s: string): (r: string)
    ensures |r| == |s|
    ensures forall i :: 0 <= i < |s| ==> r[i] == LowerChar(s[i])
  {
    seq(|s|, i requires 0 <= i < |s| => LowerChar(s[i]))
  }

  /** Lower-casing forgets an earlier upper-casing. */
  lemma LowerUpper(s: string)
    ensures Lower(Upper(s)) == Lower(s)
  {
  }

  /** Lower-casing twice is lower-casing once. */
  lemma LowerLower(s: string)
    ensures Lower(Lower(s)) == Lower(s)
  {
  }

  /** `s.upper()`, for ASCII text. */
  function Upper(s: string): (r: string)
    ensures |r| == |s|
    ensures forall i :: 0 <= i < |s| ==> r[i] == UpperChar(s[i])
  {
    seq(|s|, i requires 0 <= i < |s| => UpperChar(s[i]))
  }

  /** `s.startswith(p)`. */
  predicate IsPrefix(p: string, s: string) {
    |p| <= |s| && s[..|p|] == p
  }

  /** `s.endswith(suffix)`. */
  predicate EndsWith(s: string, suffix: string) {
    |suffix| <= |s| && s[|s| - |suffix|..] == suffix
  }

  /** `needle in hay` for two strings: `needle` occurs in `hay` at some
      position (the empty string occurs everywhere). */
  predicate Contains(hay: string, needle: string)
    decreases |hay|
  {
    IsPrefix(needle, hay) || (hay != [] && Contains(hay[1..], needle))
  }

  /** The occurrence that `Contains` finds. */
  predicate OccursAt(hay: string, needle: string, i: int) {
    0 <= i && i + |needle| <= |hay| && hay[i..i + |needle|] == needle
  }

  /** `Contains` agrees with the positional definition of an occurrence. */
  lemma {:induction false} ContainsIff(hay: string, needle: string)
    ensures Contains(hay, needle) <==> exists i :: OccursAt(hay, needle, i)
  {
    if IsPrefix(needle, hay) {
      assert OccursAt(hay, needle, 0);
    } else if hay == [] {
      assert forall i :: !OccursAt(hay, needle, i);
    } else {
      ContainsIff(hay[1..], needle);
      if Contains(hay[1..], needle) {
        var i :| OccursAt(hay[1..], needle, i);
        assert hay[i + 1..i + 1 + |needle|] == hay[1..][i..i + |needle|];
        assert OccursAt(hay, needle, i + 1);
      } else {
        forall i | OccursAt(hay, needle, i)
          ensures false
        {
          assert i != 0;
          assert hay[1..][i - 1..i - 1 + |needle|] == hay[i..i + |needle|];
          assert OccursAt(hay[1..], needle, i - 1);
        }
      }
    }
  }

  /** A string occurs in any string that extends it on either side. */
  lemma ContainsInfix(a: string, needle: string, b: string)
    ensures Contains(a + needle + b, needle)
  {
    var s := a + needle + b;
    assert s[|a|..|a| + |needle|] == needle;
    assert OccursAt(s, needle, |a|);
    ContainsIff(s, needle);
  }

  /** Position of the first `c` in `s`. */
  function IndexOf(s: string, c: char): (i: nat)
    requires c in s
    ensures i < |s| && s[i] == c && c !in s[..i]
  {
    if s[0] == c then 0 else 1 + IndexOf(s[1..], c)
  }

  /** `s.split(sep)` for a one-character separator: the pieces between the
      occurrences of `sep`, always at least one. */
  function Split(s: string, sep: char): (parts: seq<string>)
    ensures |parts| >= 1
    ensures forall k :: 0 <= k < |parts| ==> sep !in parts[k]
    decreases |s|
  {
    if sep !in s then [s]
    else
      var i := IndexOf(s, sep);
      [s[..i]] + Split(s[i + 1..], sep)
  }

  /** `sep.join(parts)`. */
  function Join(parts: seq<string>, sep: char): string
    requires |parts| >= 1
  {
    if |parts| == 1 then parts[0] else parts[0] + [sep] + Join(parts[1..], sep)
  }

  /** Splitting and joining again gives back the string. */
  lemma {:induction false} JoinSplit(s: string, sep: char)
    ensures Join(Split(s, sep), sep) == s
    decreases |s|
  {
    if sep in s {
      var i := IndexOf(s, sep);
      var rest := Split(s[i + 1..], sep);
      JoinSplit(s[i + 1..], sep);
      var parts := [s[..i]] + rest;
      assert Split(s, sep) == parts;
      assert parts[1..] == rest;
      assert Join(parts, sep) == s[..i] + [sep] + Join(rest, sep);
      assert s == s[..i] + [sep] + s[i + 1..];
    }
  }

  /** Joining pieces free of the separator and splitting again gives back
      the pieces. */
  lemma {:induction false} SplitJoin(parts: seq<string>, sep: char)
    requires |parts| >= 1
    requires forall k :: 0 <= k < |parts| ==> sep !in parts[k]
    ensures Split(Join(parts, sep), sep) == parts
  {
    if |parts| > 1 {
      FirstPiece(parts[0], sep, Join(parts[1..], sep));
      SplitJoin(parts[1..], sep);
    }
  }

  /** The first separator after a separator-free piece is the one right
      after it. */
  lemma FirstPiece(a: string, sep: char, rest: string)
    requires sep !in a
    ensures var s := a + [sep] + rest;
      sep in s && IndexOf(s, sep) == |a| && s[..|a|] == a && s[|a| + 1..] == rest
  {
    var s := a + [sep] + rest;
    assert s[|a|] == sep;
    IndexOfFirst(s, sep, |a|);
    assert s[..|a|] == a;
    assert forall j :: 0 <= j < |a| ==> s[j] == a[j];
    assert s[|a| + 1..] == rest;
  }

  /** A string splits into more than one piece exactly when it holds the
      separator. */
  lemma SplitSingle(s: string, sep: char)
    ensures |Split(s, sep)| == 1 <==> sep !in s
  {
    if sep in s {
      assert |Split(s, sep)| == 1 + |Split(s[IndexOf(s, sep) + 1..], sep)|;
    }
  }

  /** Two separator-free pieces joined by the separator split back into
      those two pieces. */
  lemma SplitPair(a: string, b: string, sep: char)
    requires sep !in a && sep !in b
    ensures Split(a + [sep] + b, sep) == [a, b]
  {
    assert Join([a, b], sep) == a + [sep] + b;
    SplitJoin([a, b], sep);
  }

  /** `IndexOf` finds the first occurrence: none comes before it. */
  lemma {:induction false} IndexOfFirst(s: string, c: char, p: int)
    requires 0 <= p < |s| && s[p] == c
    ensures IndexOf(s, c) <= p
  {
    if s[0] != c {
      assert s[1..][p - 1] == c;
      IndexOfFirst(s[1..], c, p - 1);
    }
  }

  /** A string holding the separator twice splits into three pieces or
      more. */
  lemma SplitTwoSeparators(s: string, sep: char, p: int, q: int)
    requires 0 <= p < q < |s| && s[p] == sep && s[q] == sep
    ensures |Split(s, sep)| >= 3
  {
    var i := IndexOf(s, sep);
    IndexOfFirst(s, sep, p);
    var t := s[i + 1..];
    assert t[q - i - 1] == sep;
    SplitSingle(t, sep);
  }

  /** `s` without its leading whitespace. */
  function TrimLeft(s: string): (r: string)
    ensures |r| <= |s| && r == s[|s| - |r|..]
    ensures r == [] || !IsSpace(r[0])
    ensures IsBlank(s[..|s| - |r|])
  {
    if s != [] && IsSpace(s[0]) then TrimLeft(s[1..]) else s
  }

  /** The longest prefix of `s` without whitespace. */
  function Word(s: string): (w: string)
    ensures |w| <= |s| && w == s[..|w|]
    ensures forall i :: 0 <= i < |w| ==> !IsSpace(w[i])
    ensures |w| == |s| || IsSpace(s[|w|])
  {
    if s == [] || IsSpace(s[0]) then [] else [s[0]] + Word(s[1..])
  }

  /** `s.split()`: the maximal runs of non-whitespace characters, in order. */
  function Tokens(s: string): (ts: seq<string>)
    decreases |s|
  {
    var t := TrimLeft(s);
    if t == [] then []
    else
      var w := Word(t);
      [w] + Tokens(t[|w|..])
  }

  /** A word: non-empty and free of whitespace. */
  predicate IsWord(w: string) {
    w != [] && forall i :: 0 <= i < |w| ==> !IsSpace(w[i])
  }

  /** `" ".join(words)`. */
  function JoinWords(words: seq<string>): string
    requires |words| >= 1
  {
    if |words| == 1 then words[0] else words[0] + ([' '] + JoinWords(words[1..]))
  }

  /** `Word` takes exactly a leading word that whitespace ends. */
  lemma {:induction false} WordOfWord(w: string, rest: string)
    requires IsWord(w)
    requires rest == [] || IsSpace(rest[0])
    ensures Word(w + rest) == w
    decreases |w|
  {
    if |w| > 1 {
      assert (w + rest)[1..] == w[1..] + rest;
      WordOfWord(w[1..], rest);
    } else {
      assert (w + rest)[1..] == rest;
    }
  }

  /** A leading word that whitespace (or the end) follows is the first token. */
  lemma TokensCons(w: string, rest: string)
    requires IsWord(w)
    requires rest == [] || IsSpace(rest[0])
    ensures Tokens(w + rest) == [w] + Tokens(rest)
  {
    var s := w + rest;
    assert TrimLeft(s) == s;
    WordOfWord(w, rest);
    assert s[|w|..] == rest;
  }

  /** A word on its own is its only token. */
  lemma TokensOfWord(w: string)
    requires IsWord(w)
    ensures Tokens(w) == [w]
  {
    TokensCons(w, []);
    assert w + [] == w;
  }

  /** Leading whitespace does not change the split. */
  lemma TokensSkipSpace(c: char, s: string)
    requires IsSpace(c)
    ensures Tokens([c] + s) == Tokens(s)
  {
    assert ([c] + s)[1..] == s;
    assert TrimLeft([c] + s) == TrimLeft(s);
  }

  /** A word and a space in front of a line add that word in front of its
      tokens. */
  lemma TokensJoinStep(w: string, tail: string)
    requires IsWord(w)
    ensures Tokens(w + ([' '] + tail)) == [w] + Tokens(tail)
  {
    TokensSkipSpace(' ', tail);
    TokensCons(w, [' '] + tail);
  }

  /** Every element of `words` is a word. */
  predicate AllWords(words: seq<string>) {
    forall k :: 0 <= k < |words| ==> IsWord(words[k])
  }

  /** Splitting words joined by single spaces gives back the words. */
  lemma {:induction false} TokensJoinWords(words: seq<string>)
    requires |words| >= 1
    requires AllWords(words)
    ensures Tokens(JoinWords(words)) == words
  {
    if |words| == 1 {
      TokensOfWord(words[0]);
    } else {
      var rest := words[1..];
      assert words == [words[0]] + rest;
      assert AllWords(rest) by {
        forall k | 0 <= k < |rest| ensures IsWord(rest[k]) {
          assert rest[k] == words[k + 1];
        }
      }
      TokensJoinWords(rest);
      TokensJoinStep(words[0], JoinWords(rest));
    }
  }

  /** Every token is a word. */
  lemma {:induction false} TokensAreWords(s: string)
    ensures AllWords(Tokens(s))
    decreases |s|
  {
    var t := TrimLeft(s);
    if t != [] {
      var w := Word(t);
      assert !IsSpace(t[0]);
      TokensAreWords(t[|w|..]);
      var rest := Tokens(t[|w|..]);
      assert Tokens(s) == [w] + rest;
      forall k | 0 <= k < |Tokens(s)| ensures IsWord(Tokens(s)[k]) {
        if k > 0 {
          assert Tokens(s)[k] == rest[k - 1];
        }
      }
    }
  }

  /** A string whose split has a word is not blank. */
  lemma TokensNotBlank(s: string)
    requires Tokens(s) != []
    ensures !IsBlank(s)
  {
    var t := TrimLeft(s);
    assert s[|s| - |t|] == t[0];
  }

  /** `s.replace(pat, rep)`: every occurrence of `pat`, scanning from the
      left without overlap, is replaced by `rep`. */
  function ReplaceAll(s: string, pat: string, rep: string): (r: string)
    requires pat != []
    ensures |rep| <= |pat| ==> |r| <= |s|
    ensures !Contains(s, pat) ==> r == s
    decreases |s|
  {
    if |s| < |pat| then s
    else if s[..|pat|] == pat then rep + ReplaceAll(s[|pat|..], pat, rep)
    else [s[0]] + ReplaceAll(s[1..], pat, rep)
  }
}
