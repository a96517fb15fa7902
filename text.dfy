/**
 The string operations the ingestion scripts rely on: Python's `str.split()`
 with no argument, `str.lower()` and `str.capitalize()`, all over ASCII.
 */
module Text {

  /** Whitespace as `str.split()` sees it, restricted to ASCII:
      space, tab, line feed, vertical tab, form feed, carriage return
      and the four separators 0x1C-0x1F. */
  predicate IsSpace(c: char) {
    var n := c as int;
    n == 32 || 9 <= n <= 13 || 28 <= n <= 31
  }

  /** A token that `str.split()` can return: non-empty, no whitespace. */
  predicate IsWord(w: string) {
    |w| > 0 && forall i :: 0 <= i < |w| ==> !IsSpace(w[i])
  }

  function LowerChar(c: char): char {
    if 'A' <= c <= 'Z' then (c as int + 32) as char else c
  }

  function UpperChar(c: char): char {
    if 'a' <= c <= 'z' then (c as int - 32) as char else c
  }

  /** `str.lower()` over ASCII. */
  function Lower(s: string): string {
    seq(|s|, i requires 0 <= i < |s| => LowerChar(s[i]))
  }

  /** `str.capitalize()` over ASCII: the first character upper case, every
      other character lower case, case-insensitively the same string. */
  function Capitalize(s: string): (r: string)
    ensures |r| == |s|
  {
    if s == [] then [] else [UpperChar(s[0])] + Lower(s[1..])
  }

  /** No character of the result but the first is upper case, the first is
      not lower case, and the result lower-cases to what `s` does. */
  lemma CapitalizeCase(s: string)
    ensures Capitalize(s) != [] ==> !('a' <= Capitalize(s)[0] <= 'z')
    ensures forall i :: 1 <= i < |s| ==> !('A' <= Capitalize(s)[i] <= 'Z')
    ensures Lower(Capitalize(s)) == Lower(s)
  {
    if s != [] {
      LowerIdempotent(s[1..]);
    }
  }

  /** Lower-casing a second time changes nothing. */
  lemma LowerIdempotent(s: string)
    ensures Lower(Lower(s)) == Lower(s)
  {
    assert forall i :: 0 <= i < |s| ==> LowerChar(LowerChar(s[i])) == LowerChar(s[i]);
  }

  /** Case changes never create or remove whitespace. */
  lemma CaseKeepsWords(w: string)
    requires IsWord(w)
    ensures IsWord(Lower(w)) && IsWord(Capitalize(w))
  {
    var c := Capitalize(w);
    forall i | 0 <= i < |c| ensures !IsSpace(c[i]) {
      if i == 0 {
        assert c[0] == UpperChar(w[0]);
      } else {
        assert c[i] == LowerChar(w[i]);
      }
    }
  }

  /** Drops leading whitespace. */
  function DropSpaces(s: string): (r: string)
    ensures |r| <= |s|
    ensures r == [] || !IsSpace(r[0])
  {
    if s != [] && IsSpace(s[0]) then DropSpaces(s[1..]) else s
  }

  /** Length of the longest whitespace-free prefix. */
  function WordLength(s: string): (n: nat)
    ensures n <= |s|
    ensures forall i :: 0 <= i < n ==> !IsSpace(s[i])
    ensures n == |s| || IsSpace(s[n])
  {
    if s != [] && !IsSpace(s[0]) then 1 + WordLength(s[1..]) else 0
  }

  /** `str.split()` with no separator: the maximal runs of non-whitespace,
      in order, with leading, trailing and repeated whitespace ignored. */
  function Split(s: string): (ts: seq<string>)
    ensures forall k :: 0 <= k < |ts| ==> IsWord(ts[k])
    decreases |s|
  {
    var t := DropSpaces(s);
    if t == [] then []
    else
      var n := WordLength(t);
      assert IsWord(t[..n]) by {
        assert n > 0;
        assert forall i :: 0 <= i < n ==> t[..n][i] == t[i];
      }
      var rest := Split(t[n..]);
      assert forall k :: 1 <= k < 1 + |rest| ==> ([t[..n]] + rest)[k] == rest[k - 1];
      [t[..n]] + rest
  }

  /** The words joined by single spaces (`" ".join(ws)`). */
  function JoinSpaced(ws: seq<string>): string {
    if |ws| == 0 then ""
    else if |ws| == 1 then ws[0]
    else ws[0] + " " + JoinSpaced(ws[1..])
  }

  lemma {:induction false} WordLengthOfWord(w: string, rest: string)
    requires forall i :: 0 <= i < |w| ==> !IsSpace(w[i])
    requires rest == [] || IsSpace(rest[0])
    ensures WordLength(w + rest) == |w|
  {
    if w != [] {
      assert (w + rest)[1..] == w[1..] + rest;
      WordLengthOfWord(w[1..], rest);
    }
  }

  lemma SplitSkipsLeadingSpace(c: char, s: string)
    requires IsSpace(c)
    ensures Split([c] + s) == Split(s)
  {
    assert ([c] + s)[1..] == s;
  }

  /** Dropping leading whitespace before or after appending a whitespace
      character. */
  lemma {:induction false} DropSpacesAppend(s: string, c: char)
    requires IsSpace(c)
    ensures DropSpaces(s) == [] ==> DropSpaces(s + [c]) == []
    ensures DropSpaces(s) != [] ==> DropSpaces(s + [c]) == DropSpaces(s) + [c]
  {
    if s != [] {
      assert (s + [c])[1..] == s[1..] + [c];
      if IsSpace(s[0]) {
        DropSpacesAppend(s[1..], c);
      }
    } else {
      assert [] + [c] == [c];
      assert [c][1..] == [];
    }
  }

  /** A trailing whitespace character does not lengthen the first word. */
  lemma {:induction false} WordLengthAppend(s: string, c: char)
    requires IsSpace(c)
    ensures WordLength(s + [c]) == WordLength(s)
  {
    if s != [] {
      assert (s + [c])[1..] == s[1..] + [c];
      if !IsSpace(s[0]) {
        WordLengthAppend(s[1..], c);
      }
    }
  }

  /** `str.split()` ignores a trailing whitespace character, such as the
      newline that ends a line read from a file. */
  lemma {:induction false} SplitTrailingSpace(s: string, c: char)
    requires IsSpace(c)
    ensures Split(s + [c]) == Split(s)
    decreases |s|
  {
    var t := DropSpaces(s);
    DropSpacesAppend(s, c);
    if t != [] {
      var n := WordLength(t);
      WordLengthAppend(t, c);
      assert (t + [c])[..n] == t[..n];
      assert (t + [c])[n..] == t[n..] + [c];
      SplitTrailingSpace(t[n..], c);
    }
  }

  /** Splitting words that were joined by single spaces gives the words
      back: the tokens of a line are exactly what was written there. */
  lemma {:induction false} SplitJoinSpaced(ws: seq<string>)
    requires forall k :: 0 <= k < |ws| ==> IsWord(ws[k])
    ensures Split(JoinSpaced(ws)) == ws
  {
    if |ws| == 0 {
    } else if |ws| == 1 {
      var w := ws[0];
      assert DropSpaces(w) == w;
      WordLengthOfWord(w, []);
      assert w + [] == w;
      assert w[|w|..] == [];
    } else {
      var w, rest := ws[0], JoinSpaced(ws[1..]);
      var s := w + " " + rest;
      assert s == JoinSpaced(ws);
      assert DropSpaces(s) == s;
      assert s == w + ([' '] + rest);
      WordLengthOfWord(w, [' '] + rest);
      assert s[..|w|] == w;
      assert s[|w|..] == [' '] + rest;
      SplitSkipsLeadingSpace(' ', rest);
      SplitJoinSpaced(ws[1..]);
    }
  }
}
