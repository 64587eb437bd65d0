/** Character classes and the string operations of the C and Python libraries the parsers call. */
module Text {

  /** `isspace` of the C library in the "C" locale. */
  predicate IsCSpace(c: char) {
    c == ' ' || c == '\t' || c == '\n' || c == '\U{B}' || c == '\U{C}' || c == '\r'
  }

  /** Python's `str.isspace`: what `str.strip()` and `str.split()` treat as whitespace. */
  predicate IsPySpace(c: char) {
    || IsCSpace(c)
    || ('\U{1C}' <= c <= '\U{1F}')
    || c == '\U{85}' || c == '\U{A0}' || c == '\U{1680}'
    || ('\U{2000}' <= c <= '\U{200A}')
    || c == '\U{2028}' || c == '\U{2029}' || c == '\U{202F}' || c == '\U{205F}' || c == '\U{3000}'
  }

  /** `p` occurs in `s` at position `i`. */
  predicate MatchAt(s: string, p: string, i: nat) {
    i + |p| <= |s| && s[i..i + |p|] == p
  }

  predicate StartsWith(s: string, p: string) {
    MatchAt(s, p, 0)
  }

  /** Python's `p in s` for strings. */
  predicate Contains(s: string, p: string) {
    exists i: nat | i <= |s| :: MatchAt(s, p, i)
  }

  /** `std::search(s + lo, s + hi, p)`: the first position at which `p` lies wholly
      inside `[lo, hi)`, or `hi` when there is none. */
  function Search(s: string, p: string, lo: nat, hi: nat): (r: nat)
    requires |p| > 0 && lo <= hi <= |s|
    ensures lo <= r <= hi
    ensures r < hi ==> r + |p| <= hi && MatchAt(s, p, r)
    ensures forall i :: lo <= i < r && i + |p| <= hi ==> !MatchAt(s, p, i)
    decreases hi - lo
  {
    if lo + |p| > hi then hi
    else if MatchAt(s, p, lo) then lo
    else Search(s, p, lo + 1, hi)
  }

  /** Index of the first line feed at or after `i`, or `|s|`. */
  function LineEnd(s: string, i: nat): (r: nat)
    requires i <= |s|
    ensures i <= r <= |s|
    ensures r < |s| ==> s[r] == '\n'
    ensures forall j :: i <= j < r ==> s[j] != '\n'
    decreases |s| - i
  {
    if i == |s| || s[i] == '\n' then i else LineEnd(s, i + 1)
  }

  /** Index just after the last line feed before `h`, or 0. */
  function LineStart(s: string, h: nat): (r: nat)
    requires h <= |s|
    ensures r <= h
    ensures r > 0 ==> s[r - 1] == '\n'
    ensures forall j :: r <= j < h ==> s[j] != '\n'
  {
    if h == 0 then 0 else if s[h - 1] == '\n' then h else LineStart(s, h - 1)
  }

  /** Python's `s.replace(c, "")` for a one-character `c`. */
  function RemoveChar(s: string, c: char): (r: string)
    ensures c !in r
    ensures |r| <= |s|
    ensures forall x :: x in r <==> x in s && x != c
  {
    if s == [] then []
    else (if s[0] == c then [] else [s[0]]) + RemoveChar(s[1..], c)
  }

  /** Removing a character that does not occur changes nothing. */
  lemma {:induction false} RemoveAbsentChar(s: string, c: char)
    requires c !in s
    ensures RemoveChar(s, c) == s
  {
    if s != [] {
      assert c !in s[1..];
      RemoveAbsentChar(s[1..], c);
      assert s == [s[0]] + s[1..];
    }
  }

  /** Removing from a concatenation removes from each part, in order: `replace` keeps the
      order and the number of the characters it does not delete. */
  lemma {:induction false} RemoveCharAppend(a: string, b: string, c: char)
    ensures RemoveChar(a + b, c) == RemoveChar(a, c) + RemoveChar(b, c)
    decreases |a|
  {
    if a == [] {
      assert a + b == b;
    } else {
      assert (a + b)[0] == a[0] && (a + b)[1..] == a[1..] + b;
      RemoveCharAppend(a[1..], b, c);
    }
  }

  /** On one character, `replace` deletes it when it is `c` and keeps it otherwise. */
  lemma RemoveCharOne(x: char, c: char)
    ensures RemoveChar([x], c) == if x == c then [] else [x]
  {
  }

  /** Python's `str.lstrip()`. */
  function LStrip(s: string): (r: string)
    ensures |r| <= |s| && r == s[|s| - |r|..]
    ensures r != [] ==> !IsPySpace(r[0])
    ensures forall i :: 0 <= i < |s| - |r| ==> IsPySpace(s[i])
  {
    if s != [] && IsPySpace(s[0]) then LStrip(s[1..]) else s
  }

  /** Python's `str.rstrip()`. */
  function RStrip(s: string): (r: string)
    ensures |r| <= |s| && r == s[..|r|]
    ensures r != [] ==> !IsPySpace(r[|r| - 1])
    ensures forall i :: |r| <= i < |s| ==> IsPySpace(s[i])
  {
    if s != [] && IsPySpace(s[|s| - 1]) then RStrip(s[..|s| - 1]) else s
  }

  /** Python's `str.strip()`. */
  function PyStrip(s: string): string {
    RStrip(LStrip(s))
  }

  /** A string whose first character is not whitespace keeps that character in front
      after `strip()`, and a string with a non-space character never strips to empty. */
  lemma StripKeepsFirst(s: string)
    requires s != [] && !IsPySpace(s[0])
    ensures PyStrip(s) != [] && PyStrip(s)[0] == s[0]
  {
    assert LStrip(s) == s;
  }

  /** `strip()` yields the empty string exactly when every character is whitespace. */
  lemma StripEmpty(s: string)
    ensures PyStrip(s) == [] <==> forall i :: 0 <= i < |s| ==> IsPySpace(s[i])
  {
    var l := LStrip(s);
    if PyStrip(s) == [] {
      assert l == [];
    } else {
      var r := PyStrip(s);
      assert r[0] == l[0] == s[|s| - |l|];
    }
  }

  /** Python's `s.split(c)[-1]`: the text after the last `c`, or all of `s`. */
  function AfterLast(s: string, c: char): (r: string)
    ensures c !in r
    ensures |r| <= |s| && r == s[|s| - |r|..]
    ensures |r| < |s| ==> s[|s| - |r| - 1] == c
  {
    if s == [] then []
    else if s[|s| - 1] == c then []
    else AfterLast(s[..|s| - 1], c) + [s[|s| - 1]]
  }

  /** Python's `s.strip(c)` for a one-character `c`. */
  function StripChar(s: string, c: char): (r: string)
    ensures c !in s ==> r == s
    ensures r != [] ==> r[0] != c && r[|r| - 1] != c
  {
    if s != [] && s[0] == c then StripChar(s[1..], c)
    else if s != [] && s[|s| - 1] == c then StripChar(s[..|s| - 1], c)
    else s
  }

  /** `r` is `s` with its leading and trailing runs of `c` removed: a slice of `s` with
      only `c` outside it, neither starting nor ending with `c`. */
  predicate Trimmed(r: string, s: string, c: char) {
    && (r != [] ==> r[0] != c && r[|r| - 1] != c)
    && exists i, j :: 0 <= i <= j <= |s| && r == s[i..j]
         && (forall k :: 0 <= k < i ==> s[k] == c) && (forall k :: j <= k < |s| ==> s[k] == c)
  }

  /** `strip(c)` removes exactly the leading and trailing runs of `c`. */
  lemma StripCharTrims(s: string, c: char)
    ensures Trimmed(StripChar(s, c), s, c)
  {
    var i, j := StripCharSlice(s, c);
    assert 0 <= i <= j <= |s| && StripChar(s, c) == s[i..j];
  }

  /** The bounds of the slice `strip(c)` keeps. */
  lemma {:induction false} StripCharSlice(s: string, c: char) returns (i: nat, j: nat)
    ensures i <= j <= |s| && StripChar(s, c) == s[i..j]
    ensures forall k :: 0 <= k < i ==> s[k] == c
    ensures forall k :: j <= k < |s| ==> s[k] == c
    decreases |s|
  {
    if s != [] && s[0] == c {
      var i', j' := StripCharSlice(s[1..], c);
      ShiftedSlice(s, c, i', j');
      i, j := i' + 1, j' + 1;
    } else if s != [] && s[|s| - 1] == c {
      i, j := StripCharSlice(s[..|s| - 1], c);
      TruncatedSlice(s, s[..|s| - 1], c, i, j);
    } else {
      i, j := 0, |s|;
      assert s[0..|s|] == s;
    }
  }

  /** A slice of `s[1..]` with only `c` outside it, when `s` starts with `c`, is a slice
      of `s` with only `c` outside it. */
  lemma ShiftedSlice(s: string, c: char, i: nat, j: nat)
    requires s != [] && s[0] == c && i <= j <= |s| - 1
    requires forall k :: 0 <= k < i ==> s[1..][k] == c
    requires forall k :: j <= k < |s| - 1 ==> s[1..][k] == c
    ensures s[1..][i..j] == s[i + 1..j + 1]
    ensures forall k :: 0 <= k < i + 1 ==> s[k] == c
    ensures forall k :: j + 1 <= k < |s| ==> s[k] == c
  {
    forall k | 0 < k < i + 1 ensures s[k] == c {
      assert s[k] == s[1..][k - 1];
    }
    forall k | j + 1 <= k < |s| ensures s[k] == c {
      assert s[k] == s[1..][k - 1];
    }
  }

  /** A slice of `t`, which is `s` without its last character `c`, with only `c`
      outside it is a slice of `s` with only `c` outside it. */
  lemma TruncatedSlice(s: string, t: string, c: char, i: nat, j: nat)
    requires s != [] && s[|s| - 1] == c && t == s[..|s| - 1] && i <= j <= |t|
    requires forall k :: 0 <= k < i ==> t[k] == c
    requires forall k :: j <= k < |t| ==> t[k] == c
    ensures t[i..j] == s[i..j]
    ensures forall k :: 0 <= k < i ==> s[k] == c
    ensures forall k :: j <= k < |s| ==> s[k] == c
  {
    forall k | 0 <= k < i ensures s[k] == c {
      assert s[k] == t[k];
    }
    forall k | j <= k < |t| ensures s[k] == c {
      assert s[k] == t[k];
    }
  }

  /** ASCII case folding, Python's `str.lower()` restricted to the letters A to Z. */
  function AsciiLower(s: string): (r: string)
    ensures |r| == |s|
    ensures forall i :: 0 <= i < |s| && 'A' <= s[i] <= 'Z' ==> r[i] == (s[i] as int + 32) as char && 'a' <= r[i] <= 'z'
    ensures forall i :: 0 <= i < |s| && !('A' <= s[i] <= 'Z') ==> r[i] == s[i]
  {
    seq(|s|, i requires 0 <= i < |s| => if 'A' <= s[i] <= 'Z' then (s[i] as int + 32) as char else s[i])
  }

  /** The strings of `ts` put together. */
  function Concat(ts: seq<string>): string {
    if ts == [] then [] else ts[0] + Concat(ts[1..])
  }

  lemma ConcatAppend(a: seq<string>, b: seq<string>)
    ensures Concat(a + b) == Concat(a) + Concat(b)
  {
    if a == [] {
      assert a + b == b;
    } else {
      assert (a + b)[0] == a[0] && (a + b)[1..] == a[1..] + b;
      ConcatAppend(a[1..], b);
    }
  }

  /** `s` with its whitespace deleted. */
  function NonSpace(s: string): string {
    if s == [] then [] else (if IsPySpace(s[0]) then [] else [s[0]]) + NonSpace(s[1..])
  }

  /** Tokens of `s` split at runs of whitespace; `current` is the token being built. */
  function SplitFrom(s: string, current: string): seq<string>
  {
    if s == [] then (if current == [] then [] else [current])
    else if IsPySpace(s[0]) then (if current == [] then [] else [current]) + SplitFrom(s[1..], [])
    else SplitFrom(s[1..], current + [s[0]])
  }

  /** Python's `str.split()` with no argument. */
  function PySplit(s: string): seq<string> {
    SplitFrom(s, [])
  }

  /** The tokens `split()` produces are non-empty and hold no whitespace. */
  lemma {:induction false} SplitFromTokens(s: string, current: string)
    requires forall k :: 0 <= k < |current| ==> !IsPySpace(current[k])
    ensures forall t | t in SplitFrom(s, current) :: t != [] && forall k :: 0 <= k < |t| ==> !IsPySpace(t[k])
    decreases |s|
  {
    if s == [] {
    } else if IsPySpace(s[0]) {
      SplitFromTokens(s[1..], []);
    } else {
      SplitFromTokens(s[1..], current + [s[0]]);
    }
  }

  /** The tokens `split()` produces, put together, are the input with its whitespace
      deleted: no other character is lost, added or reordered. */
  lemma {:induction false} SplitFromConcat(s: string, current: string)
    ensures Concat(SplitFrom(s, current)) == current + NonSpace(s)
    decreases |s|
  {
    if s == [] {
      if current != [] {
        assert Concat([current]) == current + Concat([]);
      }
    } else if IsPySpace(s[0]) {
      var head := if current == [] then [] else [current];
      SplitFromConcat(s[1..], []);
      ConcatAppend(head, SplitFrom(s[1..], []));
      assert Concat(head) == current;
    } else {
      SplitFromConcat(s[1..], current + [s[0]]);
    }
  }
}
