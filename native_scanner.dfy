/** The native scanner of cpp/parser.cpp: a header tokenizer and a single pass over the
    file text that cuts it into sections and collects their numbers. */
module NativeScanner {
  import opened Text
  import opened Numbers

  /** One block of the file: its frequency, the numbers in reading order, and the row count. */
  datatype Section = Section(frequency: real, data: seq<real>, rowCount: nat)

  /** The whole file: column names (shared by all sections) and the sections in file order. */
  datatype FFEFile = FFEFile(headers: seq<string>, sections: seq<Section>)

  const HeaderKey: string := "\"Theta\""
  const SectionTag: string := "#Configuration Name"
  const FrequencyTag: string := "#Frequency:"

  // ---------------------------------------------------------------------------
  // Header tokenizer (parse_header_line)
  // ---------------------------------------------------------------------------

  /** Characters the tokenizer skips without ending the current token. */
  predicate IsDropped(c: char) {
    c == '#' || c == '"' || c == '\r' || c == '\n'
  }

  /** Characters that end the current token. */
  predicate IsSeparator(c: char) {
    IsCSpace(c) || c == ','
  }

  /** A character that may appear inside a column name. */
  predicate IsNameChar(c: char) {
    !IsDropped(c) && !IsSeparator(c)
  }

  predicate GoodToken(t: string) {
    t != [] && forall i :: 0 <= i < |t| ==> IsNameChar(t[i])
  }

  /** Tokens produced from `s` while `current` is the token under construction. */
  function TokensFrom(s: string, current: string): seq<string>
  {
    if s == [] then (if current == [] then [] else [current])
    else if IsDropped(s[0]) then TokensFrom(s[1..], current)
    else if IsSeparator(s[0]) then (if current == [] then [] else [current]) + TokensFrom(s[1..], [])
    else TokensFrom(s[1..], current + [s[0]])
  }

  function Tokenize(s: string): seq<string> {
    TokensFrom(s, [])
  }

  /** `s` with every dropped character and every separator deleted. */
  function NameChars(s: string): (r: string)
  {
    if s == [] then [] else (if IsNameChar(s[0]) then [s[0]] else []) + NameChars(s[1..])
  }

  lemma {:induction false} TokensFromGood(s: string, current: string)
    requires forall i :: 0 <= i < |current| ==> IsNameChar(current[i])
    ensures forall t | t in TokensFrom(s, current) :: GoodToken(t)
    decreases |s|
  {
    if s == [] {
    } else if IsDropped(s[0]) {
      TokensFromGood(s[1..], current);
    } else if IsSeparator(s[0]) {
      TokensFromGood(s[1..], []);
    } else {
      TokensFromGood(s[1..], current + [s[0]]);
    }
  }

  lemma {:induction false} TokensFromConcat(s: string, current: string)
    ensures Concat(TokensFrom(s, current)) == current + NameChars(s)
    decreases |s|
  {
    if s == [] {
    } else if IsDropped(s[0]) {
      TokensFromConcat(s[1..], current);
      assert NameChars(s) == NameChars(s[1..]);
    } else if IsSeparator(s[0]) {
      TokensFromConcat(s[1..], []);
      SeparatorEndsToken(s, current);
    } else {
      TokensFromConcat(s[1..], current + [s[0]]);
      NameCharExtendsToken(s, current);
    }
  }

  lemma SeparatorEndsToken(s: string, current: string)
    requires s != [] && !IsDropped(s[0]) && IsSeparator(s[0])
    requires Concat(TokensFrom(s[1..], [])) == NameChars(s[1..])
    ensures Concat(TokensFrom(s, current)) == current + NameChars(s)
  {
    var head := if current == [] then [] else [current];
    var tail := TokensFrom(s[1..], []);
    assert TokensFrom(s, current) == head + tail;
    ConcatAppend(head, tail);
    assert Concat(head) == current by {
      if current != [] {
        assert Concat(head) == current + Concat([]);
      }
    }
    assert NameChars(s) == NameChars(s[1..]);
  }

  lemma NameCharExtendsToken(s: string, current: string)
    requires s != [] && !IsDropped(s[0]) && !IsSeparator(s[0])
    requires Concat(TokensFrom(s[1..], current + [s[0]])) == (current + [s[0]]) + NameChars(s[1..])
    ensures Concat(TokensFrom(s, current)) == current + NameChars(s)
  {
    assert NameChars(s) == [s[0]] + NameChars(s[1..]);
    assert (current + [s[0]]) + NameChars(s[1..]) == current + ([s[0]] + NameChars(s[1..]));
  }

  /** A dropped character (`#`, `"`, CR, LF) never splits a token: deleting it from the
      line leaves the token list unchanged. */
  lemma {:induction false} DroppedCharJoins(x: string, c: char, y: string, current: string)
    requires IsDropped(c)
    ensures TokensFrom(x + [c] + y, current) == TokensFrom(x + y, current)
    decreases |x|
  {
    if x == [] {
      assert (x + [c] + y)[1..] == y;
      assert x + y == y;
    } else {
      assert (x + [c] + y)[0] == x[0] && (x + y)[0] == x[0];
      assert (x + [c] + y)[1..] == x[1..] + [c] + y;
      assert (x + y)[1..] == x[1..] + y;
      if IsDropped(x[0]) {
        DroppedCharJoins(x[1..], c, y, current);
      } else if IsSeparator(x[0]) {
        DroppedCharJoins(x[1..], c, y, []);
      } else {
        DroppedCharJoins(x[1..], c, y, current + [x[0]]);
      }
    }
  }

  /** `parse_header_line`: walks the characters of `s[start..end]` once. */
  method ParseHeaderLine(s: string, start: nat, end: nat) returns (headers: seq<string>)
    requires start <= end <= |s|
    ensures headers == Tokenize(s[start..end])
    ensures forall t | t in headers :: GoodToken(t)
    ensures Concat(headers) == NameChars(s[start..end])
  {
    headers := [];
    var current: string := [];
    var p := start;
    while p < end
      invariant start <= p <= end
      invariant forall i :: 0 <= i < |current| ==> IsNameChar(current[i])
      invariant headers + TokensFrom(s[p..end], current) == Tokenize(s[start..end])
    {
      var c := s[p];
      assert s[p..end][0] == c && s[p..end][1..] == s[p + 1..end];
      if IsDropped(c) {
        p := p + 1;
        continue;
      }
      if IsSeparator(c) {
        if current != [] {
          headers := headers + [current];
          current := [];
        }
      } else {
        current := current + [c];
      }
      p := p + 1;
    }
    assert s[p..end] == [];
    if current != [] {
      headers := headers + [current];
    }
    TokensFromGood(s[start..end], []);
    TokensFromConcat(s[start..end], []);
  }

  // ---------------------------------------------------------------------------
  // Header location
  // ---------------------------------------------------------------------------

  /** The column names: the tokens of the line holding the first `"Theta"`, or none. */
  function Headers(content: string): seq<string>
  {
    var h := Search(content, HeaderKey, 0, |content|);
    if h == |content| then [] else Tokenize(content[LineStart(content, h)..LineEnd(content, h)])
  }

  /** What `Headers` means: without `"Theta"` there are no columns; otherwise they are the
      tokens of the whole line around its first occurrence. */
  lemma HeadersOfFirstTheta(content: string)
    ensures (forall i :: !MatchAt(content, HeaderKey, i)) ==> Headers(content) == []
    ensures forall h | MatchAt(content, HeaderKey, h) && (forall i :: i < h ==> !MatchAt(content, HeaderKey, i)) ::
      var a := LineStart(content, h);
      var b := LineEnd(content, h);
      && Headers(content) == Tokenize(content[a..b])
      && (a == 0 || content[a - 1] == '\n') && (b == |content| || content[b] == '\n')
      && forall j :: a <= j < b ==> content[j] != '\n'
  {
    forall h | MatchAt(content, HeaderKey, h) && (forall i :: i < h ==> !MatchAt(content, HeaderKey, i))
      ensures Headers(content) == Tokenize(content[LineStart(content, h)..LineEnd(content, h)])
    {
      assert Search(content, HeaderKey, 0, |content|) == h;
    }
  }

  // ---------------------------------------------------------------------------
  // Number scan (part D of parse_content)
  // ---------------------------------------------------------------------------

  /** `*p` on the NUL-terminated buffer. */
  function Peek(s: string, i: nat): char {
    if i < |s| then s[i] else '\0'
  }

  /** First position at or after `i` that is at `end` or holds a non-space. */
  function SkipSpaces(s: string, i: nat, end: nat): (r: nat)
    requires i <= |s| && end <= |s|
    ensures i <= r <= |s| && (i < end ==> r <= end)
    ensures r < end ==> !IsCSpace(s[r])
    ensures forall j :: i <= j < r ==> j < end && IsCSpace(s[j])
    decreases |s| - i
  {
    if i < end && IsCSpace(s[i]) then SkipSpaces(s, i + 1, end) else i
  }

  /** First position at or after `i` that is at `end` or holds a line feed. */
  function SkipLine(s: string, i: nat, end: nat): (r: nat)
    requires i <= |s| && end <= |s|
    ensures i <= r <= |s| && (i < end ==> r <= end)
    ensures r < end ==> s[r] == '\n'
    ensures forall j :: i <= j < r ==> j < end && s[j] != '\n'
    decreases |s| - i
  {
    if i < end && s[i] != '\n' then SkipLine(s, i + 1, end) else i
  }

  /** Characters at which the scanner tries `strtod`. */
  predicate IsNumberStart(c: char) {
    IsDigit(c) || c == '-' || c == '+' || c == '.'
  }

  /** What one iteration of the scan loop does: the position the next iteration starts
      at and where the number it pushed starts (none or one), or `Stop` when the loop
      exits. */
  datatype Step = Stop | Continue(next: nat, found: seq<nat>)

  /** One iteration of the scan loop started at `cur`. It always advances, a number it
      pushes starts inside the section, and when `strtod` consumes nothing it advances
      by exactly one character. */
  function ScanStep(s: string, cur: nat, end: nat): (st: Step)
    requires cur < end <= |s|
    ensures st.Continue? ==> cur < st.next <= |s| && |st.found| <= 1
    ensures st.Continue? ==> forall x :: x in st.found ==> cur <= x < end
    ensures var k := SkipSpaces(s, cur, end);
      k < end && IsNumberStart(s[k]) && NumeralEnd(s, k) == k ==>
        st == Continue(k + 1, [])
  {
    var k := SkipSpaces(s, cur, end);
    if Peek(s, k) == '#' then
      (if k < end then Continue(SkipLine(s, k, end), []) else Stop)
    else if k >= end then Stop
    else if IsNumberStart(s[k]) then
      var e := NumeralEnd(s, k);
      if e == k then Continue(k + 1, []) else Continue(e, [k])
    else Continue(k + 1, [])
  }

  /** Where the numbers the scan loop collects from position `cur` until it reaches `end`
      start. `strtod` reads past `end` exactly as in the source. */
  function NumberStarts(s: string, cur: nat, end: nat): (ps: seq<nat>)
    requires cur <= |s| && end <= |s|
    ensures forall i :: 0 <= i < |ps| ==> cur <= ps[i] < end
    decreases |s| - cur
  {
    if cur >= end then []
    else
      match ScanStep(s, cur, end)
      case Stop => []
      case Continue(next, found) => found + NumberStarts(s, next, end)
  }

  /** The values `strtod` reads at the positions `ps`. */
  function Values(s: string, ps: seq<nat>): (vs: seq<real>)
    requires forall i :: 0 <= i < |ps| ==> ps[i] <= |s|
  {
    seq(|ps|, i requires 0 <= i < |ps| => NumeralValue(s, ps[i]))
  }

  /** The numbers the scan loop collects from `cur` until it reaches `end`. */
  function Scan(s: string, cur: nat, end: nat): seq<real>
    requires cur <= |s| && end <= |s|
  {
    Values(s, NumberStarts(s, cur, end))
  }

  lemma {:induction false} SkipSpacesAcross(s: string, p: nat, n: nat, end: nat)
    requires p <= n <= end <= |s|
    requires forall j :: p <= j < n ==> IsCSpace(s[j])
    ensures SkipSpaces(s, p, end) == SkipSpaces(s, n, end)
    decreases n - p
  {
    if p < n {
      SkipSpacesAcross(s, p + 1, n, end);
    }
  }

  /** Starting the scan on a run of whitespace is the same as starting after it. */
  lemma ScanSkipsSpaces(s: string, p: nat, n: nat, end: nat)
    requires p <= n < end <= |s|
    requires forall j :: p <= j < n ==> IsCSpace(s[j])
    ensures NumberStarts(s, p, end) == NumberStarts(s, n, end)
  {
    SkipSpacesAcross(s, p, n, end);
    assert ScanStep(s, p, end) == ScanStep(s, n, end);
  }

  /** A numeral that starts on a non-space character never runs across a line feed. */
  lemma NumeralStaysOnLine(s: string, k: nat, n: nat)
    requires k < n < |s| && s[n] == '\n' && !IsCSpace(s[k])
    ensures NumeralEnd(s, k) <= n
  {
    assert SpaceRun(s, k) == k;
    NumeralChars(s, k);
    assert !IsNumeralChar(s[n]);
  }

  lemma {:induction false} SkipLineStopsAtNewline(s: string, k: nat, n: nat, end: nat)
    requires k <= n < end <= |s| && s[n] == '\n'
    ensures SkipLine(s, k, end) == SkipLine(s, k, n) <= n
    decreases n - k
  {
    if k < n && s[k] != '\n' {
      SkipLineStopsAtNewline(s, k + 1, n, end);
    }
  }

  /** An iteration that starts before a line feed and finds a non-space before it does
      the same whether the section ends at the line feed or further on, and stays
      before the line feed. */
  lemma StepBeforeNewline(s: string, p: nat, n: nat, end: nat)
    requires p < n < end <= |s| && s[n] == '\n'
    requires SkipSpaces(s, p, n) < n
    ensures ScanStep(s, p, end) == ScanStep(s, p, n)
    ensures ScanStep(s, p, n).Continue? && ScanStep(s, p, n).next <= n
  {
    var k := SkipSpaces(s, p, n);
    SkipSpacesAcross(s, p, k, end);
    SkipSpacesAcross(s, p, k, n);
    assert SkipSpaces(s, p, end) == k;
    if s[k] == '#' {
      SkipLineStopsAtNewline(s, k, n, end);
    } else if IsNumberStart(s[k]) {
      NumeralStaysOnLine(s, k, n);
    }
  }

  /** The scan never carries anything across a line feed: the numbers of a section are the
      numbers before the line feed followed by the numbers after it. */
  lemma {:induction false} StartsSplitAtNewline(s: string, p: nat, n: nat, end: nat)
    requires p <= n < end <= |s| && s[n] == '\n'
    ensures NumberStarts(s, p, end) == NumberStarts(s, p, n) + NumberStarts(s, n, end)
    decreases n - p
  {
    if p == n {
      assert NumberStarts(s, p, n) == [];
      assert [] + NumberStarts(s, n, end) == NumberStarts(s, n, end);
    } else if SkipSpaces(s, p, n) == n {
      BlankBeforeNewline(s, p, n, end);
    } else {
      StepBeforeNewline(s, p, n, end);
      StartsSplitAtNewline(s, ScanStep(s, p, n).next, n, end);
      SplitAfterStep(s, p, n, end);
    }
  }

  /** Only spaces before the line feed: nothing is read before it. */
  lemma BlankBeforeNewline(s: string, p: nat, n: nat, end: nat)
    requires p < n < end <= |s| && s[n] == '\n' && SkipSpaces(s, p, n) == n
    ensures NumberStarts(s, p, end) == NumberStarts(s, p, n) + NumberStarts(s, n, end)
  {
    ScanSkipsSpaces(s, p, n, end);
    assert NumberStarts(s, p, n) == [] by {
      assert ScanStep(s, p, n) == Stop;
    }
    assert [] + NumberStarts(s, n, end) == NumberStarts(s, n, end);
  }

  /** One iteration before the line feed, then the split from where it stops. */
  lemma SplitAfterStep(s: string, p: nat, n: nat, end: nat)
    requires p < n < end <= |s|
    requires ScanStep(s, p, end) == ScanStep(s, p, n)
    requires ScanStep(s, p, n).Continue? && ScanStep(s, p, n).next <= n
    requires var next := ScanStep(s, p, n).next;
      NumberStarts(s, next, end) == NumberStarts(s, next, n) + NumberStarts(s, n, end)
    ensures NumberStarts(s, p, end) == NumberStarts(s, p, n) + NumberStarts(s, n, end)
  {
    var st := ScanStep(s, p, n);
    ScanContinues(s, p, end, st.next, st.found);
    ScanContinues(s, p, n, st.next, st.found);
    Regroup(st.found, NumberStarts(s, st.next, n), NumberStarts(s, n, end),
            NumberStarts(s, st.next, end), NumberStarts(s, p, end));
  }

  lemma {:induction false} SkipLineAcross(s: string, h: nat, b: nat, end: nat)
    requires h <= b <= end <= |s|
    requires forall j :: h <= j < b ==> s[j] != '\n'
    ensures SkipLine(s, h, end) == SkipLine(s, b, end)
    decreases b - h
  {
    if h < b {
      SkipLineAcross(s, h + 1, b, end);
    }
  }

  /** A line whose first non-space character is `#` contributes no number: for the
      comment line between the line feeds at `m` and `b` (or the end of the section),
      the section's numbers are those before it followed by those after it. */
  lemma CommentLineContributesNothing(s: string, p: nat, m: nat, h: nat, b: nat, end: nat)
    requires p <= m < h < b <= end <= |s|
    requires s[m] == '\n' && (b < end ==> s[b] == '\n')
    requires s[h] == '#'
    requires forall j :: m < j < h ==> IsCSpace(s[j])
    requires forall j :: h < j < b ==> s[j] != '\n'
    ensures Scan(s, p, end) == Scan(s, p, m) + Scan(s, b, end)
  {
    StartsSplitAtNewline(s, p, m, end);
    CommentLineStep(s, m, h, b, end);
    ValuesAppend(s, NumberStarts(s, p, m), NumberStarts(s, b, end));
  }

  /** The iteration that starts at the line feed before a comment line skips to the end
      of that line and pushes nothing. */
  lemma CommentLineStep(s: string, m: nat, h: nat, b: nat, end: nat)
    requires m < h < b <= end <= |s|
    requires s[m] == '\n' && (b < end ==> s[b] == '\n')
    requires s[h] == '#'
    requires forall j :: m < j < h ==> IsCSpace(s[j])
    requires forall j :: h < j < b ==> s[j] != '\n'
    ensures NumberStarts(s, m, end) == NumberStarts(s, b, end)
  {
    SkipSpacesAcross(s, m, h, end);
    assert SkipSpaces(s, h, end) == h;
    SkipLineAcross(s, h + 1, b, end);
    assert SkipLine(s, h, end) == SkipLine(s, h + 1, end);
    assert SkipLine(s, b, end) == b;
    ScanContinues(s, m, end, b, []);
  }

  lemma ValuesAppend(s: string, xs: seq<nat>, ys: seq<nat>)
    requires forall i :: 0 <= i < |xs| ==> xs[i] <= |s|
    requires forall i :: 0 <= i < |ys| ==> ys[i] <= |s|
    ensures Values(s, xs + ys) == Values(s, xs) + Values(s, ys)
  {
    var zs := xs + ys;
    assert forall i :: 0 <= i < |zs| ==> zs[i] <= |s|;
    assert Values(s, zs) == Values(s, xs) + Values(s, ys);
  }

  // ---------------------------------------------------------------------------
  // Sections (part B and C of parse_content)
  // ---------------------------------------------------------------------------

  /** The value `strtod` reads after the first `#Frequency:` inside `[a, b)`, or 0.0. */
  function FrequencyIn(content: string, a: nat, b: nat): real
    requires a <= b <= |content|
  {
    var f := Search(content, FrequencyTag, a, b);
    if f == b then 0.0 else NumeralValue(content, f + |FrequencyTag|)
  }

  /** A section's frequency is read after the first `#Frequency:` tag wholly inside it, and
      stays 0.0 when there is none. */
  lemma FrequencyIsFirstTag(content: string, a: nat, b: nat)
    requires a <= b <= |content|
    ensures (forall i :: a <= i && i + |FrequencyTag| <= b ==> !MatchAt(content, FrequencyTag, i)) ==>
      FrequencyIn(content, a, b) == 0.0
    ensures forall i | a <= i && i + |FrequencyTag| <= b && MatchAt(content, FrequencyTag, i)
              && (forall j :: a <= j < i ==> !MatchAt(content, FrequencyTag, j)) ::
      FrequencyIn(content, a, b) == NumeralValue(content, i + |FrequencyTag|)
  {
    var f := Search(content, FrequencyTag, a, b);
    forall i | a <= i && i + |FrequencyTag| <= b && MatchAt(content, FrequencyTag, i)
              && (forall j :: a <= j < i ==> !MatchAt(content, FrequencyTag, j))
      ensures FrequencyIn(content, a, b) == NumeralValue(content, i + |FrequencyTag|)
    {
      assert f == i;
    }
  }

  /** The section cut from `[a, b)` when the file has `columns` header names: the numbers
      the scan collects, the frequency, and the whole rows those numbers fill. */
  function SectionOver(content: string, a: nat, b: nat, columns: nat): Section
    requires a <= b <= |content|
  {
    var data := Scan(content, a, b);
    Section(FrequencyIn(content, a, b), data, RowCount(|data|, columns))
  }

  /** The whole rows `n` numbers fill with `columns` per row, left 0 without header names. */
  function RowCount(n: nat, columns: nat): nat {
    if columns == 0 then 0 else n / columns
  }

  /** The row count is the number of whole rows of `columns` numbers in the section's data;
      with no header names it stays 0. */
  lemma SectionRowCount(content: string, a: nat, b: nat, columns: nat)
    requires a <= b <= |content|
    ensures var sec := SectionOver(content, a, b, columns);
      && (columns > 0 ==> sec.rowCount * columns <= |sec.data| < (sec.rowCount + 1) * columns)
      && (columns == 0 ==> sec.rowCount == 0)
  {
    if columns > 0 {
      RowCountBounds(|Scan(content, a, b)|, columns);
    }
  }

  lemma RowCountBounds(n: nat, d: nat)
    requires d > 0
    ensures (n / d) * d <= n < (n / d + 1) * d
  {
  }

  lemma TagStartsWithHash(content: string, t: nat)
    requires MatchAt(content, SectionTag, t)
    ensures t < |content| && content[t] == '#' && LineEnd(content, t) > t
  {
    assert content[t] == content[t..t + |SectionTag|][0];
  }

  /** The positions of the section tags the loop stops at, searching from `from`. */
  function TagPositions(content: string, from: nat): (tp: seq<nat>)
    requires from <= |content|
    ensures forall k :: 0 <= k < |tp| ==> from <= tp[k] < |content|
    decreases |content| - from
  {
    if from == |content| then []
    else
      var t := Search(content, SectionTag, from, |content|);
      if t == |content| then []
      else
        TagStartsWithHash(content, t);
        [t] + TagPositions(content, LineEnd(content, t))
  }

  /** The stretch `[start, stop)` of the buffer one section's numbers are read from. */
  datatype Cut = Cut(start: nat, stop: nat)

  /** The stretches the loop of `parse_content` cuts, searching from `from`: each runs
      from the end of a tag's line to the next tag, or to the end of the buffer. */
  function CutsFrom(content: string, from: nat): (cs: seq<Cut>)
    requires from <= |content|
    ensures forall k :: 0 <= k < |cs| ==> from <= cs[k].start <= cs[k].stop <= |content|
    decreases |content| - from
  {
    if from == |content| then []
    else
      var t := Search(content, SectionTag, from, |content|);
      if t == |content| then []
      else
        TagStartsWithHash(content, t);
        var a := LineEnd(content, t);
        var b := Search(content, SectionTag, a, |content|);
        [Cut(a, b)] + CutsFrom(content, b)
  }

  /** The sections the loop of `parse_content` pushes, starting at `from`. */
  function SectionsFrom(content: string, from: nat, columns: nat): seq<Section>
    requires from <= |content|
  {
    SectionsOver(content, CutsFrom(content, from), columns)
  }

  /** The sections cut from the stretches `cs`. */
  function SectionsOver(content: string, cs: seq<Cut>, columns: nat): seq<Section>
    requires forall k :: 0 <= k < |cs| ==> cs[k].start <= cs[k].stop <= |content|
  {
    seq(|cs|, k requires 0 <= k < |cs| => SectionOver(content, cs[k].start, cs[k].stop, columns))
  }

  lemma SectionsOverAppend(content: string, cs: seq<Cut>, c: Cut, columns: nat)
    requires forall k :: 0 <= k < |cs| ==> cs[k].start <= cs[k].stop <= |content|
    requires c.start <= c.stop <= |content|
    ensures var ds := cs + [c];
      (forall k :: 0 <= k < |ds| ==> ds[k].start <= ds[k].stop <= |content|) &&
      SectionsOver(content, ds, columns)
        == SectionsOver(content, cs, columns) + [SectionOver(content, c.start, c.stop, columns)]
  {
    var ds := cs + [c];
    assert forall k :: 0 <= k < |ds| ==> ds[k].start <= ds[k].stop <= |content|;
    assert SectionsOver(content, ds, columns)
      == SectionsOver(content, cs, columns) + [SectionOver(content, c.start, c.stop, columns)];
  }

  lemma TagPositionsUnfold(content: string, from: nat)
    requires from < |content|
    requires Search(content, SectionTag, from, |content|) < |content|
    ensures var t := Search(content, SectionTag, from, |content|);
      t < |content| && content[t] == '#' &&
      TagPositions(content, from) == [t] + TagPositions(content, LineEnd(content, t))
  {
    TagStartsWithHash(content, Search(content, SectionTag, from, |content|));
  }

  /** Every recorded position holds the tag. */
  lemma {:induction false} TagPositionsAreTags(content: string, from: nat)
    requires from <= |content|
    ensures var tp := TagPositions(content, from);
      forall k :: 0 <= k < |tp| ==> MatchAt(content, SectionTag, tp[k])
    decreases |content| - from
  {
    if from < |content| {
      var t := Search(content, SectionTag, from, |content|);
      if t < |content| {
        TagPositionsUnfold(content, from);
        TagPositionsAreTags(content, LineEnd(content, t));
      }
    }
  }

  /** Each recorded tag lies on a later line than the one before it. */
  lemma {:induction false} TagPositionsOnLaterLines(content: string, from: nat)
    requires from <= |content|
    ensures var tp := TagPositions(content, from);
      forall k :: 0 <= k < |tp| - 1 ==> tp[k] < LineEnd(content, tp[k]) <= tp[k + 1]
    decreases |content| - from
  {
    if from < |content| {
      var t := Search(content, SectionTag, from, |content|);
      if t < |content| {
        TagPositionsUnfold(content, from);
        var e := LineEnd(content, t);
        TagPositionsOnLaterLines(content, e);
        TagPositionsAreTags(content, e);
      }
    }
  }

  /** Every tag at or after `from` lies on the line of a recorded one, so there is one
      section per line holding the tag, and text before the first tag belongs to no
      section. */
  lemma {:induction false} TagPositionsCoverTags(content: string, from: nat, i: nat)
    requires from <= i && MatchAt(content, SectionTag, i)
    ensures var tp := TagPositions(content, from);
      exists k :: 0 <= k < |tp| && tp[k] <= i < LineEnd(content, tp[k])
    decreases |content| - from
  {
    var t := Search(content, SectionTag, from, |content|);
    assert t <= i;
    TagPositionsUnfold(content, from);
    var tp := TagPositions(content, from);
    var e := LineEnd(content, t);
    if i < e {
      assert tp[0] <= i < LineEnd(content, tp[0]);
    } else {
      TagPositionsCoverTags(content, e, i);
      var rest := TagPositions(content, e);
      var k' :| 0 <= k' < |rest| && rest[k'] <= i < LineEnd(content, rest[k']);
      assert tp[k' + 1] == rest[k'];
    }
  }

  /** Searching for the next tag first does not change the recorded positions. */
  lemma TagPositionsFromNextTag(content: string, a: nat)
    requires a <= |content|
    ensures a < |content| ==>
      TagPositions(content, a) == TagPositions(content, Search(content, SectionTag, a, |content|))
  {
    if a < |content| {
      var b := Search(content, SectionTag, a, |content|);
      if b < |content| {
        TagPositionsUnfold(content, a);
        assert Search(content, SectionTag, b, |content|) == b;
        TagPositionsUnfold(content, b);
      }
    }
  }

  /** One step of both searches: the first tag at `t`, its section cut up to the next
      tag `b`, and the positions recorded from `b` on start at `b` itself. */
  lemma CutsStep(content: string, from: nat, t: nat, b: nat)
    requires from < |content|
    requires t == Search(content, SectionTag, from, |content|) < |content|
    requires t < |content| && b == Search(content, SectionTag, LineEnd(content, t), |content|)
    ensures TagPositions(content, from) == [t] + TagPositions(content, b)
    ensures CutsFrom(content, from) == [Cut(LineEnd(content, t), b)] + CutsFrom(content, b)
    ensures |TagPositions(content, b)| > 0 ==> TagPositions(content, b)[0] == b
  {
    TagPositionsUnfold(content, from);
    TagPositionsFromNextTag(content, LineEnd(content, t));
    if b < |content| {
      assert Search(content, SectionTag, b, |content|) == b;
      TagPositionsUnfold(content, b);
    }
  }

  /** Section `k` is cut from the end of the `k`-th tag's line up to the next tag, or to
      the end of the buffer for the last one; so there is one section per tag line. */
  lemma {:induction false} CutsFollowTags(content: string, from: nat)
    requires from <= |content|
    ensures var tp := TagPositions(content, from);
      var cs := CutsFrom(content, from);
      && |cs| == |tp|
      && (forall k :: 0 <= k < |tp| - 1 ==> cs[k] == Cut(LineEnd(content, tp[k]), tp[k + 1]))
      && (|tp| > 0 ==> cs[|tp| - 1] == Cut(LineEnd(content, tp[|tp| - 1]), |content|))
    decreases |content| - from
  {
    if from < |content| {
      var t := Search(content, SectionTag, from, |content|);
      if t < |content| {
        TagStartsWithHash(content, t);
        var b := Search(content, SectionTag, LineEnd(content, t), |content|);
        CutsStep(content, from, t, b);
        CutsFollowTags(content, b);
        var tp := TagPositions(content, from);
        var cs := CutsFrom(content, from);
        var rest := TagPositions(content, b);
        var more := CutsFrom(content, b);
        forall k | 0 <= k < |tp| - 1
          ensures cs[k] == Cut(LineEnd(content, tp[k]), tp[k + 1])
        {
          if k > 0 {
            assert cs[k] == more[k - 1];
            assert tp[k] == rest[k - 1] && tp[k + 1] == rest[k];
          }
        }
        if |rest| > 0 {
          assert cs[|tp| - 1] == more[|rest| - 1];
          assert tp[|tp| - 1] == rest[|rest| - 1];
        }
      }
    }
  }

  // ---------------------------------------------------------------------------
  // parse_content
  // ---------------------------------------------------------------------------

  lemma Regroup<T>(done: seq<T>, found: seq<T>, rest: seq<T>, here: seq<T>, total: seq<T>)
    requires done + here == total && here == found + rest
    ensures (done + found) + rest == total
  {
    assert (done + found) + rest == done + (found + rest);
  }

  /** Unfolds one iteration of the scan loop. */
  lemma ScanContinues(s: string, cur: nat, end: nat, next: nat, found: seq<nat>)
    requires cur < end <= |s| && ScanStep(s, cur, end) == Continue(next, found)
    ensures NumberStarts(s, cur, end) == found + NumberStarts(s, next, end)
  {
  }

  /** One iteration of the scan loop of part D, from `cur`: skip spaces; skip a line
      that starts with `#`; otherwise try `strtod` at a number-start character, stepping
      one character when it consumes nothing. `stop` is the loop's `break`. */
  method ScanIteration(content: string, cur: nat, b: nat)
    returns (stop: bool, next: nat, found: seq<nat>)
    requires cur < b <= |content|
    ensures stop <==> ScanStep(content, cur, b).Stop?
    ensures !stop ==> ScanStep(content, cur, b) == Continue(next, found)
  {
    next := cur;
    found := [];
    stop := false;
    while next < b && IsCSpace(content[next])
      invariant cur <= next <= b
      invariant SkipSpaces(content, next, b) == SkipSpaces(content, cur, b)
    {
      next := next + 1;
    }
    if Peek(content, next) == '#' {
      var hash := next;
      while next < b && content[next] != '\n'
        invariant hash <= next <= |content|
        invariant hash < b ==> next <= b
        invariant next > hash ==> hash < b
        invariant hash < b ==> SkipLine(content, next, b) == SkipLine(content, hash, b)
      {
        next := next + 1;
      }
      stop := hash >= b;
      return;
    }
    if next >= b {
      stop := true;
      return;
    }
    var c := content[next];
    if IsNumberStart(c) {
      var numEnd := NumeralEnd(content, next);
      if numEnd == next {
        next := next + 1;
      } else {
        found := [next];
        next := numEnd;
      }
    } else {
      next := next + 1;
    }
  }

  /** The scan loop of part D over `[a, b)`: the numbers it pushes. */
  method ScanNumbers(content: string, a: nat, b: nat) returns (data: seq<real>)
    requires a <= b <= |content|
    ensures data == Scan(content, a, b)
  {
    data := [];
    ghost var starts: seq<nat> := [];
    var cur := a;
    while cur < b
      invariant cur <= |content|
      invariant starts + NumberStarts(content, cur, b) == NumberStarts(content, a, b)
      invariant forall i :: 0 <= i < |starts| ==> starts[i] <= |content|
      invariant data == Values(content, starts)
      decreases |content| - cur
    {
      var stop, next, found := ScanIteration(content, cur, b);
      if stop {
        break;
      }
      ScanContinues(content, cur, b, next, found);
      Regroup(starts, found, NumberStarts(content, next, b), NumberStarts(content, cur, b),
              NumberStarts(content, a, b));
      if found != [] {
        ValuesAppend(content, starts, found);
        data := data + [NumeralValue(content, found[0])];
        assert Values(content, found) == [NumeralValue(content, found[0])];
      } else {
        assert starts + found == starts;
      }
      starts := starts + found;
      cur := next;
    }
    assert starts == NumberStarts(content, a, b);
  }

  /** Parts C and D for one section: the frequency, the scan loop over `[a, b)`, and the
      row count. */
  method ScanSection(content: string, a: nat, b: nat, columns: nat) returns (sec: Section)
    requires a <= b <= |content|
    ensures sec == SectionOver(content, a, b, columns)
  {
    var frequency := 0.0;
    var f := Search(content, FrequencyTag, a, b);
    if f != b {
      frequency := NumeralValue(content, f + |FrequencyTag|);
    }
    assert frequency == FrequencyIn(content, a, b);
    var data := ScanNumbers(content, a, b);
    sec := Section(frequency, data, RowCount(|data|, columns));
  }

  lemma CutsUnfold(content: string, from: nat)
    requires from < |content| && Search(content, SectionTag, from, |content|) < |content|
    ensures var t := Search(content, SectionTag, from, |content|);
      t < |content| &&
      var a := LineEnd(content, t);
      CutsFrom(content, from) == [Cut(a, Search(content, SectionTag, a, |content|))]
        + CutsFrom(content, Search(content, SectionTag, a, |content|))
  {
    TagStartsWithHash(content, Search(content, SectionTag, from, |content|));
  }

  /** Part A of `parse_content`: the names on the line holding the first `"Theta"`, or
      none when there is no such line. */
  method ReadHeaders(content: string) returns (headers: seq<string>)
    ensures headers == Headers(content)
  {
    headers := [];
    var h := Search(content, HeaderKey, 0, |content|);
    if h != |content| {
      assert content[h] == '"' by {
        assert content[h] == content[h..h + |HeaderKey|][0];
      }
      var lineStart := h;
      while lineStart > 0 && content[lineStart] != '\n'
        invariant lineStart <= h
        invariant LineStart(content, lineStart + 1) == LineStart(content, h)
      {
        lineStart := lineStart - 1;
      }
      if content[lineStart] == '\n' {
        lineStart := lineStart + 1;
      }
      var lineEnd := h;
      while lineEnd < |content| && content[lineEnd] != '\n'
        invariant h <= lineEnd <= |content|
        invariant LineEnd(content, lineEnd) == LineEnd(content, h)
      {
        lineEnd := lineEnd + 1;
      }
      headers := ParseHeaderLine(content, lineStart, lineEnd);
    }
  }

  /** `parse_content`: the header names, then one section per tag line. */
  method ParseContent(content: string) returns (result: FFEFile)
    ensures result.headers == Headers(content)
    ensures result.sections == SectionsFrom(content, 0, |Headers(content)|)
  {
    var headers := ReadHeaders(content);

    var sections: seq<Section> := [];
    ghost var done: seq<Cut> := [];
    var ptr := 0;
    while ptr < |content|
      invariant ptr <= |content|
      invariant done + CutsFrom(content, ptr) == CutsFrom(content, 0)
      invariant forall k :: 0 <= k < |done| ==> done[k].start <= done[k].stop <= |content|
      invariant sections == SectionsOver(content, done, |headers|)
      decreases |content| - ptr
    {
      var sectionStart := Search(content, SectionTag, ptr, |content|);
      if sectionStart == |content| {
        break;
      }
      TagStartsWithHash(content, sectionStart);
      ghost var from := ptr;
      ptr := sectionStart;
      while ptr < |content| && content[ptr] != '\n'
        invariant sectionStart <= ptr <= |content|
        invariant LineEnd(content, ptr) == LineEnd(content, sectionStart)
      {
        ptr := ptr + 1;
      }
      assert ptr == LineEnd(content, sectionStart);
      var nextSection := Search(content, SectionTag, ptr, |content|);
      CutsUnfold(content, from);
      Regroup(done, [Cut(ptr, nextSection)], CutsFrom(content, nextSection), CutsFrom(content, from),
              CutsFrom(content, 0));
      var sec := ScanSection(content, ptr, nextSection, |headers|);
      SectionsOverAppend(content, done, Cut(ptr, nextSection), |headers|);
      sections := sections + [sec];
      done := done + [Cut(ptr, nextSection)];
      ptr := nextSection;
    }
    assert done == CutsFrom(content, 0);
    result := FFEFile(headers, sections);
  }
}
