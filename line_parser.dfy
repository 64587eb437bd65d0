/** The line-oriented parser `FFEParser` of `src/ffe_parse.py`: a file is a sequence of
    lines (as `readlines` returns them, line feeds kept), split into frequency blocks at
    the lines that name a configuration; each block is sorted line by line into a
    frequency line, a header line or a data line; the blocks of several files are merged
    by frequency. */
module LineParser {
  import opened Wrappers
  import opened Text
  import opened Numbers
  import opened Ordering

  /** `SingleFrequencyField`: the block's table and its frequency. The table is kept as
      the column names `read_csv` takes from the header line, after `'` removal, and the
      whitespace-separated cells of each data row, as text. */
  datatype Field = Field(columns: seq<string>, rows: seq<seq<string>>, freq: real)

  /** The `ValueError` a block without a header or without data raises. */
  datatype SectionError = InvalidSection

  const FrequencyPrefix: string := "#Frequency:"
  const ConfigurationMarker: string := "Configuration Name:"

  // ---------------------------------------------------------------------------------
  // Column names

  /** `_standardize_columns`: every name with its `'` characters removed. */
  function Standardized(columns: seq<string>): seq<string> {
    seq(|columns|, i requires 0 <= i < |columns| => RemoveChar(columns[i], '\''))
  }

  /** `_standardize_columns`: collect the renaming of each name that holds a `'`, then
      rename the columns through it. */
  method StandardizeColumns(columns: seq<string>) returns (renamed: seq<string>)
    ensures renamed == Standardized(columns)
  {
    var cleanCols: map<string, string> := map[];
    var i := 0;
    while i < |columns|
      invariant i <= |columns|
      invariant forall k :: 0 <= k < i && '\'' in columns[k] ==> columns[k] in cleanCols
      invariant forall c :: c in cleanCols ==> cleanCols[c] == RemoveChar(c, '\'')
    {
      var col := columns[i];
      if '\'' in col {
        cleanCols := cleanCols[col := RemoveChar(col, '\'')];
      }
      i := i + 1;
    }
    renamed := seq(|columns|, k requires 0 <= k < |columns| =>
      if columns[k] in cleanCols then cleanCols[columns[k]] else columns[k]);
    forall k | 0 <= k < |columns| && columns[k] !in cleanCols
      ensures renamed[k] == RemoveChar(columns[k], '\'')
    {
      RemoveAbsentChar(columns[k], '\'');
    }
  }

  /** Each standardised name is the original with its `'` characters deleted, the others
      kept in order (`RemoveCharAppend`); standardised names hold no `'`; names without
      one are unchanged; the number and order of the columns are kept. */
  lemma StandardizedNames(columns: seq<string>)
    ensures |Standardized(columns)| == |columns|
    ensures forall i :: 0 <= i < |columns| ==> Standardized(columns)[i] == RemoveChar(columns[i], '\'')
    ensures forall i :: 0 <= i < |columns| ==> '\'' !in Standardized(columns)[i]
    ensures forall i :: 0 <= i < |columns| && '\'' !in columns[i] ==> Standardized(columns)[i] == columns[i]
  {
    forall i | 0 <= i < |columns| && '\'' !in columns[i]
      ensures Standardized(columns)[i] == columns[i]
    {
      RemoveAbsentChar(columns[i], '\'');
    }
  }

  /** Standardising twice is standardising once. */
  lemma StandardizedIdempotent(columns: seq<string>)
    ensures Standardized(Standardized(columns)) == Standardized(columns)
  {
    var once := Standardized(columns);
    forall i | 0 <= i < |once|
      ensures RemoveChar(once[i], '\'') == once[i]
    {
      RemoveAbsentChar(once[i], '\'');
    }
  }

  // ---------------------------------------------------------------------------------
  // The three kinds of line of a block

  predicate IsFrequencyLine(line: string) {
    StartsWith(line, FrequencyPrefix)
  }

  /** The value of a frequency line: the text after its last `:`, stripped, as `float()`
      reads it; `None` when `float()` raises. */
  function FrequencyValue(line: string): Option<real> {
    ParseFloat(PyStrip(AfterLast(line, ':')))
  }

  /** A frequency line whose value parses: the only kind that sets the frequency. */
  predicate GivesFrequency(line: string) {
    IsFrequencyLine(line) && FrequencyValue(line).Some?
  }

  predicate IsHeaderLine(line: string) {
    !IsFrequencyLine(line) && StartsWith(line, "#") && Contains(line, "Theta")
  }

  /** The header string a header line gives: every `#` removed, then stripped. */
  function HeaderText(line: string): string {
    PyStrip(RemoveChar(line, '#'))
  }

  /** A non-blank line whose stripped form starts with neither `#` nor `*`. */
  predicate IsDataLine(line: string) {
    var t := PyStrip(line);
    t != [] && t[0] != '#' && t[0] != '*'
  }

  /** The frequency the loop of `_parse_section` ends with: the value of the last
      frequency line whose value parses, 0.0 when there is none. */
  function SectionFrequency(lines: seq<string>): real {
    if lines == [] then 0.0
    else if GivesFrequency(lines[|lines| - 1]) then FrequencyValue(lines[|lines| - 1]).value
    else SectionFrequency(lines[..|lines| - 1])
  }

  /** The header string the loop ends with: that of the last header line, empty when
      there is none. */
  function HeaderString(lines: seq<string>): string {
    if lines == [] then ""
    else if IsHeaderLine(lines[|lines| - 1]) then HeaderText(lines[|lines| - 1])
    else HeaderString(lines[..|lines| - 1])
  }

  /** The elements of `xs` that satisfy `p`, in order. */
  function Filter<T>(p: T -> bool, xs: seq<T>): seq<T> {
    if xs == [] then []
    else Filter(p, xs[..|xs| - 1]) + (if p(xs[|xs| - 1]) then [xs[|xs| - 1]] else [])
  }

  /** The data lines of `lines`, in order. */
  function DataLines(lines: seq<string>): seq<string> {
    Filter(IsDataLine, lines)
  }

  /** The three kinds exclude each other: a line starting with `#` is never data. */
  lemma LineKindsDisjoint(line: string)
    ensures !(IsFrequencyLine(line) && IsHeaderLine(line))
    ensures IsDataLine(line) ==> !IsFrequencyLine(line) && !StartsWith(line, "#")
  {
    if StartsWith(line, "#") {
      assert line[0] == '#';
      StripKeepsFirst(line);
    }
    if IsFrequencyLine(line) {
      assert line[0] == FrequencyPrefix[0] == '#';
      StripKeepsFirst(line);
    }
  }

  /** With no frequency line whose value parses, the frequency stays 0.0. */
  lemma {:induction false} FrequencyDefault(lines: seq<string>)
    requires forall k :: 0 <= k < |lines| ==> !GivesFrequency(lines[k])
    ensures SectionFrequency(lines) == 0.0
  {
    if lines != [] {
      FrequencyDefault(lines[..|lines| - 1]);
    }
  }

  /** Otherwise the last frequency line whose value parses wins. */
  lemma {:induction false} LastFrequencyWins(lines: seq<string>, k: nat)
    requires k < |lines| && GivesFrequency(lines[k])
    requires forall j :: k < j < |lines| ==> !GivesFrequency(lines[j])
    ensures SectionFrequency(lines) == FrequencyValue(lines[k]).value
  {
    if k < |lines| - 1 {
      LastFrequencyWins(lines[..|lines| - 1], k);
    }
  }

  /** With no header line, the header string stays empty. */
  lemma {:induction false} HeaderDefault(lines: seq<string>)
    requires forall k :: 0 <= k < |lines| ==> !IsHeaderLine(lines[k])
    ensures HeaderString(lines) == ""
  {
    if lines != [] {
      HeaderDefault(lines[..|lines| - 1]);
    }
  }

  /** Otherwise the last header line gives the header string, and that string is never
      empty, since the line holds `Theta`. */
  lemma {:induction false} LastHeaderWins(lines: seq<string>, k: nat)
    requires k < |lines| && IsHeaderLine(lines[k])
    requires forall j :: k < j < |lines| ==> !IsHeaderLine(lines[j])
    ensures HeaderString(lines) == HeaderText(lines[k])
    ensures HeaderString(lines) != ""
  {
    if k < |lines| - 1 {
      LastHeaderWins(lines[..|lines| - 1], k);
    } else {
      HeaderTextNotEmpty(lines[k]);
    }
  }

  lemma HeaderTextNotEmpty(line: string)
    requires Contains(line, "Theta")
    ensures HeaderText(line) != ""
  {
    var i: nat :| i <= |line| && MatchAt(line, "Theta", i);
    assert line[i] == "Theta"[0] == 'T';
    var r := RemoveChar(line, '#');
    assert 'T' in r;
    var j :| 0 <= j < |r| && r[j] == 'T';
    StripEmpty(r);
  }

  /** Nothing is kept exactly when no element satisfies the predicate. */
  lemma {:induction false} FilterEmpty<T>(p: T -> bool, xs: seq<T>)
    ensures Filter(p, xs) == [] <==> forall k :: 0 <= k < |xs| ==> !p(xs[k])
  {
    if xs != [] {
      var init := xs[..|xs| - 1];
      FilterEmpty(p, init);
      assert forall k :: 0 <= k < |init| ==> init[k] == xs[k];
    }
  }

  /** Filtering a concatenation filters each part, in order. */
  lemma {:induction false} FilterAppend<T>(p: T -> bool, a: seq<T>, b: seq<T>)
    ensures Filter(p, a + b) == Filter(p, a) + Filter(p, b)
    decreases |b|
  {
    if b == [] {
      assert a + b == a;
    } else {
      var init := b[..|b| - 1];
      FilterAppend(p, a, init);
      assert (a + b)[..|a + b| - 1] == a + init;
      assert (a + b)[|a + b| - 1] == b[|b| - 1];
    }
  }

  /** The data lines are empty exactly when no line is a data line. */
  lemma DataLinesEmpty(lines: seq<string>)
    ensures DataLines(lines) == [] <==> forall k :: 0 <= k < |lines| ==> !IsDataLine(lines[k])
  {
    FilterEmpty(IsDataLine, lines);
  }

  /** Each data line is kept once, in the order of the block: the data lines of two
      consecutive parts are those of the first followed by those of the second. */
  lemma DataLinesAppend(a: seq<string>, b: seq<string>)
    ensures DataLines(a + b) == DataLines(a) + DataLines(b)
  {
    FilterAppend(IsDataLine, a, b);
  }

  // ---------------------------------------------------------------------------------
  // One block

  /** `read_csv`'s reading of a header field: one pair of enclosing `"` removed. */
  function Dequote(t: string): string {
    if |t| >= 2 && t[0] == '"' && t[|t| - 1] == '"' then t[1..|t| - 1] else t
  }

  /** The column names `read_csv` with a whitespace separator takes from the header. */
  function HeaderColumns(header: string): seq<string> {
    var fields := PySplit(header);
    seq(|fields|, i requires 0 <= i < |fields| => Dequote(fields[i]))
  }

  /** The cells of each data row. */
  function Cells(data: seq<string>): seq<seq<string>> {
    seq(|data|, i requires 0 <= i < |data| => PySplit(data[i]))
  }

  /** What one more line does to the frequency, the header string and the data lines. */
  lemma SortLine(lines: seq<string>, line: string)
    ensures SectionFrequency(lines + [line]) ==
      if GivesFrequency(line) then FrequencyValue(line).value else SectionFrequency(lines)
    ensures HeaderString(lines + [line]) == if IsHeaderLine(line) then HeaderText(line) else HeaderString(lines)
    ensures DataLines(lines + [line]) == DataLines(lines) + if IsDataLine(line) then [line] else []
    ensures IsFrequencyLine(line) ==> !IsHeaderLine(line) && !IsDataLine(line)
    ensures StartsWith(line, "#") ==> !IsDataLine(line)
  {
    var all := lines + [line];
    assert all[..|all| - 1] == lines;
    LineKindsDisjoint(line);
  }

  /** `_parse_section` on the lines of one block. */
  function DecodeSection(lines: seq<string>): Result<Field, SectionError> {
    var header := HeaderString(lines);
    var data := DataLines(lines);
    if header == "" || data == [] then Failure(InvalidSection)
    else Success(Field(Standardized(HeaderColumns(header)), Cells(data), SectionFrequency(lines)))
  }

  /** A block fails exactly when it has no header line or no data line. */
  lemma SectionFails(lines: seq<string>)
    ensures DecodeSection(lines).Failure? <==>
      (forall k :: 0 <= k < |lines| ==> !IsHeaderLine(lines[k]))
      || (forall k :: 0 <= k < |lines| ==> !IsDataLine(lines[k]))
  {
    DataLinesEmpty(lines);
    if forall k :: 0 <= k < |lines| ==> !IsHeaderLine(lines[k]) {
      HeaderDefault(lines);
    } else {
      var k :| 0 <= k < |lines| && IsHeaderLine(lines[k]);
      var last := LastHeaderLine(lines, k);
      LastHeaderWins(lines, last);
    }
  }

  /** The last header line at or after a given one. */
  lemma {:induction false} LastHeaderLine(lines: seq<string>, k: nat) returns (last: nat)
    requires k < |lines| && IsHeaderLine(lines[k])
    ensures k <= last < |lines| && IsHeaderLine(lines[last])
    ensures forall j :: last < j < |lines| ==> !IsHeaderLine(lines[j])
    decreases |lines| - k
  {
    if exists j :: k < j < |lines| && IsHeaderLine(lines[j]) {
      var j :| k < j < |lines| && IsHeaderLine(lines[j]);
      last := LastHeaderLine(lines, j);
    } else {
      last := k;
    }
  }

  /** `_parse_section`: sort the lines of the block, then reject a block without a
      header or data, then build the table. */
  method ParseSection(section: seq<string>) returns (r: Result<Field, SectionError>)
    ensures r == DecodeSection(section)
  {
    var freq, headerStr, dataLines := SortLines(section);
    if headerStr == "" || dataLines == [] {
      return Failure(InvalidSection);
    }
    var columns := StandardizeColumns(HeaderColumns(headerStr));
    r := Success(Field(columns, Cells(dataLines), freq));
  }

  /** The loop of `_parse_section` with its `if`/`elif` chain. */
  method SortLines(section: seq<string>) returns (freq: real, headerStr: string, dataLines: seq<string>)
    ensures freq == SectionFrequency(section)
    ensures headerStr == HeaderString(section)
    ensures dataLines == DataLines(section)
  {
    freq := 0.0;
    headerStr := "";
    dataLines := [];
    var i := 0;
    while i < |section|
      invariant i <= |section|
      invariant freq == SectionFrequency(section[..i])
      invariant headerStr == HeaderString(section[..i])
      invariant dataLines == DataLines(section[..i])
    {
      var line := section[i];
      assert section[..i + 1] == section[..i] + [line] by {
        TakeOneMore(section, i);
      }
      SortLine(section[..i], line);
      if StartsWith(line, FrequencyPrefix) {
        var v := FrequencyValue(line);
        if v.Some? {
          freq := v.value;
        }
      } else if StartsWith(line, "#") && Contains(line, "Theta") {
        headerStr := HeaderText(line);
      } else if IsDataLine(line) {
        dataLines := dataLines + [line];
      }
      i := i + 1;
    }
    assert section[..i] == section;
  }

  // ---------------------------------------------------------------------------------
  // Splitting a file into blocks

  predicate IsMarkerLine(line: string) {
    Contains(line, ConfigurationMarker)
  }

  predicate Ascending(ks: seq<nat>) {
    forall i, j :: 0 <= i < j < |ks| ==> ks[i] < ks[j]
  }

  /** Indices, at or after `from`, of the lines that name a configuration. */
  function MarkersFrom(lines: seq<string>, from: nat): (ks: seq<nat>)
    requires from <= |lines|
    ensures forall i :: 0 <= i < |ks| ==> from <= ks[i] < |lines|
    decreases |lines| - from
  {
    if from == |lines| then []
    else (if IsMarkerLine(lines[from]) then [from] else []) + MarkersFrom(lines, from + 1)
  }

  /** The marker indices are ascending and are exactly the marker lines. */
  lemma {:induction false} MarkersFromSpec(lines: seq<string>, from: nat)
    requires from <= |lines|
    ensures Ascending(MarkersFrom(lines, from))
    ensures forall k :: from <= k < |lines| ==> (k in MarkersFrom(lines, from) <==> IsMarkerLine(lines[k]))
    decreases |lines| - from
  {
    if from < |lines| {
      MarkersFromSpec(lines, from + 1);
    }
  }

  /** `config_indices` after the fallback: the marker lines, else line 0 of a non-empty
      file, else nothing. */
  function SectionStarts(lines: seq<string>): seq<nat> {
    var markers := MarkersFrom(lines, 0);
    if markers != [] then markers else if lines != [] then [0] else []
  }

  lemma SectionStartsValid(lines: seq<string>)
    ensures Ascending(SectionStarts(lines))
    ensures forall i :: 0 <= i < |SectionStarts(lines)| ==> SectionStarts(lines)[i] < |lines|
  {
    MarkersFromSpec(lines, 0);
  }

  /** Where block `i` ends: at the next start, or at the end of the file. */
  function SliceEnd(starts: seq<nat>, i: nat, n: nat): nat
    requires i < |starts|
  {
    if i + 1 < |starts| then starts[i + 1] else n
  }

  /** The blocks `lines[starts[i]:end]`. */
  function Slices(lines: seq<string>, starts: seq<nat>): seq<seq<string>>
    requires Ascending(starts)
    requires forall i :: 0 <= i < |starts| ==> starts[i] < |lines|
  {
    seq(|starts|, i requires 0 <= i < |starts| => lines[starts[i]..SliceEnd(starts, i, |lines|)])
  }

  /** Block `i` runs from its start to the next start, or to the end of the file. */
  lemma OutcomeOfSlice(lines: seq<string>, starts: seq<nat>, i: nat)
    requires Ascending(starts)
    requires forall k :: 0 <= k < |starts| ==> starts[k] < |lines|
    requires i < |starts|
    ensures starts[i] <= SliceEnd(starts, i, |lines|) <= |lines|
    ensures Outcomes(Slices(lines, starts))[i] == DecodeSection(lines[starts[i]..SliceEnd(starts, i, |lines|)])
  {
  }

  /** The blocks `_parse` hands to `_parse_section`. */
  function SplitSections(lines: seq<string>): seq<seq<string>> {
    SectionStartsValid(lines);
    Slices(lines, SectionStarts(lines))
  }

  function Flatten<T>(xss: seq<seq<T>>): seq<T> {
    if xss == [] then [] else xss[0] + Flatten(xss[1..])
  }

  lemma TakeOneMore<T>(xs: seq<T>, i: nat)
    requires i < |xs|
    ensures xs[..i + 1] == xs[..i] + [xs[i]]
  {
  }

  lemma {:induction false} FlattenAppend<T>(xss: seq<seq<T>>, xs: seq<T>)
    ensures Flatten(xss + [xs]) == Flatten(xss) + xs
  {
    if xss == [] {
      assert Flatten([xs]) == xs + Flatten([]);
    } else {
      assert (xss + [xs])[1..] == xss[1..] + [xs];
      FlattenAppend(xss[1..], xs);
    }
  }

  /** Consecutive slices put back together give the file from the first start on. */
  lemma {:induction false} SlicesCover(lines: seq<string>, starts: seq<nat>)
    requires Ascending(starts) && starts != []
    requires forall i :: 0 <= i < |starts| ==> starts[i] < |lines|
    ensures Flatten(Slices(lines, starts)) == lines[starts[0]..]
    decreases |starts|
  {
    var blocks := Slices(lines, starts);
    if |starts| == 1 {
      assert blocks[0] == lines[starts[0]..];
      assert Flatten(blocks) == blocks[0] + Flatten(blocks[1..]);
    } else {
      var rest := starts[1..];
      SlicesCover(lines, rest);
      assert blocks[1..] == Slices(lines, rest);
      assert lines[starts[0]..] == lines[starts[0]..starts[1]] + lines[starts[1]..];
    }
  }

  /** The blocks cover the file from the first marker line on, or the whole file when
      there is no marker. */
  lemma SplitSectionsCover(lines: seq<string>)
    ensures var markers := MarkersFrom(lines, 0);
      Flatten(SplitSections(lines)) == lines[(if markers != [] then markers[0] else 0)..]
  {
    var starts := SectionStarts(lines);
    SectionStartsValid(lines);
    if starts != [] {
      SlicesCover(lines, starts);
    }
  }

  /** Without a marker line a non-empty file is one block and an empty file none. */
  lemma SplitWithoutMarker(lines: seq<string>)
    requires MarkersFrom(lines, 0) == []
    ensures SplitSections(lines) == (if lines == [] then [] else [lines])
  {
    if lines != [] {
      assert SectionStarts(lines) == [0];
      assert SplitSections(lines) == Slices(lines, [0]);
      assert |SplitSections(lines)| == 1;
      assert SplitSections(lines)[0] == lines[0..|lines|] == lines;
    } else {
      assert SectionStarts(lines) == [];
    }
  }

  /** With marker lines, each block begins with a marker line and holds no other. */
  lemma SplitAtMarkers(lines: seq<string>, i: nat)
    requires MarkersFrom(lines, 0) != [] && i < |SplitSections(lines)|
    ensures var b := SplitSections(lines)[i];
      b != [] && IsMarkerLine(b[0]) && forall j :: 0 < j < |b| ==> !IsMarkerLine(b[j])
  {
    var markers := MarkersFrom(lines, 0);
    SectionStartsValid(lines);
    var s := markers[i];
    var e := SliceEnd(markers, i, |lines|);
    assert SplitSections(lines)[i] == lines[s..e];
    MarkersFromSpec(lines, 0);
    assert s in markers;
    forall k | s < k < e
      ensures !IsMarkerLine(lines[k])
    {
      NotAMarker(markers, i, k, |lines|);
    }
  }

  /** A line strictly between two consecutive markers is not a marker. */
  lemma NotAMarker(markers: seq<nat>, i: nat, k: nat, n: nat)
    requires Ascending(markers) && i < |markers|
    requires markers[i] < k < SliceEnd(markers, i, n)
    ensures k !in markers
  {
    forall m | 0 <= m < |markers|
      ensures markers[m] != k
    {
      if m > i {
        assert markers[i + 1] <= markers[m];
      }
    }
  }

  /** What `_parse_section` gives for each block. */
  function Outcomes(blocks: seq<seq<string>>): seq<Result<Field, SectionError>> {
    seq(|blocks|, i requires 0 <= i < |blocks| => DecodeSection(blocks[i]))
  }

  /** The fields of the outcomes that succeed, in order: a block raising `ValueError` is
      skipped. */
  function Kept(outcomes: seq<Result<Field, SectionError>>): seq<Field> {
    if outcomes == [] then []
    else
      var rest := Kept(outcomes[..|outcomes| - 1]);
      match outcomes[|outcomes| - 1]
      case Success(f) => rest + [f]
      case Failure(_) => rest
  }

  /** The fields `_parse` returns for a file. */
  function FileFields(lines: seq<string>): seq<Field> {
    Kept(Outcomes(SplitSections(lines)))
  }

  /** One more outcome adds its field when it succeeds. */
  lemma KeptStep(outcomes: seq<Result<Field, SectionError>>, r: Result<Field, SectionError>)
    ensures Kept(outcomes + [r]) == Kept(outcomes) + if r.Success? then [r.value] else []
  {
    assert (outcomes + [r])[..|outcomes|] == outcomes;
  }

  /** Indices of the outcomes that succeed. */
  function Successes(outcomes: seq<Result<Field, SectionError>>): (ks: seq<nat>)
    ensures forall j :: 0 <= j < |ks| ==> ks[j] < |outcomes|
  {
    if outcomes == [] then []
    else
      var rest := Successes(outcomes[..|outcomes| - 1]);
      if outcomes[|outcomes| - 1].Success? then rest + [|outcomes| - 1] else rest
  }

  /** The indices of the successes are ascending and are exactly the successes. */
  lemma {:induction false} SuccessesSpec(outcomes: seq<Result<Field, SectionError>>)
    ensures Ascending(Successes(outcomes))
    ensures forall k :: 0 <= k < |outcomes| ==> (k in Successes(outcomes) <==> outcomes[k].Success?)
  {
    if outcomes != [] {
      var init := outcomes[..|outcomes| - 1];
      SuccessesSpec(init);
      assert forall k :: 0 <= k < |init| ==> init[k] == outcomes[k];
    }
  }

  /** The fields kept are those of the successes, in block order. */
  lemma {:induction false} KeptInOrder(outcomes: seq<Result<Field, SectionError>>)
    ensures |Kept(outcomes)| == |Successes(outcomes)|
    ensures forall j :: 0 <= j < |Successes(outcomes)| ==>
      outcomes[Successes(outcomes)[j]] == Success(Kept(outcomes)[j])
  {
    if outcomes != [] {
      var init := outcomes[..|outcomes| - 1];
      KeptInOrder(init);
      assert forall k :: 0 <= k < |init| ==> init[k] == outcomes[k];
    }
  }

  /** `_parse` on the lines of one file: the split points, then the blocks. */
  method ParseFile(lines: seq<string>) returns (results: seq<Field>)
    ensures results == FileFields(lines)
  {
    var configIndices := MarkersFrom(lines, 0);
    if configIndices == [] {
      if |lines| > 0 {
        configIndices := [0];
      } else {
        assert SectionStarts(lines) == [];
        return [];
      }
    }
    assert configIndices == SectionStarts(lines);
    SectionStartsValid(lines);
    results := ParseBlocks(lines, configIndices);
  }

  /** The loop of `_parse` over the split points: parse each block, keep those that do not
      raise `ValueError`. */
  method ParseBlocks(lines: seq<string>, configIndices: seq<nat>) returns (results: seq<Field>)
    requires Ascending(configIndices)
    requires forall i :: 0 <= i < |configIndices| ==> configIndices[i] < |lines|
    ensures results == Kept(Outcomes(Slices(lines, configIndices)))
  {
    ghost var outcomes := Outcomes(Slices(lines, configIndices));
    results := [];
    var i := 0;
    while i < |configIndices|
      invariant i <= |configIndices|
      invariant results == Kept(outcomes[..i])
    {
      var start := configIndices[i];
      var end := SliceEnd(configIndices, i, |lines|);
      OutcomeOfSlice(lines, configIndices, i);
      var r := ParseSection(lines[start..end]);
      assert Kept(outcomes[..i + 1]) == Kept(outcomes[..i]) + if r.Success? then [r.value] else [] by {
        TakeOneMore(outcomes, i);
        KeptStep(outcomes[..i], r);
      }
      if r.Success? {
        results := results + [r.value];
      }
      i := i + 1;
    }
    assert outcomes[..i] == outcomes;
  }

  // ---------------------------------------------------------------------------------
  // Merging by frequency

  /** The dictionary `{f.freq: f for f in fields}`: a later field replaces an earlier one
      with the same frequency. */
  function LastWins(fields: seq<Field>): map<real, Field> {
    if fields == [] then map[]
    else LastWins(fields[..|fields| - 1])[fields[|fields| - 1].freq := fields[|fields| - 1]]
  }

  function Frequencies(fields: seq<Field>): set<real> {
    set k | 0 <= k < |fields| :: fields[k].freq
  }

  /** The dictionary's keys are the frequencies present. */
  lemma {:induction false} LastWinsKeys(fields: seq<Field>)
    ensures LastWins(fields).Keys == Frequencies(fields)
  {
    if fields != [] {
      var init := fields[..|fields| - 1];
      LastWinsKeys(init);
      assert forall k :: 0 <= k < |init| ==> init[k] == fields[k];
      assert Frequencies(fields) == Frequencies(init) + {fields[|fields| - 1].freq};
    }
  }

  /** The last field carrying frequency `x`. */
  predicate IsLastWith(fields: seq<Field>, k: int, x: real) {
    0 <= k < |fields| && fields[k].freq == x && forall j :: k < j < |fields| ==> fields[j].freq != x
  }

  /** The dictionary maps each frequency to the last field carrying it. */
  lemma {:induction false} LastWinsLast(fields: seq<Field>, x: real) returns (k: nat)
    requires x in LastWins(fields)
    ensures IsLastWith(fields, k, x) && fields[k] == LastWins(fields)[x]
  {
    var init := fields[..|fields| - 1];
    var last := fields[|fields| - 1];
    if x == last.freq {
      k := |fields| - 1;
    } else {
      k := LastWinsLast(init, x);
      assert fields[k] == init[k];
    }
  }

  /** The dedup and sort of `parse`: the dictionary's fields in ascending key order. */
  function Merge(fields: seq<Field>): seq<Field> {
    var unique := LastWins(fields);
    var keys := SortedKeys(unique.Keys);
    seq(|keys|, i requires 0 <= i < |keys| => unique[keys[i]])
  }

  /** Merged frequencies are strictly ascending. */
  lemma MergeAscending(fields: seq<Field>)
    ensures var m := Merge(fields);
      forall i, j :: 0 <= i < j < |m| ==> m[i].freq < m[j].freq
  {
    var keys := SortedKeys(LastWins(fields).Keys);
    MergeKeys(fields);
  }

  lemma MergeKeys(fields: seq<Field>)
    ensures var keys := SortedKeys(LastWins(fields).Keys);
      |Merge(fields)| == |keys| && forall i :: 0 <= i < |keys| ==> Merge(fields)[i].freq == keys[i]
  {
    var unique := LastWins(fields);
    var keys := SortedKeys(unique.Keys);
    forall i | 0 <= i < |keys|
      ensures Merge(fields)[i].freq == keys[i]
    {
      var k := LastWinsLast(fields, keys[i]);
    }
  }

  /** The merged frequencies are exactly the input frequencies. */
  lemma MergeFrequencies(fields: seq<Field>)
    ensures Frequencies(Merge(fields)) == Frequencies(fields)
  {
    var m := Merge(fields);
    var keys := SortedKeys(LastWins(fields).Keys);
    MergeKeys(fields);
    LastWinsKeys(fields);
    forall x | x in Frequencies(fields)
      ensures x in Frequencies(m)
    {
      assert x in keys;
      var i :| 0 <= i < |keys| && keys[i] == x;
      assert m[i].freq == x;
    }
  }

  /** Each merged field is the last input field with its frequency. */
  lemma MergeLastWins(fields: seq<Field>, i: nat) returns (k: nat)
    requires i < |Merge(fields)|
    ensures IsLastWith(fields, k, Merge(fields)[i].freq) && fields[k] == Merge(fields)[i]
  {
    var keys := SortedKeys(LastWins(fields).Keys);
    MergeKeys(fields);
    k := LastWinsLast(fields, keys[i]);
  }

  /** `parse`: the fields of every file in argument order, then the merge. */
  method ParseFiles(files: seq<seq<string>>) returns (merged: seq<Field>)
    ensures merged == Merge(AllFields(files))
  {
    var allFields := CollectFields(files);
    merged := Merge(allFields);
  }

  /** The loop of `parse` that extends the list of fields file by file. */
  method CollectFields(files: seq<seq<string>>) returns (allFields: seq<Field>)
    ensures allFields == AllFields(files)
  {
    ghost var perFile := PerFile(files);
    allFields := [];
    var i := 0;
    while i < |files|
      invariant i <= |files|
      invariant allFields == Flatten(perFile[..i])
    {
      var fields := ParseFile(files[i]);
      assert fields == perFile[i];
      TakeOneMore(perFile, i);
      FlattenAppend(perFile[..i], perFile[i]);
      allFields := allFields + fields;
      i := i + 1;
    }
    assert perFile[..i] == perFile;
  }

  /** The fields of all files, file after file. */
  function AllFields(files: seq<seq<string>>): seq<Field> {
    Flatten(PerFile(files))
  }

  /** The fields of each file. */
  function PerFile(files: seq<seq<string>>): seq<seq<Field>> {
    seq(|files|, k requires 0 <= k < |files| => FileFields(files[k]))
  }
}
