/** The grid assembler `FFEToXarray` of `src/ffe/utils/ffe2xr.py`. It stacks the sections
    of a scanned file into one array of shape (frequency, spatial point, column). It finds
    the Theta and Phi columns and their distinct values, folds the spatial axis into a
    (Theta, Phi) grid, and names one data variable per remaining column. The xarray
    `Dataset` is modelled by its coordinates, its variables and the four-dimensional value
    array they share. */
module GridAssembler {
  import opened Wrappers
  import opened Text
  import opened Ordering
  import opened FortranOrder
  import opened NativeScanner

  /** The exceptions of the conversion. */
  datatype ConvertError =
    | NoSections          // ValueError of the constructor
    | ShapeMismatch       // ValueError of np.stack: sections with different row counts
    | MissingCoordinate   // ValueError of list.index: no Theta or no Phi column
    | IndexOutOfBounds    // IndexError of data_sample[:, t_idx]: a one-dimensional or too narrow sample
    | IrregularGrid       // NotImplementedError: the points are not a full Theta x Phi grid
    | ReshapeMismatch     // ValueError of reshape: rows wider or narrower than the header names
    | NameClash           // ValueError of xr.Dataset: a data variable named like a coordinate

  /** What `_get_spatial_coords` returns for a regular grid: the column indices of Theta
      and Phi and the distinct values of each, ascending. */
  datatype Grid = Grid(thetaIndex: nat, phiIndex: nat, thetas: seq<real>, phis: seq<real>)

  /** One entry of `data_vars`: the variable's name and the column its values come from. */
  datatype DataVar = DataVar(name: string, column: nat)

  /** The `Dataset`: its three coordinates, its variables, and the values they index into
      (variable `v` is `values[f][t][p][v.column]`). */
  datatype Dataset = Dataset(frequency: seq<real>, theta: seq<real>, phi: seq<real>,
                             dataVars: seq<DataVar>, values: Array4)

  // ---------------------------------------------------------------------------------
  // Construction

  /** Each header name with its surrounding `"` removed. */
  function StrippedHeaders(headers: seq<string>): seq<string> {
    seq(|headers|, i requires 0 <= i < |headers| => StripChar(headers[i], '"'))
  }

  /** Each stripped name is the original with its leading and trailing runs of `"`
      removed, so it neither starts nor ends with `"`; a name without `"` is kept. */
  lemma StrippedHeadersUnquoted(headers: seq<string>)
    ensures |StrippedHeaders(headers)| == |headers|
    ensures forall i :: 0 <= i < |headers| ==> Trimmed(StrippedHeaders(headers)[i], headers[i], '"')
    ensures forall i :: 0 <= i < |headers| && '"' !in headers[i] ==> StrippedHeaders(headers)[i] == headers[i]
  {
    forall i | 0 <= i < |headers|
      ensures Trimmed(StrippedHeaders(headers)[i], headers[i], '"')
    {
      StripCharTrims(headers[i], '"');
    }
  }

  /** The names the native tokenizer produces never hold a `"`, so the converter keeps
      them as they are. */
  lemma ScannedHeadersKept(content: string)
    ensures StrippedHeaders(Headers(content)) == Headers(content)
  {
    var hs := Headers(content);
    var h := Search(content, HeaderKey, 0, |content|);
    if h < |content| {
      TokensFromGood(content[LineStart(content, h)..LineEnd(content, h)], []);
    }
    forall i | 0 <= i < |hs|
      ensures StrippedHeaders(hs)[i] == hs[i]
    {
      assert GoodToken(hs[i]);
      assert '"' !in hs[i];
    }
  }

  /** The shape of a numpy array of at most two dimensions. */
  datatype ArrayShape = Vector(length: nat) | Matrix(rows: nat, cols: nat)

  /** The shape of the `data` property the binding gives a section: an empty
      one-dimensional array when there are no numbers or no rows, otherwise `row_count`
      rows of as many columns as the numbers fill, `size / row_count`. */
  function ViewShape(sec: Section): (shape: ArrayShape)
    ensures shape.Matrix? ==> shape.rows > 0 && shape.rows * shape.cols <= |sec.data|
  {
    if |sec.data| == 0 || sec.rowCount == 0 then Vector(0)
    else
      RowCountBounds(|sec.data|, sec.rowCount);
      assert |sec.data| / sec.rowCount * sec.rowCount == sec.rowCount * (|sec.data| / sec.rowCount);
      Matrix(sec.rowCount, |sec.data| / sec.rowCount)
  }

  /** `data.shape[0]`. */
  function Rows(shape: ArrayShape): nat {
    match shape
    case Vector(n) => n
    case Matrix(r, _) => r
  }

  /** For a section the native scanner cut, the view has a row per `rowCount` and at
      least one column per header name; it has exactly one column per name when the
      numbers left over after the whole rows are fewer than the rows. Without header
      names, or with fewer numbers than names, the view is empty. */
  lemma ScannedSectionView(content: string, a: nat, b: nat, columns: nat)
    requires a <= b <= |content|
    ensures var sec := SectionOver(content, a, b, columns);
      && (sec.rowCount == 0 <==> ViewShape(sec) == Vector(0))
      && (ViewShape(sec).Matrix? ==>
            && ViewShape(sec).cols >= columns
            && (ViewShape(sec).cols == columns <==> |sec.data| - sec.rowCount * columns < sec.rowCount))
  {
    var sec := SectionOver(content, a, b, columns);
    SectionRowCount(content, a, b, columns);
    if sec.rowCount > 0 {
      MulMonotone(columns, 1, sec.rowCount);
    }
    if ViewShape(sec).Matrix? {
      var n, r := |sec.data|, sec.rowCount;
      var e := n - r * columns;
      assert 0 <= e < columns by {
        assert r * columns <= n < (r + 1) * columns;
      }
      ViewColumns(n, r, columns, e);
    }
  }

  /** `n` numbers in `r` rows of at least `h` make `n / r` columns, at least `h`, and
      exactly `h` when the `e` numbers beyond `r * h` are fewer than `r`. */
  lemma ViewColumns(n: nat, r: nat, h: nat, e: nat)
    requires r > 0 && n == r * h + e
    ensures n / r >= h
    ensures n / r == h <==> e < r
  {
    var q, m := n / r, n % r;
    assert (h - q) * r == m - e;
    MultipleAwayFromZero(h - q, r);
  }

  class FFEToXarray {
    const ffe: FFEFile
    const headers: seq<string>
    const nFreq: nat
    const nSpatial: nat
    const nCols: nat

    /** The fields `__init__` sets: stripped names, the section count, the first
        section's row count and the name count. */
    predicate Initialised() {
      && ffe.sections != []
      && headers == StrippedHeaders(ffe.headers)
      && nFreq == |ffe.sections|
      && nSpatial == Rows(ViewShape(ffe.sections[0]))
      && nCols == |headers|
    }

    /** `__init__` on a file that has sections. */
    constructor (file: FFEFile)
      requires file.sections != []
      ensures ffe == file && Initialised()
    {
      ffe := file;
      headers := StrippedHeaders(file.headers);
      nFreq := |file.sections|;
      nSpatial := Rows(ViewShape(file.sections[0]));
      nCols := |file.headers|;
    }

    /** `__init__` with its `ValueError`: a file without sections is refused. */
    static method Create(file: FFEFile) returns (r: Result<FFEToXarray, ConvertError>)
      ensures file.sections == [] <==> r.Failure?
      ensures r.Failure? ==> r.error == NoSections
      ensures r.Success? ==> r.value.ffe == file && r.value.Initialised()
    {
      if file.sections == [] {
        return Failure(NoSections);
      }
      var converter := new FFEToXarray(file);
      r := Success(converter);
    }

    /** `_get_spatial_coords` on the first frequency's array: `sample` holds its rows when
        it is two-dimensional, `width` columns each. */
    function SpatialCoords(sample: seq<seq<real>>, isMatrix: bool, width: nat): (r: Result<Option<Grid>, ConvertError>)
      requires forall s :: 0 <= s < |sample| ==> |sample[s]| == width
      ensures CoordinateIndices(headers).Failure? ==> r == Failure(MissingCoordinate)
      ensures CoordinateIndices(headers).Success? ==> var (t, p) := CoordinateIndices(headers).value;
        && (r == Failure(IndexOutOfBounds) <==> !isMatrix || t >= width || p >= width)
        && (r == Success(None) <==>
              isMatrix && t < width && p < width && |Unique(Column(sample, t))| * |Unique(Column(sample, p))| != nSpatial)
      ensures r.Success? && r.value.Some? ==> var g := r.value.value;
        && RegularGrid(g, sample, nSpatial)
        && CoordinateIndices(headers).Success?
        && (g.thetaIndex, g.phiIndex) == CoordinateIndices(headers).value
        && g.thetas == Unique(Column(sample, g.thetaIndex)) && g.phis == Unique(Column(sample, g.phiIndex))
        && (|sample| > 0 ==> |g.thetas| > 0 && |g.phis| > 0)
    {
      match CoordinateIndices(headers)
      case Failure(e) => Failure(e)
      case Success((t, p)) =>
        if !isMatrix || t >= width || p >= width then Failure(IndexOutOfBounds)
        else
          var thetas := Unique(Column(sample, t));
          var phis := Unique(Column(sample, p));
          if |thetas| * |phis| != nSpatial then Success(None)
          else
            assert |sample| > 0 ==> Column(sample, t)[0] in Column(sample, t) && Column(sample, p)[0] in Column(sample, p);
            Success(Some(Grid(t, p, thetas, phis)))
    }

    /** `convert`, with the retry of lines 86-91 reading the points Phi-fastest (see
        `Regrid`). */
    function Converted(): Result<Dataset, ConvertError>
      requires Initialised()
    {
      ConvertedBy(false)
    }

    /** `convert` as written: the retry repeats the reshape of line 80 (see
        `RegridAsWritten`). */
    function ConvertedAsWritten(): Result<Dataset, ConvertError>
      requires Initialised()
    {
      ConvertedBy(true)
    }

    /** The steps of `convert` that do not depend on the retry: the grid and the stacked
        sections, or the error raised. `xr.Dataset` (line 109) refuses a variable named
        like a coordinate whatever the values, so that error is settled here too. */
    function Prepared(): (r: Result<(Grid, Array3), ConvertError>)
      requires Initialised()
      ensures r.Success? ==> var (g, all) := r.value;
        && nFreq > 0 && |g.phis| > 0 && g.thetaIndex < nCols
        && HasShape3(all, nFreq, |g.thetas| * |g.phis|, nCols)
    {
      if !SameShape(ffe.sections) then Failure(ShapeMismatch)
      else
        var shape := ViewShape(ffe.sections[0]);
        var all := if shape.Matrix? then Stack(ffe.sections) else [];
        var sample := if shape.Matrix? then all[0] else [];
        match SpatialCoords(sample, shape.Matrix?, if shape.Matrix? then shape.cols else 0)
        case Failure(e) => Failure(e)
        case Success(None) => Failure(IrregularGrid)
        case Success(Some(g)) =>
          if shape.cols != nCols then Failure(ReshapeMismatch)
          else if SharesCoordinateName(DataVars(headers, g.thetaIndex, g.phiIndex)) then Failure(NameClash)
          else Success((g, all))
    }

    /** A successful preparation passed every check of lines 57-80, found its grid in the
        first section's rows, and found no variable named like a coordinate. */
    lemma PreparedSuccess() returns (g: Grid)
      requires Initialised()
      requires Prepared().Success?
      ensures SameShape(ffe.sections) && ViewShape(ffe.sections[0]).Matrix?
      ensures ViewShape(ffe.sections[0]).cols == nCols
      ensures Prepared().value == (g, Stack(ffe.sections))
      ensures SpatialCoords(SectionRows(ffe.sections[0]), true, nCols) == Success(Some(g))
      ensures !SharesCoordinateName(DataVars(headers, g.thetaIndex, g.phiIndex))
    {
      g := Prepared().value.0;
      assert Stack(ffe.sections)[0] == SectionRows(ffe.sections[0]);
    }

    /** The steps of `convert`, regridding as written or with the corrected retry. */
    function ConvertedBy(asWritten: bool): Result<Dataset, ConvertError>
      requires Initialised()
    {
      match Prepared()
      case Failure(e) => Failure(e)
      case Success((g, all)) =>
        Success(Dataset(SectionFrequencies(ffe.sections), g.thetas, g.phis,
                        DataVars(headers, g.thetaIndex, g.phiIndex),
                        if asWritten then RegridAsWritten(all, nFreq, nCols, g) else Regrid(all, nFreq, nCols, g)))
    }

    /** `convert` as written fails exactly as the corrected one does, and otherwise
        yields the same dataset except for its values, which are the Fortran-order
        reshape of line 80 whatever the check of lines 86-87 finds. */
    lemma ConvertedAsWrittenValues()
      requires Initialised()
      ensures Converted().Failure? ==> ConvertedAsWritten() == Converted()
      ensures Converted().Success? ==> ConvertedAsWritten().Success?
      ensures Converted().Success? ==>
        var d := ConvertedAsWritten().value;
        && d == Converted().value.(values := d.values)
        && d.values == ReshapeF(Stack(ffe.sections), nFreq, |d.theta|, |d.phi|, nCols)
    {
      if Prepared().Success? {
        var (g, all) := Prepared().value;
        ConvertedGrid();
        RetryIsNoOp(all, nFreq, nCols, g);
      }
    }

    /** When `convert` raises: `np.stack` on sections of different shapes, a missing Theta
        or Phi column, a first section without rows or too narrow for those columns,
        points that do not fill the grid, and rows that are not one number per name. */
    lemma ConvertedErrors()
      requires Initialised()
      ensures Converted() == Failure(ShapeMismatch) <==> !SameShape(ffe.sections)
      ensures Converted() == Failure(MissingCoordinate) <==>
        SameShape(ffe.sections) && CoordinateIndices(headers).Failure?
      ensures Converted() == Failure(IndexOutOfBounds) ==>
        && SameShape(ffe.sections) && CoordinateIndices(headers).Success?
        && (|| ViewShape(ffe.sections[0]).Vector?
            || ViewShape(ffe.sections[0]).cols <= CoordinateIndices(headers).value.0
            || ViewShape(ffe.sections[0]).cols <= CoordinateIndices(headers).value.1)
      ensures Converted() == Failure(ReshapeMismatch) ==> ViewShape(ffe.sections[0]).cols != nCols
      ensures Converted() == Failure(NameClash) ==>
        CoordinateIndices(headers).Success? &&
        ClashingName(headers, CoordinateIndices(headers).value.0, CoordinateIndices(headers).value.1)
      ensures (CoordinateIndices(headers).Success? &&
               ClashingName(headers, CoordinateIndices(headers).value.0, CoordinateIndices(headers).value.1)) ==>
        Converted().Failure?
      ensures Converted().Failure? ==> Converted().error != NoSections
    {
      if CoordinateIndices(headers).Success? {
        var (t, p) := CoordinateIndices(headers).value;
        ClashIsSharedName(headers, t, p);
      }
    }

    /** What a successful `convert` yields: the frequencies in section order, unsorted and
        not deduplicated; strictly ascending Theta and Phi axes spanning one grid point per
        row; values of shape (frequency, Theta, Phi, column). */
    lemma ConvertedDataset()
      requires Initialised()
      requires Converted().Success?
      ensures var d := Converted().value;
        && d.frequency == SectionFrequencies(ffe.sections) && |d.frequency| == nFreq
        && StrictlyAscending(d.theta) && StrictlyAscending(d.phi)
        && |d.theta| * |d.phi| == nSpatial
        && HasShape4(d.values, nFreq, |d.theta|, |d.phi|, nCols)
    {
      var g := PreparedSuccess();
      assert Converted().value == Dataset(SectionFrequencies(ffe.sections), g.thetas, g.phis,
        DataVars(headers, g.thetaIndex, g.phiIndex), Regrid(Stack(ffe.sections), nFreq, nCols, g));
    }

    /** Where a successful `convert` takes its grid from: the Theta and Phi columns of the
        first section's rows, each axis holding exactly that column's distinct values; the
        variables are every other column under its name, the last column of a repeated
        name winning; the values are the stacked sections regridded. */
    lemma ConvertedGrid()
      requires Initialised()
      requires Converted().Success?
      ensures ViewShape(ffe.sections[0]).Matrix? && CoordinateIndices(headers).Success?
      ensures var (t, p) := CoordinateIndices(headers).value;
        t < ViewShape(ffe.sections[0]).cols && p < ViewShape(ffe.sections[0]).cols
      ensures var (t, p) := CoordinateIndices(headers).value;
        var d := Converted().value;
        var first := SectionRows(ffe.sections[0]);
        && (forall x :: x in d.theta <==> x in Column(first, t))
        && (forall x :: x in d.phi <==> x in Column(first, p))
        && DataVarsInvariant(d.dataVars, headers, t, p)
      ensures var (t, p) := CoordinateIndices(headers).value;
        var d := Converted().value;
        && SameShape(ffe.sections) && |d.theta| * |d.phi| == ViewShape(ffe.sections[0]).rows
        && ViewShape(ffe.sections[0]).cols == nCols && t < nCols && |d.phi| > 0
        && d.values == Regrid(Stack(ffe.sections), nFreq, nCols, Grid(t, p, d.theta, d.phi))
    {
      var g := PreparedSuccess();
      assert Converted().value == Dataset(SectionFrequencies(ffe.sections), g.thetas, g.phis,
        DataVars(headers, g.thetaIndex, g.phiIndex), Regrid(Stack(ffe.sections), nFreq, nCols, g));
      DataVarsSpec(headers, g.thetaIndex, g.phiIndex);
    }

    /** `convert`: stack, locate the grid, reshape, and name the variables. */
    method Convert() returns (r: Result<Dataset, ConvertError>)
      requires Initialised()
      ensures r == Converted()
    {
      var freqs := SectionFrequencies(ffe.sections);
      if !SameShape(ffe.sections) {
        return Failure(ShapeMismatch);
      }
      var shape := ViewShape(ffe.sections[0]);
      var all := if shape.Matrix? then Stack(ffe.sections) else [];
      var sample := if shape.Matrix? then all[0] else [];
      var coords := SpatialCoords(sample, shape.Matrix?, if shape.Matrix? then shape.cols else 0);
      if coords.Failure? {
        return Failure(coords.error);
      }
      if coords.value.None? {
        return Failure(IrregularGrid);
      }
      var g := coords.value.value;
      if shape.cols != nCols {
        return Failure(ReshapeMismatch);
      }
      var reshaped := Regrid(all, nFreq, nCols, g);
      var dataVars := CollectDataVars(g.thetaIndex, g.phiIndex);
      if SharesCoordinateName(dataVars) {
        return Failure(NameClash);
      }
      r := Success(Dataset(freqs, g.thetas, g.phis, dataVars, reshaped));
    }

    /** The loop of lines 97-106: every column but the two coordinates is stored in
        `data_vars` under its name. */
    method CollectDataVars(thetaIndex: nat, phiIndex: nat) returns (dataVars: seq<DataVar>)
      ensures dataVars == DataVars(headers, thetaIndex, phiIndex)
    {
      dataVars := [];
      var i := 0;
      while i < |headers|
        invariant i <= |headers|
        invariant dataVars == DataVars(headers[..i], thetaIndex, phiIndex)
      {
        assert headers[..i + 1][..i] == headers[..i];
        if i != thetaIndex && i != phiIndex {
          dataVars := Assign(dataVars, headers[i], i);
        }
        i := i + 1;
      }
      assert headers[..i] == headers;
    }
  }

  // ---------------------------------------------------------------------------------
  // Locating the coordinate columns

  /** `k` is the first position of `x` in `xs`. */
  predicate FirstIndex<T(==)>(xs: seq<T>, x: T, k: nat) {
    k < |xs| && xs[k] == x && forall j :: 0 <= j < k ==> xs[j] != x
  }

  /** `list.index`: the first position of `x`, or `None` for its `ValueError`. */
  function IndexOf<T(==)>(xs: seq<T>, x: T): (r: Option<nat>)
    ensures r.Some? ==> FirstIndex(xs, x, r.value)
    ensures r.None? <==> x !in xs
  {
    if xs == [] then None
    else if xs[0] == x then Some(0)
    else match IndexOf(xs[1..], x)
      case None => None
      case Some(k) => Some(k + 1)
  }

  /** `[h.lower() for h in headers]`. */
  function Lowered(headers: seq<string>): seq<string> {
    seq(|headers|, i requires 0 <= i < |headers| => AsciiLower(headers[i]))
  }

  /** Lines 28-35: the exact names when both exist; otherwise both indices are looked up
      again among the lower-cased names, and a name still missing raises `ValueError`. */
  function CoordinateIndices(headers: seq<string>): (r: Result<(nat, nat), ConvertError>)
    ensures r.Failure? ==> r.error == MissingCoordinate
    ensures r.Success? ==> r.value.0 < |headers| && r.value.1 < |headers|
    ensures "Theta" in headers && "Phi" in headers ==>
      r.Success? && FirstIndex(headers, "Theta", r.value.0) && FirstIndex(headers, "Phi", r.value.1)
    ensures !("Theta" in headers && "Phi" in headers) ==>
      && (r.Success? <==> "theta" in Lowered(headers) && "phi" in Lowered(headers))
      && (r.Success? ==>
            FirstIndex(Lowered(headers), "theta", r.value.0) && FirstIndex(Lowered(headers), "phi", r.value.1))
  {
    match (IndexOf(headers, "Theta"), IndexOf(headers, "Phi"))
    case (Some(t), Some(p)) => Success((t, p))
    case _ =>
      var lower := Lowered(headers);
      match (IndexOf(lower, "theta"), IndexOf(lower, "phi"))
      case (Some(t), Some(p)) => Success((t, p))
      case _ => Failure(MissingCoordinate)
  }

  /** `data_sample[:, c]`. */
  function Column(sample: seq<seq<real>>, c: nat): (col: seq<real>)
    requires forall s :: 0 <= s < |sample| ==> c < |sample[s]|
    ensures |col| == |sample|
  {
    seq(|sample|, s requires 0 <= s < |sample| => sample[s][c])
  }

  /** `np.unique`: the distinct values, ascending. */
  function Unique(xs: seq<real>): (r: seq<real>)
    ensures StrictlyAscending(r)
    ensures forall x :: x in r <==> x in xs
  {
    var r := SortedKeys(set x | x in xs);
    assert forall x :: x in r <==> x in xs by {
      forall x | x in r
        ensures x in xs
      {
        var i :| 0 <= i < |r| && r[i] == x;
      }
    }
    r
  }

  /** What `_get_spatial_coords` promises when it returns a grid: the indices name
      columns, each axis holds exactly the distinct values of its column, ascending, and
      the axes span as many grid points as there are rows. */
  ghost predicate RegularGrid(g: Grid, sample: seq<seq<real>>, nSpatial: nat) {
    && (forall s :: 0 <= s < |sample| ==> g.thetaIndex < |sample[s]| && g.phiIndex < |sample[s]|)
    && StrictlyAscending(g.thetas) && StrictlyAscending(g.phis)
    && (forall x :: x in g.thetas <==> x in Column(sample, g.thetaIndex))
    && (forall x :: x in g.phis <==> x in Column(sample, g.phiIndex))
    && |g.thetas| * |g.phis| == nSpatial
  }

  // ---------------------------------------------------------------------------------
  // Stacking

  /** The rows of a section's two-dimensional view. */
  function SectionRows(sec: Section): (rows: seq<seq<real>>)
    requires ViewShape(sec).Matrix?
    ensures |rows| == ViewShape(sec).rows
    ensures forall s :: 0 <= s < |rows| ==> |rows[s]| == ViewShape(sec).cols
  {
    var shape := ViewShape(sec);
    seq(shape.rows, s requires 0 <= s < shape.rows =>
      seq(shape.cols, c requires 0 <= c < shape.cols =>
        BlockBound(c, s, shape.cols, shape.rows);
        sec.data[c + shape.cols * s]))
  }

  /** Row `s` of the view holds the numbers `s * cols` to `s * cols + cols - 1`, in
      order: the strides read the numbers row by row. */
  lemma SectionRowsReadInOrder(sec: Section, s: nat)
    requires ViewShape(sec).Matrix? && s < ViewShape(sec).rows
    ensures var nC := ViewShape(sec).cols; nC * s + nC <= |sec.data|
    ensures var nC := ViewShape(sec).cols; SectionRows(sec)[s] == sec.data[nC * s..nC * s + nC]
  {
    var shape := ViewShape(sec);
    assert shape.cols * s + shape.cols == shape.cols * (s + 1);
    MulMonotone(shape.cols, s + 1, shape.rows);
  }

  /** `np.stack` succeeds: every section's array has the shape of the first. */
  predicate SameShape(secs: seq<Section>) {
    secs != [] && forall f :: 0 <= f < |secs| ==> ViewShape(secs[f]) == ViewShape(secs[0])
  }

  /** `np.stack([s.data for s in sections], axis=0)` of two-dimensional arrays. */
  function Stack(secs: seq<Section>): (a: Array3)
    requires SameShape(secs) && ViewShape(secs[0]).Matrix?
    ensures HasShape3(a, |secs|, ViewShape(secs[0]).rows, ViewShape(secs[0]).cols)
  {
    seq(|secs|, f requires 0 <= f < |secs| => SectionRows(secs[f]))
  }

  /** `np.array([s.frequency for s in sections])`. */
  function SectionFrequencies(secs: seq<Section>): (freqs: seq<real>)
    ensures |freqs| == |secs|
    ensures forall f :: 0 <= f < |secs| ==> freqs[f] == secs[f].frequency
  {
    seq(|secs|, f requires 0 <= f < |secs| => secs[f].frequency)
  }

  // ---------------------------------------------------------------------------------
  // Reshaping

  function Abs(x: real): real {
    if x < 0.0 then -x else x
  }

  const RelativeTolerance: real := 0.00001
  const AbsoluteTolerance: real := 0.00000001

  /** `np.allclose(a, b)` with its default tolerances, for arrays of one shape. */
  predicate AllClose(a: seq<real>, b: seq<real>) {
    |a| == |b| && forall i :: 0 <= i < |a| ==> Abs(a[i] - b[i]) <= AbsoluteTolerance + RelativeTolerance * Abs(b[i])
  }

  /** Lines 86-87: the Theta column read along the first Phi of the first frequency
      matches the Theta axis. */
  predicate ThetaAxisMatches(r: Array4, nF: nat, nC: nat, g: Grid)
    requires nF > 0 && |g.phis| > 0 && g.thetaIndex < nC
    requires HasShape4(r, nF, |g.thetas|, |g.phis|, nC)
  {
    AllClose(seq(|g.thetas|, t requires 0 <= t < |g.thetas| => r[0][t][0][g.thetaIndex]), g.thetas)
  }

  /** Lines 80-91 as written: the retry repeats the reshape of line 80. */
  function RegridAsWritten(a: Array3, nF: nat, nC: nat, g: Grid): (r: Array4)
    requires nF > 0 && |g.phis| > 0 && g.thetaIndex < nC
    requires HasShape3(a, nF, |g.thetas| * |g.phis|, nC)
    ensures HasShape4(r, nF, |g.thetas|, |g.phis|, nC)
  {
    var first := ReshapeF(a, nF, |g.thetas|, |g.phis|, nC);
    if ThetaAxisMatches(first, nF, nC, g) then first
    else ReshapeF(a, nF, |g.thetas|, |g.phis|, nC)
  }

  /** Lines 80-91 as the comments there intend: when the Theta column does not match
      the Theta axis, the points are read with Phi varying fastest, by reshaping to
      (Freq, Phi, Theta, Cols) and swapping the two spatial axes. */
  function Regrid(a: Array3, nF: nat, nC: nat, g: Grid): (r: Array4)
    requires nF > 0 && |g.phis| > 0 && g.thetaIndex < nC
    requires HasShape3(a, nF, |g.thetas| * |g.phis|, nC)
    ensures HasShape4(r, nF, |g.thetas|, |g.phis|, nC)
  {
    var nT, nP := |g.thetas|, |g.phis|;
    var first := ReshapeF(a, nF, nT, nP, nC);
    if ThetaAxisMatches(first, nF, nC, g) then first
    else
      assert nP * nT == nT * nP;
      SwapAxes12(ReshapeF(a, nF, nP, nT, nC), nF, nP, nT, nC)
  }

  /** Position of grid point (t, p) when the Theta loop is the inner one. */
  function ThetaInner(t: nat, p: nat, nT: nat): nat {
    t + nT * p
  }

  /** Position of grid point (t, p) when the Phi loop is the inner one. */
  function PhiInner(t: nat, p: nat, nP: nat): nat {
    t * nP + p
  }

  /** The sample rows, with Theta in column `thetaIndex` and Phi in `phiIndex`, visit the
      grid of `g` with Theta varying fastest. */
  predicate ThetaFastest(sample: seq<seq<real>>, g: Grid) {
    var nT, nP := |g.thetas|, |g.phis|;
    && |sample| == nT * nP
    && forall t, p :: 0 <= t < nT && 0 <= p < nP ==>
      && ThetaInner(t, p, nT) < |sample|
      && g.thetaIndex < |sample[ThetaInner(t, p, nT)]| && g.phiIndex < |sample[ThetaInner(t, p, nT)]|
      && sample[ThetaInner(t, p, nT)][g.thetaIndex] == g.thetas[t]
      && sample[ThetaInner(t, p, nT)][g.phiIndex] == g.phis[p]
  }

  /** The same with Phi varying fastest. */
  predicate PhiFastest(sample: seq<seq<real>>, g: Grid) {
    var nT, nP := |g.thetas|, |g.phis|;
    && |sample| == nT * nP
    && forall t, p :: 0 <= t < nT && 0 <= p < nP ==>
      && PhiInner(t, p, nP) < |sample|
      && g.thetaIndex < |sample[PhiInner(t, p, nP)]| && g.phiIndex < |sample[PhiInner(t, p, nP)]|
      && sample[PhiInner(t, p, nP)][g.thetaIndex] == g.thetas[t]
      && sample[PhiInner(t, p, nP)][g.phiIndex] == g.phis[p]
  }

  /** The first two Theta values lie farther apart than `allclose` tolerates. */
  predicate ThetasSeparated(thetas: seq<real>) {
    |thetas| >= 2 ==> Abs(thetas[0] - thetas[1]) > AbsoluteTolerance + RelativeTolerance * Abs(thetas[1])
  }

  /** As written, the retry changes nothing: the result is the `order='F'` reshape
      whatever the check finds. */
  lemma RetryIsNoOp(a: Array3, nF: nat, nC: nat, g: Grid)
    requires nF > 0 && |g.phis| > 0 && g.thetaIndex < nC
    requires HasShape3(a, nF, |g.thetas| * |g.phis|, nC)
    ensures RegridAsWritten(a, nF, nC, g) == ReshapeF(a, nF, |g.thetas|, |g.phis|, nC)
  {
  }

  /** As written, a file scanned with Phi innermost over at least two Thetas and two
      Phis is mislabelled: the cell labelled (thetas[1], phis[0]) holds the point
      (thetas[0], phis[1]). */
  lemma AsWrittenMislabelsPhiFastest(a: Array3, nF: nat, nC: nat, g: Grid)
    requires nF > 0 && g.thetaIndex < nC && g.phiIndex < nC
    requires |g.thetas| >= 2 && |g.phis| >= 2 && StrictlyAscending(g.thetas) && StrictlyAscending(g.phis)
    requires HasShape3(a, nF, |g.thetas| * |g.phis|, nC)
    requires PhiFastest(a[0], g)
    ensures RegridAsWritten(a, nF, nC, g)[0][1][0][g.thetaIndex] == g.thetas[0] != g.thetas[1]
    ensures RegridAsWritten(a, nF, nC, g)[0][1][0][g.phiIndex] == g.phis[1] != g.phis[0]
  {
    var nT, nP := |g.thetas|, |g.phis|;
    ReshapeFThetaFastest(a, nF, nT, nP, nC, 0, 1, 0, g.thetaIndex);
    ReshapeFThetaFastest(a, nF, nT, nP, nC, 0, 1, 0, g.phiIndex);
    assert PhiInner(0, 1, nP) == 1;
  }

  /** The smallest such file: one frequency, columns Theta, Phi and one value, and the
      points (0, 0), (0, 90), (90, 0), (90, 90) in that order. It is a Phi-fastest scan of
      two Thetas and two Phis, so `AsWrittenMislabelsPhiFastest` applies to it: the cell
      labelled Theta = 90, Phi = 0 holds the point Theta = 0, Phi = 90. */
  lemma TwoByTwoIsPhiFastest(a: Array3, g: Grid)
    requires a == [[[0.0, 0.0, 1.0], [0.0, 90.0, 2.0], [90.0, 0.0, 3.0], [90.0, 90.0, 4.0]]]
    requires g == Grid(0, 1, [0.0, 90.0], [0.0, 90.0])
    ensures HasShape3(a, 1, |g.thetas| * |g.phis|, 3)
    ensures PhiFastest(a[0], g) && StrictlyAscending(g.thetas) && StrictlyAscending(g.phis)
    ensures !ThetaFastest(a[0], g)
  {
    var sample := a[0];
    assert |sample| == 4 && forall s :: 0 <= s < 4 ==> |sample[s]| == 3;
    forall t, p | 0 <= t < 2 && 0 <= p < 2
      ensures sample[PhiInner(t, p, 2)][0] == g.thetas[t] && sample[PhiInner(t, p, 2)][1] == g.phis[p]
    {
      if t == 0 && p == 0 {
        assert sample[0] == [0.0, 0.0, 1.0];
      } else if t == 0 {
        assert sample[1] == [0.0, 90.0, 2.0];
      } else if p == 0 {
        assert sample[2] == [90.0, 0.0, 3.0];
      } else {
        assert sample[3] == [90.0, 90.0, 4.0];
      }
    }
    assert ThetaInner(1, 0, 2) == 1 && sample[1][0] != g.thetas[1];
  }

  /** The values the check of line 87 compares: the Theta column of the points
      t + nT * 0 of the first frequency. */
  lemma CheckedColumn(a: Array3, nF: nat, nC: nat, g: Grid, t: nat)
    requires nF > 0 && |g.phis| > 0 && g.thetaIndex < nC
    requires HasShape3(a, nF, |g.thetas| * |g.phis|, nC)
    requires t < |g.thetas|
    ensures ThetaInner(t, 0, |g.thetas|) == t < |a[0]|
    ensures ReshapeF(a, nF, |g.thetas|, |g.phis|, nC)[0][t][0][g.thetaIndex] == a[0][t][g.thetaIndex]
  {
    ReshapeFThetaFastest(a, nF, |g.thetas|, |g.phis|, nC, 0, t, 0, g.thetaIndex);
  }

  /** A Theta-fastest scan passes the check of line 87 and keeps the `order='F'` reshape. */
  lemma CheckPassesThetaFastest(a: Array3, nF: nat, nC: nat, g: Grid)
    requires nF > 0 && |g.phis| > 0 && g.thetaIndex < nC
    requires HasShape3(a, nF, |g.thetas| * |g.phis|, nC)
    requires ThetaFastest(a[0], g)
    ensures ThetaAxisMatches(ReshapeF(a, nF, |g.thetas|, |g.phis|, nC), nF, nC, g)
  {
    var nT := |g.thetas|;
    var first := ReshapeF(a, nF, nT, |g.phis|, nC);
    var test := seq(nT, t requires 0 <= t < nT => first[0][t][0][g.thetaIndex]);
    forall t | 0 <= t < nT
      ensures test[t] == g.thetas[t]
    {
      CheckedColumn(a, nF, nC, g, t);
      assert a[0][ThetaInner(t, 0, nT)][g.thetaIndex] == g.thetas[t];
    }
  }

  /** A Phi-fastest scan over at least two Thetas and two Phis fails the check of line 87. */
  lemma CheckFailsPhiFastest(a: Array3, nF: nat, nC: nat, g: Grid)
    requires nF > 0 && |g.phis| >= 2 && |g.thetas| >= 2 && g.thetaIndex < nC
    requires HasShape3(a, nF, |g.thetas| * |g.phis|, nC)
    requires PhiFastest(a[0], g) && ThetasSeparated(g.thetas)
    ensures !ThetaAxisMatches(ReshapeF(a, nF, |g.thetas|, |g.phis|, nC), nF, nC, g)
  {
    var nT := |g.thetas|;
    var first := ReshapeF(a, nF, nT, |g.phis|, nC);
    var test := seq(nT, t requires 0 <= t < nT => first[0][t][0][g.thetaIndex]);
    CheckedColumn(a, nF, nC, g, 1);
    assert PhiInner(0, 1, |g.phis|) == 1;
    assert test[1] == g.thetas[0];
  }

  /** The corrected retry keeps a Theta-fastest scan in the `order='F'` reshape. */
  lemma RegridThetaFastest(a: Array3, nF: nat, nC: nat, g: Grid, f: nat, t: nat, p: nat, c: nat)
    requires nF > 0 && |g.phis| > 0 && g.thetaIndex < nC
    requires HasShape3(a, nF, |g.thetas| * |g.phis|, nC)
    requires ThetaFastest(a[0], g)
    requires f < nF && t < |g.thetas| && p < |g.phis| && c < nC
    ensures ThetaInner(t, p, |g.thetas|) < |g.thetas| * |g.phis|
    ensures Regrid(a, nF, nC, g)[f][t][p][c] == a[f][ThetaInner(t, p, |g.thetas|)][c]
  {
    CheckPassesThetaFastest(a, nF, nC, g);
    ReshapeFThetaFastest(a, nF, |g.thetas|, |g.phis|, nC, f, t, p, c);
  }

  /** Reshaping to (Freq, Phi, Theta, Cols) and swapping the spatial axes puts spatial
      point t * nP + p at [t][p]: Phi varies fastest. */
  lemma SwappedReshapePhiFastest(a: Array3, nF: nat, nT: nat, nP: nat, nC: nat, f: nat, t: nat, p: nat, c: nat)
    requires HasShape3(a, nF, nT * nP, nC)
    requires f < nF && t < nT && p < nP && c < nC
    ensures HasShape3(a, nF, nP * nT, nC)
    ensures PhiInner(t, p, nP) < nT * nP
    ensures SwapAxes12(ReshapeF(a, nF, nP, nT, nC), nF, nP, nT, nC)[f][t][p][c] == a[f][PhiInner(t, p, nP)][c]
  {
    assert nP * nT == nT * nP;
    ReshapeFThetaFastest(a, nF, nP, nT, nC, f, p, t, c);
  }

  /** With a single Theta or a single Phi the two scan orders coincide. */
  lemma OrdersAgree(t: nat, p: nat, nT: nat, nP: nat)
    requires t < nT && p < nP && (nT == 1 || nP == 1)
    ensures ThetaInner(t, p, nT) == PhiInner(t, p, nP)
  {
    if nT == 1 {
      assert t == 0;
    } else {
      assert p == 0;
    }
  }

  /** The corrected retry reads a Phi-fastest scan with Phi varying fastest. */
  lemma RegridPhiFastest(a: Array3, nF: nat, nC: nat, g: Grid, f: nat, t: nat, p: nat, c: nat)
    requires nF > 0 && |g.phis| > 0 && g.thetaIndex < nC
    requires HasShape3(a, nF, |g.thetas| * |g.phis|, nC)
    requires PhiFastest(a[0], g) && ThetasSeparated(g.thetas)
    requires f < nF && t < |g.thetas| && p < |g.phis| && c < nC
    ensures PhiInner(t, p, |g.phis|) < |g.thetas| * |g.phis|
    ensures Regrid(a, nF, nC, g)[f][t][p][c] == a[f][PhiInner(t, p, |g.phis|)][c]
  {
    var nT, nP := |g.thetas|, |g.phis|;
    SwappedReshapePhiFastest(a, nF, nT, nP, nC, f, t, p, c);
    ReshapeFThetaFastest(a, nF, nT, nP, nC, f, t, p, c);
    if nT >= 2 && nP >= 2 {
      CheckFailsPhiFastest(a, nF, nC, g);
    } else {
      OrdersAgree(t, p, nT, nP);
    }
  }

  /** For the first frequency the coordinate columns then agree with the axes: cell
      [0][t][p] holds Theta `thetas[t]` and Phi `phis[p]`. */
  lemma RegridMatchesAxes(a: Array3, nF: nat, nC: nat, g: Grid, t: nat, p: nat)
    requires nF > 0 && |g.phis| > 0 && g.thetaIndex < nC && g.phiIndex < nC
    requires HasShape3(a, nF, |g.thetas| * |g.phis|, nC)
    requires ThetasSeparated(g.thetas)
    requires ThetaFastest(a[0], g) || PhiFastest(a[0], g)
    requires t < |g.thetas| && p < |g.phis|
    ensures Regrid(a, nF, nC, g)[0][t][p][g.thetaIndex] == g.thetas[t]
    ensures Regrid(a, nF, nC, g)[0][t][p][g.phiIndex] == g.phis[p]
  {
    if ThetaFastest(a[0], g) {
      RegridThetaFastest(a, nF, nC, g, 0, t, p, g.thetaIndex);
      RegridThetaFastest(a, nF, nC, g, 0, t, p, g.phiIndex);
    } else {
      RegridPhiFastest(a, nF, nC, g, 0, t, p, g.thetaIndex);
      RegridPhiFastest(a, nF, nC, g, 0, t, p, g.phiIndex);
    }
  }

  // ---------------------------------------------------------------------------------
  // Data variables

  function Names(vars: seq<DataVar>): seq<string> {
    seq(|vars|, k requires 0 <= k < |vars| => vars[k].name)
  }

  /** `data_vars[name] = column`: an existing entry is updated in place, a new one is
      added at the end. */
  function Assign(vars: seq<DataVar>, name: string, column: nat): seq<DataVar> {
    match IndexOf(Names(vars), name)
    case Some(k) => vars[k := DataVar(name, column)]
    case None => vars + [DataVar(name, column)]
  }

  /** `data_vars` after the loop has visited `headers`. */
  function DataVars(headers: seq<string>, thetaIndex: nat, phiIndex: nat): seq<DataVar> {
    if headers == [] then []
    else
      var i := |headers| - 1;
      var prev := DataVars(headers[..i], thetaIndex, phiIndex);
      if i == thetaIndex || i == phiIndex then prev else Assign(prev, headers[i], i)
  }

  predicate IsCoordinate(i: nat, thetaIndex: nat, phiIndex: nat) {
    i == thetaIndex || i == phiIndex
  }

  /** `c` is the last column other than the coordinates that is named `name`. */
  predicate LastColumn(headers: seq<string>, thetaIndex: nat, phiIndex: nat, name: string, c: nat) {
    && c < |headers| && headers[c] == name && !IsCoordinate(c, thetaIndex, phiIndex)
    && forall j :: c < j < |headers| && !IsCoordinate(j, thetaIndex, phiIndex) ==> headers[j] != name
  }

  /** The dictionary's invariant: distinct names, each bound to the last column so named. */
  predicate DataVarsInvariant(vars: seq<DataVar>, headers: seq<string>, thetaIndex: nat, phiIndex: nat) {
    && (forall k, l :: 0 <= k < l < |vars| ==> vars[k].name != vars[l].name)
    && (forall k :: 0 <= k < |vars| ==> LastColumn(headers, thetaIndex, phiIndex, vars[k].name, vars[k].column))
    && (forall i :: 0 <= i < |headers| && !IsCoordinate(i, thetaIndex, phiIndex) ==> headers[i] in Names(vars))
  }

  /** The coordinates of the dataset built at lines 109-117. */
  const CoordinateNames: set<string> := {"Frequency", "Theta", "Phi"}

  /** `xr.Dataset` raises `ValueError` when a name is both a data variable and a
      coordinate. */
  predicate SharesCoordinateName(vars: seq<DataVar>) {
    exists k :: 0 <= k < |vars| && vars[k].name in CoordinateNames
  }

  /** A column other than the two coordinate columns is named like a coordinate. */
  predicate ClashingName(headers: seq<string>, thetaIndex: nat, phiIndex: nat) {
    exists i :: 0 <= i < |headers| && !IsCoordinate(i, thetaIndex, phiIndex) && headers[i] in CoordinateNames
  }

  /** The variables share a name with a coordinate exactly when some column other than
      the coordinate columns is named `Frequency`, `Theta` or `Phi`. */
  lemma ClashIsSharedName(headers: seq<string>, thetaIndex: nat, phiIndex: nat)
    ensures ClashingName(headers, thetaIndex, phiIndex) <==>
      SharesCoordinateName(DataVars(headers, thetaIndex, phiIndex))
  {
    var vars := DataVars(headers, thetaIndex, phiIndex);
    DataVarsSpec(headers, thetaIndex, phiIndex);
    if ClashingName(headers, thetaIndex, phiIndex) {
      var i :| 0 <= i < |headers| && !IsCoordinate(i, thetaIndex, phiIndex) && headers[i] in CoordinateNames;
      assert headers[i] in Names(vars);
      var k :| 0 <= k < |Names(vars)| && Names(vars)[k] == headers[i];
      assert vars[k].name in CoordinateNames;
    }
    if SharesCoordinateName(vars) {
      var k :| 0 <= k < |vars| && vars[k].name in CoordinateNames;
      assert LastColumn(headers, thetaIndex, phiIndex, vars[k].name, vars[k].column);
      assert headers[vars[k].column] in CoordinateNames;
    }
  }

  /** A name other than the new column's keeps its last column. */
  lemma LastColumnKept(headers: seq<string>, thetaIndex: nat, phiIndex: nat, name: string, c: nat)
    requires headers != []
    requires LastColumn(headers[..|headers| - 1], thetaIndex, phiIndex, name, c)
    requires name != headers[|headers| - 1] || IsCoordinate(|headers| - 1, thetaIndex, phiIndex)
    ensures LastColumn(headers, thetaIndex, phiIndex, name, c)
  {
    assert headers[c] == headers[..|headers| - 1][c];
    forall j | c < j < |headers| && !IsCoordinate(j, thetaIndex, phiIndex)
      ensures headers[j] != name
    {
      if j < |headers| - 1 {
        assert headers[j] == headers[..|headers| - 1][j];
      }
    }
  }

  /** A name already present is rebound to the new column, in place. */
  lemma AssignExisting(vars: seq<DataVar>, headers: seq<string>, thetaIndex: nat, phiIndex: nat, k0: nat)
    requires headers != [] && !IsCoordinate(|headers| - 1, thetaIndex, phiIndex)
    requires DataVarsInvariant(vars, headers[..|headers| - 1], thetaIndex, phiIndex)
    requires k0 < |vars| && vars[k0].name == headers[|headers| - 1]
    ensures DataVarsInvariant(vars[k0 := DataVar(headers[|headers| - 1], |headers| - 1)], headers, thetaIndex, phiIndex)
  {
    var i := |headers| - 1;
    var init := headers[..i];
    var name := headers[i];
    var r := vars[k0 := DataVar(name, i)];
    forall k | 0 <= k < |r|
      ensures LastColumn(headers, thetaIndex, phiIndex, r[k].name, r[k].column)
    {
      if k != k0 {
        LastColumnKept(headers, thetaIndex, phiIndex, vars[k].name, vars[k].column);
      }
    }
    forall j | 0 <= j < |headers| && !IsCoordinate(j, thetaIndex, phiIndex)
      ensures headers[j] in Names(r)
    {
      if j < i && headers[j] != name {
        assert init[j] == headers[j] && init[j] in Names(vars);
        var k :| 0 <= k < |vars| && Names(vars)[k] == init[j];
        assert Names(r)[k] == headers[j];
      } else {
        assert Names(r)[k0] == name;
      }
    }
  }

  /** A new name is added at the end, bound to the new column. */
  lemma AssignNew(vars: seq<DataVar>, headers: seq<string>, thetaIndex: nat, phiIndex: nat)
    requires headers != [] && !IsCoordinate(|headers| - 1, thetaIndex, phiIndex)
    requires DataVarsInvariant(vars, headers[..|headers| - 1], thetaIndex, phiIndex)
    requires headers[|headers| - 1] !in Names(vars)
    ensures DataVarsInvariant(vars + [DataVar(headers[|headers| - 1], |headers| - 1)], headers, thetaIndex, phiIndex)
  {
    var i := |headers| - 1;
    var init := headers[..i];
    var name := headers[i];
    var r := vars + [DataVar(name, i)];
    forall k | 0 <= k < |vars|
      ensures vars[k].name != name
    {
      assert Names(vars)[k] == vars[k].name;
    }
    forall k | 0 <= k < |r|
      ensures LastColumn(headers, thetaIndex, phiIndex, r[k].name, r[k].column)
    {
      if k < |vars| {
        LastColumnKept(headers, thetaIndex, phiIndex, vars[k].name, vars[k].column);
      }
    }
    forall j | 0 <= j < |headers| && !IsCoordinate(j, thetaIndex, phiIndex)
      ensures headers[j] in Names(r)
    {
      if j < i {
        assert init[j] == headers[j] && init[j] in Names(vars);
        var k :| 0 <= k < |vars| && Names(vars)[k] == init[j];
        assert Names(r)[k] == headers[j];
      } else {
        assert Names(r)[|vars|] == name;
      }
    }
  }

  lemma AssignKeepsInvariant(vars: seq<DataVar>, headers: seq<string>, thetaIndex: nat, phiIndex: nat)
    requires headers != [] && !IsCoordinate(|headers| - 1, thetaIndex, phiIndex)
    requires DataVarsInvariant(vars, headers[..|headers| - 1], thetaIndex, phiIndex)
    ensures DataVarsInvariant(Assign(vars, headers[|headers| - 1], |headers| - 1), headers, thetaIndex, phiIndex)
  {
    match IndexOf(Names(vars), headers[|headers| - 1])
    case Some(k0) =>
      AssignExisting(vars, headers, thetaIndex, phiIndex, k0);
    case None =>
      AssignNew(vars, headers, thetaIndex, phiIndex);
  }

  lemma SkipKeepsInvariant(vars: seq<DataVar>, headers: seq<string>, thetaIndex: nat, phiIndex: nat)
    requires headers != [] && IsCoordinate(|headers| - 1, thetaIndex, phiIndex)
    requires DataVarsInvariant(vars, headers[..|headers| - 1], thetaIndex, phiIndex)
    ensures DataVarsInvariant(vars, headers, thetaIndex, phiIndex)
  {
    var init := headers[..|headers| - 1];
    assert forall j :: 0 <= j < |init| ==> init[j] == headers[j];
  }

  /** Every column but the two coordinates becomes a variable under its own name; the
      names are distinct, and a name that several columns share is bound to the last of
      them. */
  lemma {:induction false} DataVarsSpec(headers: seq<string>, thetaIndex: nat, phiIndex: nat)
    ensures DataVarsInvariant(DataVars(headers, thetaIndex, phiIndex), headers, thetaIndex, phiIndex)
  {
    if headers != [] {
      var i := |headers| - 1;
      DataVarsSpec(headers[..i], thetaIndex, phiIndex);
      if IsCoordinate(i, thetaIndex, phiIndex) {
        SkipKeepsInvariant(DataVars(headers[..i], thetaIndex, phiIndex), headers, thetaIndex, phiIndex);
      } else {
        AssignKeepsInvariant(DataVars(headers[..i], thetaIndex, phiIndex), headers, thetaIndex, phiIndex);
      }
    }
  }

  /** The variables follow the header order, each under the name of its own column. */
  predicate InHeaderOrder(vars: seq<DataVar>, headers: seq<string>) {
    && (forall k, l :: 0 <= k < l < |vars| ==> vars[k].column < vars[l].column)
    && (forall k :: 0 <= k < |vars| ==> vars[k].column < |headers| && vars[k].name == headers[vars[k].column])
  }

  /** Extending the headers by a name that is new keeps the order, whether that column
      is skipped or appended. */
  lemma InHeaderOrderStep(prev: seq<DataVar>, headers: seq<string>, thetaIndex: nat, phiIndex: nat)
    requires headers != [] && InHeaderOrder(prev, headers[..|headers| - 1])
    requires forall j :: 0 <= j < |headers| - 1 ==> headers[j] != headers[|headers| - 1]
    ensures InHeaderOrder(prev, headers)
    ensures headers[|headers| - 1] !in Names(prev)
    ensures InHeaderOrder(prev + [DataVar(headers[|headers| - 1], |headers| - 1)], headers)
  {
    var i := |headers| - 1;
    var init := headers[..i];
    assert forall j :: 0 <= j < i ==> init[j] == headers[j];
    assert forall k :: 0 <= k < |prev| ==> prev[k].column < i && prev[k].name == headers[prev[k].column];
    forall k | 0 <= k < |prev|
      ensures Names(prev)[k] != headers[i]
    {
    }
  }

  /** With distinct header names the variables follow the header order. */
  lemma {:induction false} DataVarsInHeaderOrder(headers: seq<string>, thetaIndex: nat, phiIndex: nat)
    requires forall i, j :: 0 <= i < j < |headers| ==> headers[i] != headers[j]
    ensures InHeaderOrder(DataVars(headers, thetaIndex, phiIndex), headers)
  {
    if headers != [] {
      var i := |headers| - 1;
      var init := headers[..i];
      assert forall j, l :: 0 <= j < l < i ==> init[j] != init[l] by {
        assert forall j :: 0 <= j < i ==> init[j] == headers[j];
      }
      DataVarsInHeaderOrder(init, thetaIndex, phiIndex);
      var prev := DataVars(init, thetaIndex, phiIndex);
      InHeaderOrderStep(prev, headers, thetaIndex, phiIndex);
      if !IsCoordinate(i, thetaIndex, phiIndex) {
        assert Assign(prev, headers[i], i) == prev + [DataVar(headers[i], i)];
      }
    }
  }
}
