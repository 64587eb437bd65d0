/** numpy's `reshape(..., order='F')`: elements are read from the source and written to the
    target in Fortran order, where the first index varies fastest. Arrays are nested
    sequences; a three-dimensional array of shape (nF, nS, nC) becomes one of shape
    (nF, nT, nP, nC) with nT * nP == nS. */
module FortranOrder {

  type Array3 = seq<seq<seq<real>>>
  type Array4 = seq<seq<seq<seq<real>>>>

  /** `a` has shape (n0, n1, n2). */
  predicate HasShape3(a: Array3, n0: nat, n1: nat, n2: nat) {
    |a| == n0 && forall i :: 0 <= i < n0 ==> |a[i]| == n1 && forall j :: 0 <= j < n1 ==> |a[i][j]| == n2
  }

  /** `a` has shape (n0, n1, n2, n3). */
  predicate HasShape4(a: Array4, n0: nat, n1: nat, n2: nat, n3: nat) {
    |a| == n0 && forall i :: 0 <= i < n0 ==> HasShape3(a[i], n1, n2, n3)
  }

  /** Fortran-order position of [f][s][c] in shape (nF, nS, _). */
  function Pos3(f: nat, s: nat, c: nat, nF: nat, nS: nat): nat {
    f + nF * (s + nS * c)
  }

  /** Fortran-order position of [f][t][p][c] in shape (nF, nT, nP, _). */
  function Pos4(f: nat, t: nat, p: nat, c: nat, nF: nat, nT: nat, nP: nat): nat {
    f + nF * (t + nT * (p + nP * c))
  }

  /** A non-zero multiple of a positive `d` is at least `d` away from zero. */
  lemma MultipleAwayFromZero(x: int, d: int)
    requires d > 0
    ensures x >= 1 ==> x * d >= d
    ensures x <= -1 ==> x * d <= -d
  {
  }

  /** Quotient and remainder are the only ones with the remainder in [0, d). */
  lemma DivModUnique(k: int, d: int, q: int, r: int)
    requires d > 0 && 0 <= r < d && k == q * d + r
    ensures k / d == q && k % d == r
  {
    var q', r' := k / d, k % d;
    assert (q' - q) * d == r - r';
    MultipleAwayFromZero(q' - q, d);
  }

  /** A position within `n` blocks of `d` lies before `n * d`. */
  lemma BlockBound(i: nat, j: nat, d: nat, n: nat)
    requires i < d && j < n
    ensures i + d * j < d * n
  {
    assert d * j + d == d * (j + 1) <= d * n;
  }

  lemma MulMonotone(a: nat, b: nat, c: nat)
    requires b <= c
    ensures a * b <= a * c
  {
  }

  /** The index [f][s][c] at Fortran-order position `k`. */
  function Unflatten3(k: nat, nF: nat, nS: nat): (nat, nat, nat)
    requires nF > 0 && nS > 0
  {
    DivModNat(k, nF);
    var q: nat := k / nF;
    DivModNat(q, nS);
    (k % nF, q % nS, q / nS)
  }

  lemma DivModNat(k: nat, d: nat)
    requires d > 0
    ensures k / d >= 0 && k % d >= 0
  {
  }

  /** Reading a position back gives the index it came from. */
  lemma UnflattenPos3(f: nat, s: nat, c: nat, nF: nat, nS: nat)
    requires f < nF && s < nS
    ensures Unflatten3(Pos3(f, s, c, nF, nS), nF, nS) == (f, s, c)
  {
    var k := Pos3(f, s, c, nF, nS);
    DivModUnique(k, nF, s + nS * c, f);
    DivModUnique(s + nS * c, nS, c, s);
  }

  /** The four-dimensional position of [f][t][p][c] is the three-dimensional position of
      [f][t + nT * p][c]: Theta varies fastest within the spatial axis. */
  lemma Pos4IsPos3(f: nat, t: nat, p: nat, c: nat, nF: nat, nT: nat, nP: nat)
    ensures Pos4(f, t, p, c, nF, nT, nP) == Pos3(f, t + nT * p, c, nF, nT * nP)
  {
    assert nT * (p + nP * c) == nT * p + (nT * nP) * c;
  }

  /** The source index a target cell of the reshape reads, within the source's bounds. */
  lemma SourceIndexInRange(f: nat, t: nat, p: nat, c: nat, nF: nat, nT: nat, nP: nat, nC: nat)
    requires f < nF && t < nT && p < nP && c < nC
    ensures var u := Unflatten3(Pos4(f, t, p, c, nF, nT, nP), nF, nT * nP);
      u.0 < nF && u.1 < nT * nP && u.2 < nC
  {
    BlockBound(t, p, nT, nP);
    Pos4IsPos3(f, t, p, c, nF, nT, nP);
    UnflattenPos3(f, t + nT * p, c, nF, nT * nP);
  }

  /** `a.reshape(nF, nT, nP, nC, order='F')` for `a` of shape (nF, nT * nP, nC): cell
      [f][t][p][c] is the source cell at the same Fortran-order position. */
  function ReshapeF(a: Array3, nF: nat, nT: nat, nP: nat, nC: nat): (r: Array4)
    requires HasShape3(a, nF, nT * nP, nC)
    ensures HasShape4(r, nF, nT, nP, nC)
  {
    seq(nF, f requires 0 <= f < nF =>
      seq(nT, t requires 0 <= t < nT =>
        seq(nP, p requires 0 <= p < nP =>
          seq(nC, c requires 0 <= c < nC =>
            SourceIndexInRange(f, t, p, c, nF, nT, nP, nC);
            var u := Unflatten3(Pos4(f, t, p, c, nF, nT, nP), nF, nT * nP);
            a[u.0][u.1][u.2]))))
  }

  /** `order='F'` puts spatial point t + nT * p at [t][p]: Theta varies fastest. */
  lemma ReshapeFThetaFastest(a: Array3, nF: nat, nT: nat, nP: nat, nC: nat, f: nat, t: nat, p: nat, c: nat)
    requires HasShape3(a, nF, nT * nP, nC)
    requires f < nF && t < nT && p < nP && c < nC
    ensures t + nT * p < nT * nP
    ensures ReshapeF(a, nF, nT, nP, nC)[f][t][p][c] == a[f][t + nT * p][c]
  {
    BlockBound(t, p, nT, nP);
    Pos4IsPos3(f, t, p, c, nF, nT, nP);
    UnflattenPos3(f, t + nT * p, c, nF, nT * nP);
  }

  /** `swapaxes(1, 2)` of an array of shape (n0, n1, n2, n3). */
  function SwapAxes12(a: Array4, n0: nat, n1: nat, n2: nat, n3: nat): (r: Array4)
    requires HasShape4(a, n0, n1, n2, n3)
    ensures HasShape4(r, n0, n2, n1, n3)
    ensures forall i, j, k, l :: 0 <= i < n0 && 0 <= j < n2 && 0 <= k < n1 && 0 <= l < n3 ==>
      r[i][j][k][l] == a[i][k][j][l]
  {
    seq(n0, i requires 0 <= i < n0 =>
      seq(n2, j requires 0 <= j < n2 =>
        seq(n1, k requires 0 <= k < n1 =>
          seq(n3, l requires 0 <= l < n3 => a[i][k][j][l]))))
  }
}
