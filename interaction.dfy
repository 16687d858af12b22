/**
  Interaction rules of the particle-life simulator: a square matrix of
  signed interaction strengths between particle types ("colours"), its
  deterministic default fill, and the distance-dependent force law.
*/
module ParticleInteraction {

  function Abs(x: real): real { if x < 0.0 then -x else x }

  /** -1, 0 or 1 according to the sign of x. */
  function Sign(x: real): int { if x < 0.0 then -1 else if x == 0.0 then 0 else 1 }

  /**
    The default strength between types k and l: the same colour
    attracts (+1), different colours repel (-1).
  */
  function DefaultRule(k: int, l: int): (r: real)
    ensures r == 1.0 || r == -1.0
    ensures r == 1.0 <==> k == l
  {
    if k == l then 1.0 else -1.0
  }

  /** The default n x n strength matrix, row by row. */
  function DefaultGrid(n: nat): (g: seq<seq<real>>)
    ensures IsSquare(g, n)
    ensures forall k :: 0 <= k < n ==> g[k][k] == 1.0
    ensures forall k, l :: 0 <= k < n && 0 <= l < n && k != l ==> g[k][l] == -1.0
    ensures IsSymmetric(g)
  {
    seq(n, k => seq(n, l => DefaultRule(k, l)))
  }

  /** g has n rows of n entries each. */
  predicate IsSquare(g: seq<seq<real>>, n: nat)
  {
    |g| == n && forall k :: 0 <= k < n ==> |g[k]| == n
  }

  /** g is square and strength (k, l) equals strength (l, k). */
  predicate IsSymmetric(g: seq<seq<real>>)
  {
    IsSquare(g, |g|) &&
    forall k, l :: 0 <= k < |g| && 0 <= l < |g| ==> g[k][l] == g[l][k]
  }

  /** The zero matrix that the constructor allocates. */
  function ZeroGrid(n: nat): (g: seq<seq<real>>)
    ensures IsSquare(g, n)
    ensures forall k, l :: 0 <= k < n && 0 <= l < n ==> g[k][l] == 0.0
  {
    seq(n, k => seq(n, l => 0.0))
  }

  class Interaction {
    var numTypes: nat
    var matrix: array2<real>

    /** The matrix has shape numTypes x numTypes. */
    ghost predicate Valid()
      reads this
    {
      matrix.Length0 == numTypes && matrix.Length1 == numTypes
    }

    /** The matrix contents, row by row. */
    ghost function Grid(): (g: seq<seq<real>>)
      reads this, matrix
      requires Valid()
      ensures IsSquare(g, numTypes)
      ensures forall k, l :: 0 <= k < numTypes && 0 <= l < numTypes ==> g[k][l] == matrix[k, l]
    {
      var m := matrix;
      seq(m.Length0, k requires 0 <= k < m.Length0 reads m =>
        seq(m.Length1, l requires 0 <= l < m.Length1 reads m => m[k, l]))
    }

    /** Allocates a zero-filled numTypes x numTypes matrix. */
    constructor (numTypes: nat)
      ensures Valid() && fresh(matrix)
      ensures this.numTypes == numTypes
      ensures Grid() == ZeroGrid(numTypes)
    {
      this.numTypes := numTypes;
      matrix := new real[numTypes, numTypes]((k, l) => 0.0);
      new;
      assert Grid() == ZeroGrid(numTypes) by {
        var g, z := Grid(), ZeroGrid(numTypes);
        forall k | 0 <= k < numTypes ensures g[k] == z[k] { }
      }
    }

    /**
      Overwrites every entry with the default rule: +1 on the diagonal and
      -1 elsewhere. The result does not depend on the previous contents,
      and the matrix keeps its identity and its shape.
    */
    method MakeMatrix()
      requires Valid()
      modifies matrix
      ensures Valid()
      ensures Grid() == DefaultGrid(numTypes)
    {
      for i := 0 to numTypes
        invariant forall k, l :: 0 <= k < i && 0 <= l < numTypes ==> matrix[k, l] == DefaultRule(k, l)
      {
        for j := 0 to numTypes
          invariant forall k, l :: 0 <= k < i && 0 <= l < numTypes ==> matrix[k, l] == DefaultRule(k, l)
          invariant forall l :: 0 <= l < j ==> matrix[i, l] == DefaultRule(i, l)
        {
          if i == j {
            matrix[i, j] := 1.0;
          } else {
            matrix[i, j] := -1.0;
          }
        }
      }
      assert Grid() == DefaultGrid(numTypes) by {
        var g, e := Grid(), DefaultGrid(numTypes);
        forall k | 0 <= k < numTypes ensures g[k] == e[k] { }
      }
    }

    /**
      The force law: strength i at distance d with cutoff maxDist. Zero at
      or beyond the cutoff; otherwise i scaled by a factor that falls
      linearly from 1 at distance 0 towards 0 at the cutoff. It reads no
      state of the object. The requires excludes only the division by zero
      that the linear branch would perform.
    */
    static function ForceFunction(i: real, d: real, maxDist: real): (r: real)
      requires d < maxDist ==> maxDist != 0.0
      ensures 0.0 <= d && 0.0 < maxDist ==> Abs(r) <= Abs(i)
      ensures 0.0 <= d && 0.0 < maxDist ==> r == 0.0 || Sign(r) == Sign(i)
    {
      if d >= maxDist then
        0.0
      else
        var factor := 1.0 - d / maxDist;
        FactorInUnitInterval(d, maxDist);
        ScaledByUnitFactor(i, factor);
        i * factor
    }
  }

  /** Below the cutoff the falloff factor lies in (0, 1]. */
  lemma FactorInUnitInterval(d: real, maxDist: real)
    requires maxDist != 0.0
    ensures 0.0 <= d < maxDist ==> 0.0 < 1.0 - d / maxDist <= 1.0
  {
    if 0.0 <= d < maxDist {
      assert maxDist / maxDist == 1.0;
      assert d / maxDist < maxDist / maxDist;
    }
  }

  /** Scaling by a factor in (0, 1] shrinks the magnitude and keeps the sign. */
  lemma ScaledByUnitFactor(i: real, f: real)
    ensures 0.0 < f <= 1.0 ==> Abs(i * f) <= Abs(i) && Sign(i * f) == Sign(i)
  {
  }

  /** At or beyond the cutoff (inclusive) there is no force. */
  lemma ForceVanishesFromCutoff(i: real, d: real, maxDist: real)
    requires d >= maxDist
    ensures Interaction.ForceFunction(i, d, maxDist) == 0.0
  {
  }

  /** At distance zero the full strength acts. */
  lemma ForceAtContact(i: real, maxDist: real)
    requires 0.0 < maxDist
    ensures Interaction.ForceFunction(i, 0.0, maxDist) == i
  {
  }

  /** Halfway to the cutoff, half the strength acts. */
  lemma ForceAtHalfRange(i: real, maxDist: real)
    requires 0.0 < maxDist
    ensures Interaction.ForceFunction(i, maxDist / 2.0, maxDist) == i / 2.0
  {
    assert (maxDist / 2.0) / maxDist == 0.5;
  }

  /** Below the cutoff the force is linear in d with slope -i / maxDist. */
  lemma ForceIsLinearBelowCutoff(i: real, d1: real, d2: real, maxDist: real)
    requires 0.0 < maxDist && 0.0 <= d1 < maxDist && 0.0 <= d2 < maxDist
    ensures Interaction.ForceFunction(i, d1, maxDist) - Interaction.ForceFunction(i, d2, maxDist)
            == i * (d2 - d1) / maxDist
  {
  }

  /** For non-negative distances the force is zero exactly when i is zero or the cutoff is reached. */
  lemma ForceZeroIff(i: real, d: real, maxDist: real)
    requires 0.0 < maxDist && 0.0 <= d
    ensures Interaction.ForceFunction(i, d, maxDist) == 0.0 <==> (i == 0.0 || d >= maxDist)
  {
  }

  /**
    Over [0, infinity) an attracting strength (i >= 0) weakens with distance
    and a repelling strength (i <= 0) weakens in magnitude: the force is
    non-increasing in d for i >= 0 and non-decreasing for i <= 0.
  */
  lemma ForceMonotoneInDistance(i: real, d1: real, d2: real, maxDist: real)
    requires 0.0 < maxDist && 0.0 <= d1 <= d2
    ensures 0.0 <= i ==> Interaction.ForceFunction(i, d2, maxDist) <= Interaction.ForceFunction(i, d1, maxDist)
    ensures i <= 0.0 ==> Interaction.ForceFunction(i, d1, maxDist) <= Interaction.ForceFunction(i, d2, maxDist)
  {
    var f1 := Interaction.ForceFunction(i, d1, maxDist);
    var f2 := Interaction.ForceFunction(i, d2, maxDist);
    if d2 >= maxDist {
      // f2 is zero, and f1 is zero or has the sign of i
      assert f2 == 0.0;
      assert f1 == 0.0 || Sign(f1) == Sign(i);
    } else {
      ForceIsLinearBelowCutoff(i, d1, d2, maxDist);
      ProductSign(i, d2 - d1);
      QuotientSign(i * (d2 - d1), maxDist);
    }
  }

  /** A factor that is not negative keeps the weak sign of the other factor. */
  lemma ProductSign(a: real, b: real)
    requires 0.0 <= b
    ensures 0.0 <= a ==> 0.0 <= a * b
    ensures a <= 0.0 ==> a * b <= 0.0
  {
  }

  /** Division by a positive number keeps the weak sign of the dividend. */
  lemma QuotientSign(a: real, b: real)
    requires 0.0 < b
    ensures 0.0 <= a ==> 0.0 <= a / b
    ensures a <= 0.0 ==> a / b <= 0.0
  {
  }

  /** Negating the strength negates the force: attraction and repulsion mirror each other. */
  lemma ForceOddInStrength(i: real, d: real, maxDist: real)
    requires d < maxDist ==> maxDist != 0.0
    ensures Interaction.ForceFunction(-i, d, maxDist) == -Interaction.ForceFunction(i, d, maxDist)
  {
  }

  /** Calling MakeMatrix a second time leaves the matrix as the first call left it. */
  method MakeMatrixTwice(x: Interaction) returns (ghost once: seq<seq<real>>)
    requires x.Valid()
    modifies x.matrix
    ensures x.Valid()
    ensures x.Grid() == once == DefaultGrid(x.numTypes)
  {
    x.MakeMatrix();
    once := x.Grid();
    x.MakeMatrix();
  }
}
