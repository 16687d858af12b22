# Particle-life interaction rules in Dafny

This project models the `Interaction` class of a 2D particle-life simulator.
Particles have a "type" (a colour). The class holds a square matrix of signed
interaction strengths between types. It fills that matrix with a default rule:
the same colour attracts (+1) and different colours repel (-1). It also
provides the force law. The force law turns a strength `i` and a distance `d`
into a force, falling linearly to zero at a cutoff distance `max_dist`.

Everything is in `interaction.dfy`, in module `ParticleInteraction`:

- `class Interaction` has the source's two fields. `numTypes` is a `nat`.
  `matrix` is an `array2<real>`. `Valid()` says that the matrix is
  `numTypes x numTypes`. `Grid()` is its contents as a sequence of rows.
- The constructor allocates the zero matrix.
- `MakeMatrix` is the nested-loop fill, done in place. It is proved against
  `DefaultGrid(numTypes)`, the reference matrix built from `DefaultRule`.
  `DefaultGrid` is proved to have +1 on the diagonal, -1 elsewhere, and to be
  symmetric. The postcondition does not mention the old contents. So the
  result is the same for any starting matrix, and calling the fill twice
  gives the same result as calling it once (`MakeMatrixTwice`).
- `ForceFunction` is a `static` function, since the source never reads the
  object. The lemmas beside it state the inclusive cutoff, the value at
  contact and at half range, linearity below the cutoff, when the force is
  zero, the magnitude bound, sign preservation, monotonicity in distance and
  oddness in the strength.

Python floats are modelled as Dafny `real`. The arithmetic is one subtraction,
one division and one multiplication, and the intended results are exact. The
integer literals `1` and `-1` that the source stores into a float matrix
become `1.0` and `-1.0`.

`ForceFunction` requires `d < maxDist ==> maxDist != 0.0`. This excludes only
the division by zero that Python would raise in the linear branch. It does not
require `maxDist > 0` or `d >= 0`. The properties that need those facts assume
them in their own `requires` or as the premise of an implication.

The test file `test_interaction.py` disagrees with the class. It builds an
`Interaction` with `max_distance` and `friction` arguments and calls a method
`calculate_force_magnitude(strength, distance)`. The class takes only
`num_types`. Its force method is `force_function(i, d, max_dist)`, which takes
the cutoff as an argument. The model follows the class. The test's expected
values at distance 0, 25 and 50.1 with cutoff 50 are covered by
`ForceAtContact`, `ForceAtHalfRange` and `ForceVanishesFromCutoff`.

## Model

| member | source | states |
|---|---|---|
| `ParticleInteraction.Interaction.constructor` | interaction.py:5-8 | sets `numTypes` to the argument and allocates a fresh `numTypes x numTypes` matrix with every entry 0 |
| `ParticleInteraction.DefaultRule` | interaction.py:17-22 | the default strength is +1 or -1, and it is +1 exactly when the two types are equal |
| `ParticleInteraction.DefaultGrid` | interaction.py:15-22 | the default matrix is `n x n`, has 1 on every diagonal entry and -1 on every off-diagonal entry, and is symmetric |
| `ParticleInteraction.ZeroGrid` | interaction.py:8 | the zero matrix is `n x n` and every entry is 0 |
| `ParticleInteraction.Interaction.MakeMatrix` | interaction.py:13-22 | afterwards the matrix, whatever it held before, equals the default matrix; the matrix object and its shape `numTypes x numTypes` are unchanged; only that matrix is written |
| `ParticleInteraction.MakeMatrixTwice` | interaction.py:13-22 | a second fill leaves the matrix equal to what the first fill produced (idempotence) |
| `ParticleInteraction.Interaction.ForceFunction` | interaction.py:24-38 | for `d >= 0` and a positive cutoff, the force is no larger in magnitude than the strength, and it is zero or has the sign of the strength; it reads no state of the object |
| `ParticleInteraction.FactorInUnitInterval` | interaction.py:37 | for `0 <= d < max_dist`, the falloff factor `1 - d/max_dist` lies in (0, 1] |
| `ParticleInteraction.ForceVanishesFromCutoff` | interaction.py:32-33 | the force is 0 whenever `d >= max_dist`, including exactly at the cutoff |
| `ParticleInteraction.ForceAtContact` | interaction.py:37-38 | at distance 0 with a positive cutoff, the force equals the strength |
| `ParticleInteraction.ForceAtHalfRange` | interaction.py:37-38 | at half the cutoff distance, the force is half the strength |
| `ParticleInteraction.ForceIsLinearBelowCutoff` | interaction.py:37-38 | below the cutoff, the difference of forces at two distances is `i * (d2 - d1) / max_dist`: a linear falloff with slope `-i/max_dist` |
| `ParticleInteraction.ForceZeroIff` | interaction.py:32-38 | for `d >= 0` and a positive cutoff, the force is zero if and only if the strength is zero or `d >= max_dist` |
| `ParticleInteraction.ForceMonotoneInDistance` | interaction.py:32-38 | over `[0, infinity)`, and across the cutoff, the force does not increase with distance for a strength `>= 0` and does not decrease for a strength `<= 0` |
| `ParticleInteraction.ForceOddInStrength` | interaction.py:32-38 | negating the strength negates the force, so attraction and repulsion mirror each other |

## Left out

- `randomize_matrix`: the constructor calls it (interaction.py:11), but it is not defined in the class. It would also need a random source. The constructor is modelled up to the zero allocation. As the class stands, that call would raise an error at construction.
- `force_vector_function` (interaction.py:40-43) has an empty body, so there is nothing to model.
- The simulation engine is not part of this model. Its source file `simulation.py` is not available, only a test of it. Pairwise distances, total forces and Euler integration with friction are therefore not modelled.
- The `max_distance` and `friction` attributes and the three-argument constructor that `test_interaction.py` expects do not exist in the class, so they are not modelled.
- IEEE double rounding, NaN and infinities are not modelled: the arithmetic is over exact reals.
- `ParticleInteraction.Interaction.ForceFunction`: when `maxDist == 0.0` and `d < 0`, Python raises `ZeroDivisionError`. The model has no error result for this case. Its `requires` excludes it.
