# Faunus containers, loop counter and point primitives in Dafny

This project models three small parts of the Faunus Monte Carlo simulation code and proves properties of them:

- **Simulation containers** (`include/faunus/container.h`). The base `container` has five variants: `cell` (a hard sphere), `box` (a periodic cube), `slit` (a box periodic in x and y only), `clutch` (a sphere with an excluded band in z) and `cylinder`. The model covers each variant's `collision` test, the rounding helper `anint`, the periodic `boundary` folds of `box` and `slit`, `box::scale`, and the base-class defaults `sqdist`, `dist`, `boundary`, `scale` and `setvolume`.
- **The multi-level loop counter** (`include/faunus/mcloop.h`). This is `Counter<int>` with `set`, `step`, `operator[]`, `count` and `innerCount`, plus the two-level `MCLoop` with `macroCnt` and `microCnt`.
- **Point and particle primitives** of the biosim prototype (`code-mikael/biosim/src.dev/point.h`). These are squared distance, distance, inverse distance, the hard-sphere overlap test, the point-charge potential, and the coordinate-only `particle::operator=(point)`.

## How the model is built

- **Numbers.** Doubles are mathematical `real`s. C++ `int(...)` is `Containers.Trunc` (truncation toward zero). `T = int` in `Counter` is an unbounded `int`.
- **Square roots.**
  - `sqrt` from `<cmath>` is code the model cannot see. Every member that takes a root gets it as a parameter `sqrt: real -> real` and requires only `IsSqrt(sqrt)`: the root is non-negative and squares back to its argument.
  - Z3 cannot show that such a root exists, so the law is a requirement, not an axiom.
- **Containers.**
  - The hierarchy is closed, so it is one class `Container` with a `kind` tag. A virtual call is a `match` on `kind`, and `slit` reuses the box collision test.
  - The class holds the variants' shape parameters as fields: `r`, `r2`, `len`, `lenHalf`, `lenInv`, `zmin`, `zmax`.
  - The constructor, `setlen` and `setradius` bodies are not part of this model.
  - `Container.Valid()` states what they are taken to establish:
    - for a box or slit, `len > 0`, `lenHalf == len/2` and `lenInv == 1/len`;
    - for a round container, `r >= 0` and `r2 == r*r`.
  - The named constructors `Init…` establish `Valid()`.
- **Points updated in place.** A `point &` that `boundary` and `scale` overwrite is a `PointRef` object with mutable `x`, `y`, `z`.
  - The methods `Boundary`, `BoxBoundary`, `SlitBoundary` and `Scale` update it in place.
  - Each is specified by a function on point values (`BoundaryImage`, `ScaleImage`), and the properties are proved about those functions.
- **The loop counter.**
  - `Counter` keeps `l` and `cnt` as `seq<int>` fields and `inner` as an `int`.
  - Its invariant `Valid()` says there is one count per limit and each count is in `[0, max(l[i], 0)]`. `set` and `step` preserve it for every limit, negative ones included.
  - `DocumentedLoop` runs the nested `while (cnt[0]) while (cnt[1])` loop from the class comment on a fresh counter.

## Model

| member | source | states |
|---|---|---|
| Points.SqDist | code-mikael/biosim/src.dev/point.h:111-117 | the squared distance is never negative and is zero between a point and itself |
| Points.SqDistZero | code-mikael/biosim/src.dev/point.h:111-117 | the squared distance is zero if and only if the two points are equal |
| Points.SqDistSymmetric | code-mikael/biosim/src.dev/point.h:111-117 | the squared distance is symmetric |
| Points.Dist | code-mikael/biosim/src.dev/point.h:126 | the distance is non-negative, its square is the squared distance, and it is zero exactly between equal points |
| Points.DistIsTheRoot | code-mikael/biosim/src.dev/point.h:126 | any non-negative number squaring to the squared distance is the distance, whichever `sqrt` is supplied |
| Points.DistSymmetric | code-mikael/biosim/src.dev/point.h:126 | the distance is symmetric |
| Points.InvDist | code-mikael/biosim/src.dev/point.h:125 | for distinct points, the inverse distance is positive and is the reciprocal of the distance |
| Points.Potential | code-mikael/biosim/src.dev/point.h:128-134 | away from the particle, potential times distance equals the charge, and the potential has the charge's sign |
| Points.Overlap | code-mikael/biosim/src.dev/point.h:136-139 | no contract of its own; its meaning is stated by `Points.OverlapIffCloserThanContact` and `Points.OverlapSymmetric` |
| Points.OverlapIffCloserThanContact | code-mikael/biosim/src.dev/point.h:136-139 | particles overlap exactly when their centres are closer than the absolute sum of their radii; touching particles do not overlap |
| Points.OverlapSymmetric | code-mikael/biosim/src.dev/point.h:136-139 | overlap is symmetric |
| Points.AssignCoordinates | code-mikael/biosim/src.dev/point.h:72 | the particle takes the point's coordinates; charge, radius, mw and id are unchanged |
| Points.AssignCoordinatesLaws | code-mikael/biosim/src.dev/point.h:72 | assigning a particle its own position changes nothing; of two assignments the last one wins |
| Points.Scaled | include/faunus/container.h:89 | no contract of its own: `point * double` is the coordinate-wise product; see `Points.ScaledLaws` and `Containers.ScaledIntoBox` |
| Points.ScaledLaws | include/faunus/container.h:89 | scaling by 1 is the identity, scaling by 0 gives the origin, and two scalings compose into one by the product |
| Containers.Trunc | include/faunus/container.h:82 | `int(double)` lies within one of its argument, on the side of zero |
| Containers.TruncOdd | include/faunus/container.h:82 | truncation commutes with negation |
| Containers.Anint | include/faunus/container.h:82 | `x - anint(x)` lies in [-1/2, 1/2) for `x > 0` and in (-1/2, 1/2] for `x <= 0`, so ties round away from zero |
| Containers.AnintUnique | include/faunus/container.h:82 | those bounds determine `anint(x)` uniquely |
| Containers.AnintTies | include/faunus/container.h:82 | halves round away from zero (`anint(0.5) == 1`, `anint(-0.5) == -1`), and integers are fixed points |
| Containers.AnintOdd | include/faunus/container.h:82 | rounding is symmetric about zero |
| Containers.BoxShift | include/faunus/container.h:85-87 | no contract of its own: `c - len*anint(c/len)`, the shift of one box axis; see `Containers.BoxFoldIntoCell` |
| Containers.BoxFold | include/faunus/container.h:85-87 | no contract of its own: one guarded box axis; see `Containers.BoxFoldIntoCell` and `Containers.BoxFoldIdempotent` |
| Containers.BoxFoldIntoCell | include/faunus/container.h:84-88 | one box axis: the folded coordinate is within `len_half`; a coordinate already within it is unchanged; the change is a whole number of box lengths |
| Containers.BoxFoldIdempotent | include/faunus/container.h:84-88 | folding one box axis twice equals folding it once |
| Containers.SlitFold | include/faunus/container.h:102-103 | no contract of its own: one unguarded slit axis; see `Containers.SlitFoldIntoCell`, `Containers.SlitFoldKeepsInterior` and `Containers.SlitFoldFlipsOnFace` |
| Containers.SlitFoldIntoCell | include/faunus/container.h:101-104 | one slit axis: the folded coordinate is within `len/2`, shifted by a whole number of lengths |
| Containers.SlitFoldKeepsInterior | include/faunus/container.h:101-104 | a coordinate strictly inside `(-len/2, len/2)` is not moved by the slit fold |
| Containers.SlitFoldFlipsOnFace | include/faunus/container.h:101-104 | the slit fold maps `-len/2` to `len/2` and `len/2` back to `-len/2` |
| Containers.ScaledIntoBox | include/faunus/container.h:89 | a point in the cube of side `len` goes into the cube of side `newlen` when scaled by `newlen/len` |
| Containers.Container.InitCell | include/faunus/container.h:42 | a cell with the given non-negative radius satisfies the class invariant |
| Containers.Container.InitBox | include/faunus/container.h:65 | a box with the given positive side satisfies the class invariant |
| Containers.Container.InitSlit | include/faunus/container.h:65 | an assumed slit constructor, built like `box(double)`: a slit with the given positive side satisfies the class invariant |
| Containers.Container.InitClutch | include/faunus/container.h:123 | a clutch with the given radius and band satisfies the class invariant |
| Containers.Container.InitCylinder | include/faunus/container.h:144 | a cylinder with the given length and radius satisfies the class invariant |
| Containers.Container.Collision | include/faunus/container.h:47-50 | no contract of its own: the four `collision` bodies (lines 47-50, 71-77, 125-131, 146-149), one per kind; see the four `…CollisionIff` lemmas |
| Containers.Container.CellCollisionIff | include/faunus/container.h:47-50 | a cell collides exactly where the distance from the centre exceeds `r`; the surface is not a collision |
| Containers.Container.BoxCollisionIff | include/faunus/container.h:71-77 | a box or slit admits exactly the closed cube `[-len_half, len_half]^3`, faces included |
| Containers.Container.ClutchCollisionIff | include/faunus/container.h:125-131 | strictly inside the band a clutch always collides, whatever x and y are; elsewhere, the two band planes included, it collides exactly outside the ball of radius `r` |
| Containers.Container.CylinderCollisionIff | include/faunus/container.h:146-149 | a cylinder collides exactly when the point is farther than `r` from the z axis, or z is outside `[0, len]` |
| Containers.Container.BoundaryImage | include/faunus/container.h:84-88 | no contract of its own: the value-level `boundary` (box fold, slit fold at lines 101-104, identity otherwise); see `BoxBoundaryIntoCell`, `BoxBoundaryIdempotent`, `SlitBoundaryIntoCell`, `SlitBoundaryKeepsInterior`, `SlitBoundaryNotIdempotent`, `DefaultsChangeNothing` |
| Containers.Container.Boundary | include/faunus/container.h:24 | applying boundary conditions updates the point in place to `BoundaryImage` of its old value (nothing happens for non-periodic kinds) |
| Containers.Container.BoxBoundary | include/faunus/container.h:84-88 | `box::boundary` updates the point in place to its box image |
| Containers.Container.SlitBoundary | include/faunus/container.h:101-104 | `slit::boundary` updates the point in place to its slit image |
| Containers.Container.BoxBoundaryIntoCell | include/faunus/container.h:84-88 | after `box::boundary` there is no collision; only coordinates beyond a face move, each by a whole number of box lengths |
| Containers.Container.BoxBoundaryIdempotent | include/faunus/container.h:84-88 | `box::boundary` is idempotent and does not move a point that does not collide |
| Containers.Container.SlitBoundaryIntoCell | include/faunus/container.h:101-104 | `slit::boundary` never changes z; it leaves \|x\| and \|y\| at most `len/2`, shifted by whole lengths; a collision afterwards can only come from z |
| Containers.Container.SlitBoundaryKeepsInterior | include/faunus/container.h:101-104 | a point strictly inside the slit's periodic cell in x and y is not moved |
| Containers.Container.SlitBoundaryNotIdempotent | include/faunus/container.h:101-104 | for a point with `x == -len/2` and `\|y\| < len/2`, the slit boundary moves it to `x == len/2`, and a second application moves it back |
| Containers.Container.Scale | include/faunus/container.h:89 | scaling updates the point in place to `ScaleImage`, which is `a*(newlen/len)` for a box or slit and `a` otherwise |
| Containers.Container.ScaleImage | include/faunus/container.h:89 | no contract of its own: the value-level `scale`; see `ScaleToOwnLength`, `ScaleKeepsInside` and `DefaultsChangeNothing` |
| Containers.Container.ScaleToOwnLength | include/faunus/container.h:89 | scaling to the current box length leaves the point unchanged |
| Containers.Container.ScaleKeepsInside | include/faunus/container.h:89 | a point inside the box of side `len` is scaled into the box of side `newlen` |
| Containers.Container.DefaultsChangeNothing | include/faunus/container.h:24-25 | for non-periodic containers the base `boundary` and `scale` change nothing |
| Containers.Container.SetVolume | include/faunus/container.h:19 | the base `setvolume` changes nothing |
| Containers.Container.SqDist | include/faunus/container.h:26-27 | the base `sqdist` is the plain squared Euclidean distance, zero exactly between equal points |
| Containers.Container.Dist | include/faunus/container.h:28-30 | the base `dist` is the non-negative root of the base `sqdist`, zero exactly between equal points |
| McLoop.Counter.constructor | include/faunus/mcloop.h:33 | the default counter has no levels and satisfies the invariant |
| McLoop.Counter.WithLevels | include/faunus/mcloop.h:35 | constructing with levels has the same effect as `set(levels)` |
| McLoop.Counter.Set | include/faunus/mcloop.h:38-42 | the limits become `levels`, every count and `inner` become zero, and the invariant holds |
| McLoop.Counter.Step | include/faunus/mcloop.h:52-62 | answers whether the old count was below the limit; if so the count goes up by one, otherwise it is reset to zero; `inner` goes up exactly on a successful step of the last level; limits and other counts are kept, and so is the invariant |
| McLoop.Counter.Index | include/faunus/mcloop.h:45-49 | `operator[]` has exactly the effect and result of `step` |
| McLoop.Counter.Count | include/faunus/mcloop.h:65 | a count is never negative and never above its level's limit (zero for a negative limit) |
| McLoop.RowContents | include/faunus/mcloop.h:19-22 | one inner sweep visits `(i, 1) … (i, n)` in order |
| McLoop.RowMembers | include/faunus/mcloop.h:19-22 | one inner sweep holds exactly the pairs `(i, j)` with `1 <= j <= n` |
| McLoop.GridSize | include/faunus/mcloop.h:147-148 | the documented loop visits `m*n` pairs, the "tot" that `info` reports |
| McLoop.GridMembers | include/faunus/mcloop.h:19-22 | the documented loop visits exactly the pairs with `1 <= i <= m` and `1 <= j <= n` |
| McLoop.DocumentedLoop | include/faunus/mcloop.h:19-22 | on a fresh counter the nested loop visits the grid in order; it ends with `innerCount() == max(m,0)*max(n,0)` (so `l[0]*l[1]` for non-negative limits) and both counts back at zero |
| McLoop.GetOr | include/faunus/mcloop.h:128 | no contract of its own: a configured value or its default; the defaults 10 and 1000 are stated by `McLoop.MCLoop.constructor` |
| McLoop.MCLoop.constructor | include/faunus/mcloop.h:126-129 | the counter gets limits macro and micro, defaulting to 10 and 1000, with zero counts |
| McLoop.MCLoop.MacroCnt | include/faunus/mcloop.h:153 | `macroCnt` is a step of level 0; it never touches `inner` |
| McLoop.MCLoop.MicroCnt | include/faunus/mcloop.h:155 | `microCnt` is a step of level 1, the last level, so a successful one adds one to `innerCount()` |

`slit::boundary` folds x and y without the guard that `box::boundary` has. The model therefore does not claim it is idempotent. It is not idempotent wherever x or y is an odd multiple of `len/2`: such a coordinate is folded onto one face, and the next application moves it to the opposite face (`Containers.SlitFoldFlipsOnFace` shows both `-len/2 -> len/2` and `len/2 -> -len/2`). `Containers.Container.SlitBoundaryNotIdempotent` shows the case `x = -len/2` for a whole point. Strictly inside the cell in x and y it changes nothing (`Containers.Container.SlitBoundaryKeepsInterior`).

## Left out

- `randompos` of every container: its bodies are not part of this model, and it draws from a random number generator.
- The random number generator wrapper (`include/faunus/slump.h`) and its OpenMP critical sections.
- Minimum-image `box::dist` and `box::sqdist`: they delegate to a `point::dist(b, len, len_half)` overload whose body is not part of this model. `Containers.Container.SqDist` and `Containers.Container.Dist` therefore require a non-periodic container.
- `pot_hsminimage.h`: it relies on the same minimum-image call, and its `setvolume` uses the floating-point `pow(vol, 1./3)`.
- The bodies of the container constructors, of `setlen`, `setradius`, `box::setvolume`, `info` and `povray`. The first three are replaced by the invariant `Container.Valid()` that they are taken to establish (for `slit`, which declares no constructor, see the `InitSlit` line below). `Containers.Container.SetVolume` covers only the base no-op; `info` and `povray` format strings.
- Containers.Container.InitSlit: `slit` (include/faunus/container.h:98-105) declares no constructor, and `box` has no default constructor (only `box(double)` and `box(inputfile &)`, container.h:65-66), so as written no `slit` can be built. The model assumes a slit constructor that builds its box part from a side length, as `box(double)` would.
- The `volume`, `diameter` and `tlen_inv` fields: nothing in the modelled code reads them.
- `TimedCounter`, which times with `std::chrono`, `std::time` and `asctime`. The `TimedCounter::operator[]` that `macroCnt` and `microCnt` go through only records a start time before calling `Counter::operator[]`, so the model calls `Counter::Index` directly.
- `MCLoop`'s json parsing (modelled as two optional values) and its `timing`/`info` text.
- `McLoop.Counter.InnerCount` and the `MCLoop` "tot" have no contract of their own: `innerCount()` returns `inner`, and what it amounts to after the documented loop is stated by `McLoop.DocumentedLoop` and `McLoop.GridSize`.
- McLoop.Counter.constructor: the default C++ constructor leaves `inner` uninitialised, so the model states nothing about it.
- `spherical` from point.h (trigonometric conversions, and the unfinished `random_angles`).
- The vector operators declared in point.h: they are declared only. `Points.Scaled` models `point * double` as `box::scale` uses it.
- The `point` type of container.h comes from `faunus/particles.h`, which is not part of this model. Its `sqdist`, `dist` and `operator*(double)` (used at container.h:26-30 and 89) are taken to be the Euclidean squared distance, its root and the coordinate-wise product of point.h (`Points.SqDist`, `Points.Dist`, `Points.Scaled`).
- The body of `particle::operator=(point)` (point.h:72) is not part of this model: it is only declared. `Points.AssignCoordinates` follows its comment ("copy coordinates from a point") and the unit test in `src/examples/unittests.cpp:70-84`, which checks that `mw` is kept.
- `classes/mcloop.h`: a thin wrapper over `countdown` and `inputfile`, which are not part of this model.
- The example programs, the unit tests and `stripes.py`: simulation drivers, numerical tests and a config writer.
- Floating-point rounding, overflow of `int(...)` in `anint`, and `float` precision of `particle::mw`: all numbers are exact reals or unbounded integers.
- Points.Dist, Points.InvDist, Points.Potential, Containers.Container.Dist, OverlapIffCloserThanContact, CellCollisionIff, ClutchCollisionIff, CylinderCollisionIff: `sqrt` is a caller-supplied function that obeys the square-root law; the library's own `sqrt` is not modelled.
- Containers.Container.Boundary, Containers.Container.Scale: aliasing between the point and the container cannot arise in the model, because `PointRef` and `Container` are different classes.
