# fuzzy_logic in Dafny

A model of the core of the Rust crate `fuzzy_logic`. It covers four parts:

- **Degrees.** A degree of truth is a number that should lie in [0, 1]. The
  model covers the lattice connectives (min/max), the probabilistic
  connectives (product and probabilistic sum), the complement, approximate
  equality with tolerance 1e-6, exact ordering, and the `*`, `/`, `-` and `+`
  operators.
- **Membership functions.** These are the piecewise-linear shapes boolean,
  gradual, reverse gradual, triangular and trapezoid. Each maps a crisp value
  to a degree.
- **The naive Bayesian filter.** It folds a sequence of class-to-probability
  distributions into one posterior. Each step rescales by the normalizing
  constant.
- **Utilities.** These are `Option` flattening, slice difference and slice
  intersection.

The crate works over `f64`. The model works over exact `real` numbers. Every
operation is a function or a method whose contract says what the source
computes. Lemmas then prove what the source promises: bounds, lattice laws,
the shapes of the membership functions, the fact that the filter's output is
a distribution, and the crate's own test assertions.

The files are:

- `options.dfy`: module `Options`. It holds the `Option` type and
  `option::flatten`.
- `degree.dfy`: module `Degrees`.
- `membership_functions.dfy`: module `MembershipFunctions`.
- `filters.dfy`: module `Filters`.
- `slices.dfy`: module `Slices`. It holds `slice::diff` and `slice::intersect`.
- `real_arithmetic.dfy`: module `RealArithmetic`. It holds facts about real
  division that the membership functions and the filter share.

No type in the core updates fields in place, so there are no classes. The
loops of the source are methods with invariants:

- the normalizing-constant sum;
- the fold over the observations;
- the nested search loops of `diff` and `intersect`.

Each of these methods is proved equal to a specification function.

Four defects in the source are recorded under "Findings". In each case the
model keeps the member as written, proves a counterexample, and adds the
corrected member beside it.

## Model

| member | source | states |
|---|---|---|
| Options.Flatten | src/util.rs:7-13 | the result is `Some(v)` exactly when the input is `Some(Some(v))`, and `None` otherwise |
| Options.FlattenCases | src/util.rs:9-12 | flatten of `Some(o)` is `o`; `None` and `Some(None)` both flatten to `None` |
| Degrees.New | src/degree.rs:13-20 | a degree is created exactly for values in [0, 1], and it holds that value |
| Degrees.One | src/degree.rs:22-24 | one is valid and is the greatest valid degree |
| Degrees.Zero | src/degree.rs:26-28 | zero is valid and is the least valid degree |
| Degrees.And | src/degree.rs:30-32 | the result is one of the operands and below both (the minimum); valid operands give a valid result |
| Degrees.PAnd | src/degree.rs:34-36 | for valid operands the product is valid and never above `And` |
| Degrees.Or | src/degree.rs:38-40 | the result is one of the operands and above both (the maximum); valid operands give a valid result |
| Degrees.POr | src/degree.rs:42-44 | for valid operands a + b - ab is valid and never below `Or` |
| Degrees.Not | src/degree.rs:46-48 | the operand and the result sum to one; the result is valid exactly when the operand is |
| Degrees.Eq | src/degree.rs:52-56 | two degrees are equal exactly when their values differ by less than 1e-6 |
| Degrees.PartialCmp | src/degree.rs:59-63 | the ordering is always defined, and it is Less, Equal or Greater exactly as the values compare |
| Degrees.Mul | src/degree.rs:66-72 | `*` agrees with `PAnd` and keeps valid degrees valid |
| Degrees.Div | src/degree.rs:75-81 | the quotient times the divisor gives back the dividend |
| Degrees.Sub | src/degree.rs:84-94 | `None` exactly when a < b; otherwise the result plus b is a, and valid operands give a valid result |
| Degrees.Add | src/degree.rs:97-107 | as written: `None` exactly when a + b > 1, but the `Some` value plus b is a, so it holds the difference |
| Degrees.AddIntended | src/degree.rs:97-107 | corrected: `None` exactly when a + b > 1; otherwise the sum, which is valid for valid operands |
| Degrees.NewIsBounded | src/degree.rs:123-130 | every degree `New` accepts lies between zero and one in the derived order (the crate's quickcheck property) |
| Degrees.LatticeLaws | src/degree.rs:30-40 | `And` and `Or` are idempotent and commutative |
| Degrees.NotInvolutive | src/degree.rs:46-48 | complementing twice gives back the degree |
| Degrees.EqReflexiveSymmetric | src/degree.rs:52-56 | approximate equality is reflexive and symmetric |
| Degrees.EqNotTransitive | src/degree.rs:52-63 | approximate equality is not transitive, and two degrees can be equal while one is strictly less than the other |
| Degrees.DivCanLeaveUnitInterval | src/degree.rs:75-81 | 0.5 / 0.25 leaves [0, 1] although both operands are valid |
| Degrees.AddStoresDifference | src/degree.rs:100-106 | 0.2 + 0.5 passes the range test but yields -0.3, which is invalid; the corrected sum yields 0.7 |
| MembershipFunctions.NewOrZero | src/membership_functions.rs:30-33 | the value is used when it lies in [0, 1] and is replaced by zero otherwise; the result is always valid |
| MembershipFunctions.Boolean | src/membership_functions.rs:8-14 | zero exactly below the threshold and one exactly at or above it |
| MembershipFunctions.Gradual | src/membership_functions.rs:18-36 | valid; zero up to x0, one from x1 on, the ramp (x - x0)/(x1 - x0) strictly inside (0, 1) between them |
| MembershipFunctions.ReverseGradual | src/membership_functions.rs:40-50 | valid, and it is the complement of `Gradual`, so the failing subtraction branch is never taken |
| MembershipFunctions.Triangular | src/membership_functions.rs:54-81 | as written: zero outside (x0, x2), one at x1, the rising ramp on (x0, x1), and zero on the whole falling side |
| MembershipFunctions.TriangularIntended | src/membership_functions.rs:54-81 | corrected: the same, but falling as (x2 - x)/(x2 - x1) on (x1, x2) |
| MembershipFunctions.Trapezoid | src/membership_functions.rs:85-112 | as written: zero up to x0, the offset ramp on the rising side, one on [x1, x2], falling (x3 - x)/(x3 - x2), and one from x3 on |
| MembershipFunctions.TrapezoidIntended | src/membership_functions.rs:85-112 | corrected: rising (x - x0)/(x1 - x0), plateau one, falling (x3 - x)/(x3 - x2), zero outside (x0, x3) |
| MembershipFunctions.GradualMonotone | src/membership_functions.rs:25-35 | `Gradual` is monotone non-decreasing in x |
| MembershipFunctions.ReverseGradualShape | src/membership_functions.rs:40-50 | `ReverseGradual` is one up to x0, zero from x1 on, and (x1 - x)/(x1 - x0) in between |
| MembershipFunctions.ReverseGradualMonotone | src/membership_functions.rs:40-50 | `ReverseGradual` is monotone non-increasing in x |
| MembershipFunctions.BooleanTests | tests/membership_functions.rs:9-25 | boolean(10.2, 0.5) and boolean(0.75, 0.75) equal one, and boolean(-7.2, 0.5) equals zero |
| MembershipFunctions.TriangularFallingSideVanishes | src/membership_functions.rs:65-71 | at 0.7 with feet 0.1, 0.9 and peak 0.5 the triangle as written is 0, where the corrected one is 0.5 |
| MembershipFunctions.TrapezoidRisingSideOffset | src/membership_functions.rs:96-102 | at 0.2 with breakpoints 0.1, 0.3, 0.6, 0.9 the trapezoid as written is 0, where the corrected one is 0.5 |
| MembershipFunctions.TrapezoidAboveTopIsOne | src/membership_functions.rs:110 | at 1.0, above the last foot 0.9, the trapezoid as written is 1, where the corrected one is 0 |
| Filters.NormalizingConstant | src/filters.rs:15-18 | the loop's sum equals Z, the sum over the keys of n of n[k] * acc[k], whatever order the keys are visited in |
| Filters.Posterior | src/filters.rs:20-24 | the posterior has the keys of n, maps k to n[k] * acc[k] / Z, and its values sum to one |
| Filters.UpdateStep | src/filters.rs:14-25 | one step of the fold computes exactly the posterior |
| Filters.Bayesian | src/filters.rs:5-26 | the result is the fold of all later observations into the first; a single observation is returned unchanged |
| Filters.FoldLast | src/filters.rs:13-25 | after at least one step, the result has the keys of the last observation and its values sum to one |
| Filters.CombineIsDistribution | src/filters.rs:36-47 | with two or more observations the filter's result is a probability distribution over the last observation's classes |
| Filters.FirstStep | src/filters.rs:64-74 | the first step of the three-observation test has Z = 0.52 and posterior {true: 4/13, false: 9/13} |
| Filters.SecondStep | src/filters.rs:64-74 | the second step has Z = 7/13 and posterior {true: 8/35, false: 27/35} |
| Filters.ThreeObservations | src/filters.rs:49-74 | three observations of {true: 0.4, false: 0.6} give {true: 8/35, false: 27/35}, so false is the more probable class, with about 0.7714 |
| Slices.Without | src/util.rs:22-33 | the difference is never longer than `xs` |
| Slices.Common | src/util.rs:35-46 | the intersection is never longer than `xs` |
| Slices.Diff | src/util.rs:22-33 | the nested search loops build exactly the elements of `xs` absent from `ys`, in order |
| Slices.Intersect | src/util.rs:35-46 | the nested search loops build exactly the elements of `xs` present in `ys`, in order |
| Slices.FiltersMembership | src/util.rs:22-46 | x is in the difference exactly when it is in `xs` and not in `ys`, and in the intersection exactly when it is in both |
| Slices.FiltersDistribute | src/util.rs:22-46 | both operations distribute over concatenation of `xs`, so the order of `xs` is kept |
| Slices.FiltersPartition | src/util.rs:22-46 | as multisets, the difference and the intersection together are exactly `xs`, duplicates included |
| Slices.FiltersSizes | src/util.rs:22-46 | the lengths of the difference and the intersection add up to the length of `xs` |
| Slices.FiltersEmptyOther | src/util.rs:22-46 | against an empty `ys` the difference is `xs` and the intersection is empty |
| Slices.IntersectionTest | src/util.rs:57-64 | intersect([1,2,3,4,5], [2,1,9,3,7]) is [1,2,3] |
| Slices.DifferenceTest | src/util.rs:66-73 | diff([1,2,3,4,5], [2,1,9,3,7]) is [4,5] |

## Left out

- `gaussian` (src/membership_functions.rs:117-123): its body is `unimplemented!()` and panics for every input, so there is nothing to model.
- Floating point: the model computes over exact reals. It has no rounding, overflow, infinities or NaN.
- Degrees.New: the NaN branch of `new` has no counterpart over the reals.
- Degrees.PartialCmp: over the reals the comparison is total, so the `None` that `f64::partial_cmp` gives for NaN never arises.
- Degrees.Div: requires a non-zero divisor, because `f64` division by zero yields an infinity or NaN and real division is undefined there.
- Generic numeric type: `boolean` takes any `T: PartialOrd`, and the other membership functions take any `T: Into<f64>` with `Div` and `Sub`. The model fixes `T` to `real`. For an integer `T` the source divides with truncation, and that is not modelled.
- MembershipFunctions.Boolean: the reals are totally ordered, so "one unless x < x0" is the same as "one exactly when x0 <= x". For a `T` with incomparable values (such as `f64` NaN) the source returns one, and that case is not modelled.
- The breakpoint checks of the membership functions (`assert!(x0 < x1)` and so on) panic when they fail. The model makes them `requires` clauses.
- Filters.Bayesian: requires that every key of each observation is present in the running posterior, because `acc[k]` panics otherwise. It also requires that every normalizing constant is non-zero, because a zero constant gives infinities or NaN in `f64`. An empty sequence of observations panics on `observations[0]`, so the model requires a non-empty one.
- Filters.NormalizingConstant: `HashMap` iteration order is left unspecified, which is exact over the reals. In `f64` the rounding of the sum can depend on that order.
- The filter tests pick the most probable class with `max_by_key` after truncating `v * 100.0` to `u64`. Filters.ThreeObservations states the exact posterior instead.
- `Display` for `Degree` (string formatting of an `f64`) is not modelled.
- `src/lib.rs` only declares the modules.
- Slices.Diff and Slices.Intersect: `PartialEq` on `T` is modelled as Dafny equality, which is reflexive. A `PartialEq` that is not reflexive, such as `f64` with NaN, is not modelled. `Vec::with_capacity` is only an allocation hint.

## Findings

| source | as written | input that shows it | evidently intended | confidence | as-written member | corrected member |
|---|---|---|---|---|---|---|
| src/degree.rs:100-106 | `+` tests a + b > 1 but returns `Some` of a - b | 0.2 + 0.5 gives Some(-0.3), which is not a valid degree | `Some` of a + b | high; not executed | Degrees.Add, Degrees.AddStoresDifference | Degrees.AddIntended |
| src/membership_functions.rs:65-71 | the falling side of `triangular` computes (x1 - x)/(x1 - x0), which is negative past the peak, so `new` rejects it and the result is zero | x = 0.7 with x0, x1, x2 = 0.1, 0.5, 0.9 gives 0 | (x2 - x)/(x2 - x1), here 0.5 | high; not executed | MembershipFunctions.Triangular, MembershipFunctions.TriangularFallingSideVanishes | MembershipFunctions.TriangularIntended |
| src/membership_functions.rs:96-102 | the rising side of `trapezoid` computes x/(x1 - x0) - (x0 - (x1 - x0)) | x = 0.2 with x0, x1, x2, x3 = 0.1, 0.3, 0.6, 0.9 computes 1.1, which `new` rejects, so the result is 0 | (x - x0)/(x1 - x0), here 0.5 | high; not executed | MembershipFunctions.Trapezoid, MembershipFunctions.TrapezoidRisingSideOffset | MembershipFunctions.TrapezoidIntended |
| src/membership_functions.rs:110 | the catch-all of `trapezoid` returns one, so it also covers x >= x3 | x = 1.0 with x0, x1, x2, x3 = 0.1, 0.3, 0.6, 0.9 gives 1 | zero at and above x3, as at and below x0 | medium; not executed | MembershipFunctions.Trapezoid, MembershipFunctions.TrapezoidAboveTopIsOne | MembershipFunctions.TrapezoidIntended |
