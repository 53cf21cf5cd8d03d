# Slide-rule practice: problem generator model

A Dafny model of the problem generator of the slide-rule practice
application. The model covers:

- **Operand generation** (`NumberGenerator`): a mantissa in [1.1, 9.9)
  times a power of ten drawn from [-magnitude, magnitude], rounded to a
  number of significant figures. `floor(log10 |x|)` is characterised exactly
  as the integer m with 10^m <= |x| < 10^(m+1); `Math.round(y)` is
  `floor(y + 0.5)`.
- **The equation-tree builder** (`EquationTree`): `generateSubtree` with its
  `depth` and `nodesCreated` arguments, and `countNodes`. Randomness is an
  oracle `rnd: nat -> Draw` (a `Draw` is a real in [0, 1)) read at
  consecutive positions, in the order the code calls `Math.random`:
  - the coin, only when at least two nodes exist and depth remains;
  - for a leaf, the mantissa draw, then the exponent draw;
  - for an operation, the operation index, then the children.

  Leaf values come from a `NumberSource`. `NumberSourceOf` makes
  `generateNumber` the source, with the requested magnitude and significant
  figures.
- **The angle normaliser** (`AngleNormalizer`) applied before sin, cos and
  tan.
  - JavaScript's `%` is modelled as the truncated remainder.
  - `NormalizeAngleForTrig` reassigns its value step by step, as the code
    does. It is proved equal to the function `NormalizedAngle`.
- **Evaluator and renderer** (`Evaluation`): `calculateAnswer` and
  `generateLatexEquation`.
  - Math functions, `Math.PI`, number printing and `toFixed(1)` are
    uninterpreted fields of a `Platform` value.
  - The proofs are about structure: which children are read, and how the
    two recursions agree.
- **The problem object** (`Problem`): `SlideRuleProblem`, whose three fields
  are written once in the constructor (Dafny `const` fields), plus
  `getMathJaxEquation` and `generateProblem`.
- **The operation toggle** of the controls panel (`Controls`):
  - it removes every occurrence of a ticked operation, or appends an unticked
    one;
  - a change that would leave no operation is dropped: the callback is not
    called, modelled as `None`.

Behaviour of the code that the model keeps as written:

- Exp is not in the unary list at problemGenerator.ts:39, so an Exp node is
  built with two children. Only the first child is used in the answer
  (problemGenerator.ts:91) and in the rendering (problemGenerator.ts:129)
  (`ExpIgnoresSecondChild`).
- The root and its first child are always operations
  (problemGenerator.ts:24). So with only Multiplication and one or two steps,
  the tree is always `(a × b) × c` (`ProductOfProduct`).
- A generated value can reach exactly 10^(m+1): a mantissa of 9.8 at
  exponent 1, rounded to one significant figure, gives 100
  (`RangeTopReached`).
- The MathJax wrapper at problemGenerator.ts:145 has no space after `\[` or
  before `\]`.
- The `Operation` enumeration at types.ts:3-13 declares nine members. The
  generator also uses Sin, Cos and Tan, so the model's `Operation` has all
  twelve.
- Outside [-10, 10] the angle normaliser returns the input or its negation
  up to whole half turns (`NormalizedAngleCongruent`). The fold at
  problemGenerator.ts:161-165 drops the sign, so -200 and 200 both become 20
  (`NormalizedAngleDropsSign`).

## Model

| member | source | states |
|---|---|---|
| NumberGenerator.Log10Floor | slide-rule-practice/src/utils/numberGenerator.ts:12 | floor(log10 x) for x > 0 is an integer m with 10^m <= x < 10^(m+1) |
| NumberGenerator.Log10FloorUnique | slide-rule-practice/src/utils/numberGenerator.ts:12 | that m is unique: any integer with the same bracketing is Log10Floor(x) |
| NumberGenerator.Round | slide-rule-practice/src/utils/numberGenerator.ts:14 | Math.round gives the integer in (y - 0.5, y + 0.5], so halves round up |
| NumberGenerator.RoundToScale | slide-rule-practice/src/utils/numberGenerator.ts:14 | round(num/scale)*scale is a multiple of scale within half a scale of num, taking the upper one at a tie |
| NumberGenerator.RoundToScaleUnique | slide-rule-practice/src/utils/numberGenerator.ts:14 | any multiple of scale in (num - scale/2, num + scale/2] is the rounded value |
| NumberGenerator.Scale | slide-rule-practice/src/utils/numberGenerator.ts:12-13 | the place value 10^(floor(log10 abs(num)) - sigFigs + 1) is positive |
| NumberGenerator.RoundToSignificantFigures | slide-rule-practice/src/utils/numberGenerator.ts:10-15 | zero gives zero; otherwise the result is a multiple of the scale in (num - scale/2, num + scale/2] |
| NumberGenerator.RoundingUnique | slide-rule-practice/src/utils/numberGenerator.ts:12-14 | the rounded value is the only multiple of the scale within half a scale (ties upward) |
| NumberGenerator.SignificantFiguresKept | slide-rule-practice/src/utils/numberGenerator.ts:12-14 | with sigFigs >= 1 and num != 0, the result has abs(r/scale) in [10^(s-1), 10^s]; it keeps the sign of num and stays in [10^m, 10^(m+1)] |
| NumberGenerator.RoundExample | slide-rule-practice/src/utils/numberGenerator.ts:12-14 | 47.3 to one figure has scale 10 and rounds to 50 |
| NumberGenerator.GenerateBase | slide-rule-practice/src/utils/numberGenerator.ts:3 | the mantissa 1.1 + r*8.8 lies in [1.1, 9.9) |
| NumberGenerator.GeneratePower | slide-rule-practice/src/utils/numberGenerator.ts:5 | floor(r*(2m+1)) - m is an integer in [-m, m] when m >= 0 |
| NumberGenerator.RawNumberExponent | slide-rule-practice/src/utils/numberGenerator.ts:6 | base*10^power is positive, and its floor(log10) is exactly power |
| NumberGenerator.GenerateNumber | slide-rule-practice/src/utils/numberGenerator.ts:1-8 | for magnitude m >= 0 and at least one figure, the value lies in [10^-m, 10^(m+1)] |
| NumberGenerator.RangeTopReached | slide-rule-practice/src/utils/numberGenerator.ts:1-7 | the bound is reached: mantissa 9.8 at exponent 1, rounded to one figure, is exactly 100 |
| AngleNormalizer.Trunc | slide-rule-practice/src/utils/problemGenerator.ts:157 | truncation toward zero, the quotient JavaScript's % uses |
| AngleNormalizer.Rem360 | slide-rule-practice/src/utils/problemGenerator.ts:157 | v % 360 lies in [0, 360) for v >= 0 and in (-360, 0] for v < 0 |
| AngleNormalizer.Residue360 | slide-rule-practice/src/utils/problemGenerator.ts:157-159 | the floored residue lies in [0, 360) |
| AngleNormalizer.ShiftedRemainderIsResidue | slide-rule-practice/src/utils/problemGenerator.ts:157-159 | adding 360 to a negative remainder gives the floored residue of v modulo 360 |
| AngleNormalizer.Fold | slide-rule-practice/src/utils/problemGenerator.ts:161-165 | folding [0, 360) by quadrant lands in [0, 90] and leaves [0, 90] unchanged; the result is w, 180 - w, w - 180 or 360 - w, the identities each branch relies on |
| AngleNormalizer.NormalizedAngle | slide-rule-practice/src/utils/problemGenerator.ts:153-168 | every normalised angle lies in [-10, 90] |
| AngleNormalizer.NormalizeAngleForTrig | slide-rule-practice/src/utils/problemGenerator.ts:153-168 | the step-by-step reassignment equals NormalizedAngle; abs(v) <= 10 is returned unchanged, anything else lands in [0, 90] |
| AngleNormalizer.NormalizedAngleExamples | slide-rule-practice/src/utils/problemGenerator.ts:153-168 | 200 gives 20, -200 gives 20, 7 gives 7 |
| AngleNormalizer.ResiduePeriodic | slide-rule-practice/src/utils/problemGenerator.ts:157-159 | the residue is unchanged by adding 360 |
| AngleNormalizer.NormalizedAnglePeriodic | slide-rule-practice/src/utils/problemGenerator.ts:155-165 | when neither v nor v + 360 lies in [-10, 10], both normalise to the same angle |
| AngleNormalizer.ResidueNegated | slide-rule-practice/src/utils/problemGenerator.ts:157-159 | the residue of -v is 360 minus that of v, or 0 |
| AngleNormalizer.FoldReflected | slide-rule-practice/src/utils/problemGenerator.ts:161-165 | folding w and 360 - w gives the same angle |
| AngleNormalizer.NormalizedAngleCongruent | slide-rule-practice/src/utils/problemGenerator.ts:155-165 | outside [-10, 10] the normalised angle is v - 180k or 180k - v for some integer k |
| AngleNormalizer.NormalizedAngleDropsSign | slide-rule-practice/src/utils/problemGenerator.ts:155-165 | outside [-10, 10], -v and v normalise to the same angle, so the sign is lost |
| EquationTree.IsUnary | slide-rule-practice/src/utils/problemGenerator.ts:39 | an operation is unary exactly when it is in the nine-element list Square, Cube, SquareRoot, CubeRoot, Log10, Ln, Sin, Cos, Tan |
| EquationTree.Arity | slide-rule-practice/src/utils/problemGenerator.ts:39-55 | one child exactly for the nine operations of the unary list; two for Multiplication, Division and Exp |
| EquationTree.CountNodes | slide-rule-practice/src/utils/problemGenerator.ts:59-62 | countNodes is at least 1, and exactly 1 for a number |
| EquationTree.CountForest | slide-rule-practice/src/utils/problemGenerator.ts:61 | the children's counts sum to at least the number of children |
| EquationTree.CountNodesSplits | slide-rule-practice/src/utils/problemGenerator.ts:59-62 | countNodes is the number of leaves plus the number of operation nodes |
| EquationTree.LeavesAtMostOperationsPlusOne | slide-rule-practice/src/utils/problemGenerator.ts:39-55 | with at most two children per node, a well-formed tree has at most one more leaf than operations |
| EquationTree.CreatesOperation | slide-rule-practice/src/utils/problemGenerator.ts:24-25 | with fewer than two nodes an operation is always created; an operation is created only when forced or when depth remains |
| EquationTree.OperationIndex | slide-rule-practice/src/utils/problemGenerator.ts:34-35 | floor(r*len) is a valid index of a non-empty list |
| EquationTree.OperationAt | slide-rule-practice/src/utils/problemGenerator.ts:34-36 | the drawn operation is an element of the list |
| EquationTree.GenerateSubtree | slide-rule-practice/src/utils/problemGenerator.ts:22-56 | every subtree consumes at least one draw, so the next subtree reads later draws |
| EquationTree.GenerateOperation | slide-rule-practice/src/utils/problemGenerator.ts:34-55 | an operation node consumes its index draw at p and at least one more for its children, so it ends after p + 1 |
| EquationTree.GenerateChildren | slide-rule-practice/src/utils/problemGenerator.ts:38-55 | the children of an operation consume at least one draw after the index draw |
| EquationTree.ChildrenShape | slide-rule-practice/src/utils/problemGenerator.ts:38-55 | a unary node holds its left subtree; a binary one holds the left and right subtrees, the right built with nodesCreated + 1 + countNodes(left) |
| EquationTree.SubtreeWellFormed | slide-rule-practice/src/utils/problemGenerator.ts:34-55 | every built tree has arity-many children at each node, and only operations from the list |
| EquationTree.SubtreeDepth | slide-rule-practice/src/utils/problemGenerator.ts:24-32 | no path holds more than max(depth, 2 - nodesCreated, 0) operation nodes |
| EquationTree.SubtreeLeftSpine | slide-rule-practice/src/utils/problemGenerator.ts:24-25 | with nodesCreated < 2, the first 2 - nodesCreated nodes of the leftmost path are operations |
| EquationTree.SubtreeLeaves | slide-rule-practice/src/utils/problemGenerator.ts:27-32 | if every number the source produces lies in [lo, hi], so does every leaf of the subtree |
| EquationTree.LeafCondition | slide-rule-practice/src/utils/problemGenerator.ts:24-32 | a subtree is a leaf iff two nodes already exist and either depth <= 0 or the coin is >= 0.5 |
| EquationTree.ForcedShape | slide-rule-practice/src/utils/problemGenerator.ts:24-25 | a forced node draws no coin: its operation is the draw at its own position |
| EquationTree.NumberSourceOf | slide-rule-practice/src/utils/problemGenerator.ts:30 | leaves come from generateNumber with the requested magnitude m and figures; for m >= 0 and at least one figure they lie in [10^-m, 10^(m+1)] |
| EquationTree.GenerateEquationTree | slide-rule-practice/src/utils/problemGenerator.ts:21-65 | the tree is well formed and uses only listed operations; its root and the root's first child are operations, so it has at least two; no path holds more than max(steps-1, 2) operations; its leaves lie in [10^-m, 10^(m+1)] |
| EquationTree.SpineCounted | slide-rule-practice/src/utils/problemGenerator.ts:64 | k operations heading the leftmost path mean at least k operation nodes |
| EquationTree.ProductOfProduct | slide-rule-practice/src/utils/problemGenerator.ts:21-65 | with only Multiplication and steps 1 or 2, the tree is always (a × b) × c |
| EquationTree.ProductOfProductSubtree | slide-rule-practice/src/utils/problemGenerator.ts:22-56 | the same shape, stated for generateSubtree from depth <= 1 |
| Evaluation.CalculateAnswer | slide-rule-practice/src/utils/problemGenerator.ts:67-101 | no contract of its own; its properties are stated by MultiplicationOnlyIsProduct, ExpIgnoresSecondChild, TrigAngleAgrees and TrigDependsOnlyOnValue |
| Evaluation.Quotient | slide-rule-practice/src/utils/problemGenerator.ts:77 | for a non-zero divisor b, the quotient times b gives back the dividend |
| Evaluation.GenerateLatexEquation | slide-rule-practice/src/utils/problemGenerator.ts:103-142 | no contract of its own; its properties are stated by LatexBalanced, ExpIgnoresSecondChild, TrigAngleAgrees and TrigDependsOnlyOnValue |
| Evaluation.TrigLatex | slide-rule-practice/src/utils/problemGenerator.ts:130-138 | no contract of its own; TrigAngleAgrees states that the label shows, through toFixed(1) and a degree sign, the same normalised angle the answer uses |
| Evaluation.ExpIgnoresSecondChild | slide-rule-practice/src/utils/problemGenerator.ts:90-91 | an Exp node's answer and rendering depend only on its first child, and its answer is exp of that child's answer |
| Evaluation.TrigAngleAgrees | slide-rule-practice/src/utils/problemGenerator.ts:92-97 | the angle a = normalizeAngleForTrig(answer of the child) is both passed to sin/cos/tan (as a*PI/180) and printed with toFixed(1) and a degree sign; a is the operand when that lies in [-10, 10], and in [0, 90] otherwise |
| Evaluation.TrigDependsOnlyOnValue | slide-rule-practice/src/utils/problemGenerator.ts:130-138 | a trig node's answer and rendering depend on the operand's value, not on its rendering |
| Evaluation.MultiplicationOnlyIsProduct | slide-rule-practice/src/utils/problemGenerator.ts:67-75 | with only Multiplication, the answer is the product of the leaves, left to right |
| Evaluation.ProductAppend | slide-rule-practice/src/utils/problemGenerator.ts:75 | the product of a concatenation is the product of the products |
| Evaluation.LatexBalanced | slide-rule-practice/src/utils/problemGenerator.ts:103-142 | if printed numbers have balanced parentheses, so does every rendered equation |
| Problem.MathJax | slide-rule-practice/src/utils/problemGenerator.ts:145 | the wrapper adds exactly eight characters |
| Problem.StripMathJaxInverts | slide-rule-practice/src/utils/problemGenerator.ts:144-146 | the equation can be recovered from its MathJax display |
| Problem.MathJaxInjective | slide-rule-practice/src/utils/problemGenerator.ts:144-146 | different equations get different displays |
| Problem.SlideRuleProblem.constructor | slide-rule-practice/src/utils/problemGenerator.ts:15-19 | the tree is generated once; the answer and the equation are both computed from that same tree |
| Problem.SlideRuleProblem.GetMathJaxEquation | slide-rule-practice/src/utils/problemGenerator.ts:144-146 | the display holds exactly the problem's equation, eight characters longer |
| Problem.GenerateProblem | slide-rule-practice/src/utils/problemGenerator.ts:149-151 | a freshly allocated problem built from the requirements, using only requested operations, at least two of them |
| Controls.Remove | slide-rule-practice/src/components/Controls.tsx:11 | the filtered list has no x; every other operation occurs as often as before, and the length drops by the count of x |
| Controls.RemoveAppend | slide-rule-practice/src/components/Controls.tsx:11 | filtering a concatenation filters each part, so the order is kept |
| Controls.RemoveAbsent | slide-rule-practice/src/components/Controls.tsx:11 | filtering out an absent operation returns the list unchanged |
| Controls.RemoveEmpty | slide-rule-practice/src/components/Controls.tsx:11-15 | the filtered list is empty iff every element is x |
| Controls.Toggled | slide-rule-practice/src/components/Controls.tsx:10-12 | a present x is filtered out (every occurrence, order kept), and the list gets shorter; an absent x gives the old list followed by x; every other operation keeps its count |
| Controls.ToggleMembership | slide-rule-practice/src/components/Controls.tsx:10-12 | toggling flips the membership of x and of nothing else |
| Controls.ToggleTwiceRestores | slide-rule-practice/src/components/Controls.tsx:10-12 | toggling an absent operation twice restores the list |
| Controls.ToggleKeepsNoDuplicates | slide-rule-practice/src/components/Controls.tsx:10-12 | a list without duplicates keeps none after a toggle |
| Controls.HandleOperationToggle | slide-rule-practice/src/components/Controls.tsx:9-18 | nothing is emitted iff the list is non-empty and holds only x; otherwise the requirements emitted have the toggled, non-empty list and the same steps, magnitude and significant figures |

## Left out

- IEEE-754 arithmetic is not modelled: rounding error, NaN, infinities, and `Math.log10` imprecision near powers of ten. Numbers are exact reals.
- A division by zero yields the uninterpreted `Platform.divideByZero`, standing for JavaScript's infinities and NaN.
- The meaning of Math.sqrt, Math.pow(x, 1/3), log10, log, exp, sin, cos, tan and Math.PI is not modelled; they are uninterpreted `Platform` fields. Square and Cube are exact products.
- `Number.prototype.toString` and `toFixed(1)` are uninterpreted `Platform` fields.
- Math.random is an oracle of draws in [0, 1). No claim is made about distributions, such as the 50% coin.
- The default `significantFigures = 1` of generateNumber is not modelled: both arguments are always passed, as the generator does.
- EquationTree.GenerateEquationTree: the generator relies on a non-empty operation list, which the controls guarantee (`Controls.HandleOperationToggle`). An empty list would read an undefined operation in JavaScript, and that case is not modelled.
- The leaf-range clause holds only for magnitude >= 0 and at least one significant figure, the range the UI sliders allow.
- SlideRuleProblem's fields are public in the source but written only in the constructor; they are `const` fields here.
- App.tsx and all JSX, including the sliders, the MathJax typesetting call and `toFixed(3)` on the answer, are not part of this model.
- types.ts holds declarations only; it appears as the `Operation` and `Requirements` datatypes.
- The unreachable `default` branches of calculateAnswer and generateLatexEquation do not exist over the closed `Operation` datatype.
- calculateAnswer and generateLatexEquation evaluate and render every child before switching on the operation (problemGenerator.ts:71, :109). The model reads only the children an operation uses, so an Exp node's second child and a trigonometric operand's rendering are never computed. Both functions are pure, so the results are the same.
- Evaluation.LatexBalanced: parentheses only; braces and square brackets are not counted.
