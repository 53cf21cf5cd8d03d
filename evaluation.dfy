/** The two structural recursions over an equation tree: calculateAnswer,
    which evaluates it, and generateLatexEquation, which renders it as LaTeX.
    The platform's transcendental functions and number formatting are
    parameters: only which children are read, in which order, and how the
    two recursions agree is modelled. */
module Evaluation {
  import opened Types
  import opened EquationTree
  import opened AngleNormalizer

  /** The platform primitives the evaluator and renderer call, left
      uninterpreted: Math.sqrt, Math.pow(x, 1/3), Math.log10, Math.log,
      Math.exp, Math.sin, Math.cos, Math.tan, Math.PI, the quotient of a
      division by zero, Number.prototype.toString and toFixed(1). */
  datatype Platform = Platform(
    sqrt: real -> real,
    cubeRoot: real -> real,
    log10: real -> real,
    ln: real -> real,
    exp: real -> real,
    sin: real -> real,
    cos: real -> real,
    tan: real -> real,
    pi: real,
    divideByZero: real -> real,
    show: real -> string,
    toFixed1: real -> string)

  /** a / b; a zero divisor yields whatever the platform gives. */
  function Quotient(lib: Platform, a: real, b: real): (q: real)
    ensures b != 0.0 ==> q * b == a
  {
    if b == 0.0 then lib.divideByZero(a) else a / b
  }

  /** The argument, in radians, that a trigonometric node passes to
      sin, cos or tan: the normalised operand read as degrees. */
  function Radians(lib: Platform, operand: real): real
  {
    NormalizedAngle(operand) * lib.pi / 180.0
  }

  /** calculateAnswer: a number is its value; an operation applies its
      function to the answers of its children (Exp and the unary
      operations read only the first). */
  function CalculateAnswer(lib: Platform, t: Node): real
    requires WellFormed(t)
  {
    match t
    case Num(v) => v
    case Op(op, cs) =>
      var x := CalculateAnswer(lib, cs[0]);
      match op
      case Multiplication => x * CalculateAnswer(lib, cs[1])
      case Division => Quotient(lib, x, CalculateAnswer(lib, cs[1]))
      case Square => x * x
      case Cube => x * x * x
      case SquareRoot => lib.sqrt(x)
      case CubeRoot => lib.cubeRoot(x)
      case Log10 => lib.log10(x)
      case Ln => lib.ln(x)
      case Exp => lib.exp(x)
      case Sin => lib.sin(Radians(lib, x))
      case Cos => lib.cos(Radians(lib, x))
      case Tan => lib.tan(Radians(lib, x))
  }

  predicate IsTrig(op: Operation)
  {
    op == Sin || op == Cos || op == Tan
  }

  /** The platform function a trigonometric operation calls. */
  function TrigFunction(lib: Platform, op: Operation): real -> real
    requires IsTrig(op)
  {
    match op
    case Sin => lib.sin
    case Cos => lib.cos
    case Tan => lib.tan
  }

  /** The LaTeX command a trigonometric operation is shown with. */
  function TrigName(op: Operation): string
    requires IsTrig(op)
  {
    match op
    case Sin => "\\sin"
    case Cos => "\\cos"
    case Tan => "\\tan"
  }

  /** The label of a trigonometric node: the normalised angle of its
      operand, to one decimal, with a degree sign. */
  function TrigLatex(lib: Platform, name: string, operand: real): string
  {
    name + "{(" + lib.toFixed1(NormalizedAngle(operand)) + "°)}"
  }

  /** generateLatexEquation. The trigonometric cases do not render their
      child: they evaluate it and show the normalised angle. */
  function GenerateLatexEquation(lib: Platform, t: Node): string
    requires WellFormed(t)
  {
    match t
    case Num(v) => lib.show(v)
    case Op(op, cs) =>
      match op
      case Multiplication =>
        "(" + GenerateLatexEquation(lib, cs[0]) + " \\times " + GenerateLatexEquation(lib, cs[1]) + ")"
      case Division =>
        "\\frac{" + GenerateLatexEquation(lib, cs[0]) + "}{" + GenerateLatexEquation(lib, cs[1]) + "}"
      case Square => "{(" + GenerateLatexEquation(lib, cs[0]) + ")}^2"
      case Cube => "{(" + GenerateLatexEquation(lib, cs[0]) + ")}^3"
      case SquareRoot => "\\sqrt{" + GenerateLatexEquation(lib, cs[0]) + "}"
      case CubeRoot => "\\sqrt[3]{" + GenerateLatexEquation(lib, cs[0]) + "}"
      case Log10 => "\\log_{10}{" + GenerateLatexEquation(lib, cs[0]) + "}"
      case Ln => "\\ln{" + GenerateLatexEquation(lib, cs[0]) + "}"
      case Exp => "e^{" + GenerateLatexEquation(lib, cs[0]) + "}"
      case Sin => TrigLatex(lib, TrigName(op), CalculateAnswer(lib, cs[0]))
      case Cos => TrigLatex(lib, TrigName(op), CalculateAnswer(lib, cs[0]))
      case Tan => TrigLatex(lib, TrigName(op), CalculateAnswer(lib, cs[0]))
  }

  /** Exp is built with two children, but neither its answer nor its
      rendering depends on the second. */
  lemma ExpIgnoresSecondChild(lib: Platform, a: Node, b: Node, c: Node)
    requires WellFormed(a) && WellFormed(b) && WellFormed(c)
    ensures WellFormed(Op(Exp, [a, b])) && WellFormed(Op(Exp, [a, c]))
    ensures CalculateAnswer(lib, Op(Exp, [a, b])) == CalculateAnswer(lib, Op(Exp, [a, c])) == lib.exp(CalculateAnswer(lib, a))
    ensures GenerateLatexEquation(lib, Op(Exp, [a, b])) == GenerateLatexEquation(lib, Op(Exp, [a, c]))
  {
    assert [a, b][0] == a && [a, c][0] == a;
  }

  /** The trigonometric node over c is computed from, and shows, the
      angle a (in degrees): a is the operand itself when that lies in
      [-10, 10] and a value of [0, 90] otherwise. */
  predicate ShowsAngle(lib: Platform, op: Operation, c: Node, a: real)
    requires IsTrig(op) && WellFormed(c)
  {
    assert WellFormed(Op(op, [c])) by { assert [c][0] == c; }
    var x := CalculateAnswer(lib, c);
    (if Abs(x) <= 10.0 then a == x else 0.0 <= a <= 90.0) &&
    CalculateAnswer(lib, Op(op, [c])) == TrigFunction(lib, op)(a * lib.pi / 180.0) &&
    GenerateLatexEquation(lib, Op(op, [c])) == TrigName(op) + "{(" + lib.toFixed1(a) + "°)}"
  }

  /** A trigonometric node shows exactly the angle its answer is computed
      from: the normalised value of its operand is both handed to sin, cos
      or tan and printed in the equation. */
  lemma TrigAngleAgrees(lib: Platform, op: Operation, c: Node)
    requires IsTrig(op) && WellFormed(c)
    ensures ShowsAngle(lib, op, c, NormalizedAngle(CalculateAnswer(lib, c)))
  {
    assert [c][0] == c;
    var x := CalculateAnswer(lib, c);
    var a := NormalizedAngle(x);
    assert Radians(lib, x) == a * lib.pi / 180.0;
    assert GenerateLatexEquation(lib, Op(op, [c])) == TrigLatex(lib, TrigName(op), x) by {
      match op
      case Sin =>
      case Cos =>
      case Tan =>
    }
    assert CalculateAnswer(lib, Op(op, [c])) == TrigFunction(lib, op)(Radians(lib, x)) by {
      match op
      case Sin =>
      case Cos =>
      case Tan =>
    }
    assert ShowsAngle(lib, op, c, a);
  }

  /** A trigonometric node's answer and rendering depend only on the value
      of its operand, not on how the operand is written. */
  lemma TrigDependsOnlyOnValue(lib: Platform, op: Operation, c: Node, d: Node)
    requires IsTrig(op) && WellFormed(c) && WellFormed(d)
    requires CalculateAnswer(lib, c) == CalculateAnswer(lib, d)
    ensures WellFormed(Op(op, [c])) && WellFormed(Op(op, [d]))
    ensures CalculateAnswer(lib, Op(op, [c])) == CalculateAnswer(lib, Op(op, [d]))
    ensures GenerateLatexEquation(lib, Op(op, [c])) == GenerateLatexEquation(lib, Op(op, [d]))
  {
    assert [c][0] == c && [d][0] == d;
  }

  /** The product of a list of numbers. */
  function Product(xs: seq<real>): real
  {
    if |xs| == 0 then 1.0 else xs[0] * Product(xs[1..])
  }

  lemma {:induction false} ProductAppend(xs: seq<real>, ys: seq<real>)
    ensures Product(xs + ys) == Product(xs) * Product(ys)
  {
    if |xs| == 0 {
      assert xs + ys == ys;
    } else {
      assert (xs + ys)[1..] == xs[1..] + ys;
      ProductAppend(xs[1..], ys);
      var h, p, q := xs[0], Product(xs[1..]), Product(ys);
      assert Product(xs) == h * p;
      calc {
        Product(xs + ys);
        h * Product(xs[1..] + ys);
        h * (p * q);
        (h * p) * q;
      }
    }
  }

  /** The leaves of a binary node are those of its left child followed by
      those of its right child. */
  lemma LeavesOfPair(op: Operation, a: Node, b: Node)
    ensures Leaves(Op(op, [a, b])) == Leaves(a) + Leaves(b)
  {
    assert [a, b][1..] == [b];
    assert [b][1..] == [];
    assert LeavesOfForest([b]) == Leaves(b) + LeavesOfForest([]);
    assert LeavesOfForest([a, b]) == Leaves(a) + LeavesOfForest([b]);
  }

  /** With Multiplication as the only operation, the answer is the product
      of the numbers at the leaves, left to right. */
  lemma {:induction false} MultiplicationOnlyIsProduct(lib: Platform, t: Node)
    requires WellFormed(t) && OpsIn(t, [Multiplication])
    ensures CalculateAnswer(lib, t) == Product(Leaves(t))
  {
    match t
    case Num(v) =>
      assert Product([v]) == v * Product([]);
    case Op(op, cs) =>
      assert cs == [cs[0], cs[1]];
      MultiplicationOnlyIsProduct(lib, cs[0]);
      MultiplicationOnlyIsProduct(lib, cs[1]);
      LeavesOfPair(op, cs[0], cs[1]);
      ProductAppend(Leaves(cs[0]), Leaves(cs[1]));
  }

  /** The weight of a character: +1 for an opening parenthesis, -1 for a
      closing one. */
  function Weight(ch: char): int
  {
    if ch == '(' then 1 else if ch == ')' then -1 else 0
  }

  /** Opening minus closing parentheses in s. */
  function Excess(s: string): int
  {
    if |s| == 0 then 0 else Weight(s[0]) + Excess(s[1..])
  }

  /** As many closing as opening parentheses. */
  predicate Balanced(s: string)
  {
    Excess(s) == 0
  }

  lemma {:induction false} ExcessAppend(a: string, b: string)
    ensures Excess(a + b) == Excess(a) + Excess(b)
  {
    if |a| == 0 {
      assert a + b == b;
    } else {
      assert (a + b)[1..] == a[1..] + b;
      ExcessAppend(a[1..], b);
    }
  }

  /** No parenthesis at all. */
  predicate ParenFree(s: string)
  {
    forall i :: 0 <= i < |s| ==> s[i] != '(' && s[i] != ')'
  }

  lemma {:induction false} FreeExcess(s: string)
    requires ParenFree(s)
    ensures Excess(s) == 0
  {
    if |s| > 0 {
      assert ParenFree(s[1..]) by {
        forall i | 0 <= i < |s[1..]|
          ensures s[1..][i] != '(' && s[1..][i] != ')'
        {
          assert s[1..][i] == s[i + 1];
        }
      }
      FreeExcess(s[1..]);
    }
  }

  /** Text that opens as many parentheses as it closes, around a
      balanced middle, leaves it balanced. */
  lemma Wrapped(pre: string, mid: string, post: string)
    requires Excess(pre) + Excess(post) == 0 && Balanced(mid)
    ensures Balanced(pre + mid + post)
  {
    ExcessAppend(pre, mid);
    ExcessAppend(pre + mid, post);
  }

  lemma WrappedFree(pre: string, mid: string, post: string)
    requires ParenFree(pre) && ParenFree(post) && Balanced(mid)
    ensures Balanced(pre + mid + post)
  {
    FreeExcess(pre);
    FreeExcess(post);
    Wrapped(pre, mid, post);
  }

  /** The binary case: pre, left, sep, right and post in a row. */
  lemma Wrapped2(pre: string, left: string, sep: string, right: string, post: string)
    requires Excess(pre) + Excess(post) == 0 && ParenFree(sep) && Balanced(left) && Balanced(right)
    ensures Balanced(pre + left + sep + right + post)
  {
    FreeExcess(sep);
    ExcessAppend(pre, left);
    ExcessAppend(pre + left, sep);
    ExcessAppend(pre + left + sep, right);
    ExcessAppend(pre + left + sep + right, post);
  }

  lemma WrappedFree2(pre: string, left: string, sep: string, right: string, post: string)
    requires ParenFree(pre) && ParenFree(post) && ParenFree(sep) && Balanced(left) && Balanced(right)
    ensures Balanced(pre + left + sep + right + post)
  {
    FreeExcess(pre);
    FreeExcess(post);
    Wrapped2(pre, left, sep, right, post);
  }

  /** If the platform prints numbers with balanced parentheses (in
      particular, without any), every rendered equation has balanced
      parentheses: each one the renderer opens it also closes. */
  lemma {:induction false} LatexBalanced(lib: Platform, t: Node)
    requires forall v: real :: Balanced(lib.show(v)) && Balanced(lib.toFixed1(v))
    requires WellFormed(t)
    ensures Balanced(GenerateLatexEquation(lib, t))
  {
    match t
    case Num(v) =>
    case Op(op, cs) =>
      LatexBalanced(lib, cs[0]);
      if IsTrig(op) {
        TrigBalanced(lib, op, CalculateAnswer(lib, cs[0]));
      } else if Arity(op) == 2 {
        LatexBalanced(lib, cs[1]);
        BinaryBalanced(lib, t);
      } else {
        UnaryBalanced(lib, t);
      }
  }

  lemma BinaryBalanced(lib: Platform, t: Node)
    requires WellFormed(t) && t.Op? && Arity(t.op) == 2
    requires Balanced(GenerateLatexEquation(lib, t.children[0]))
    requires Balanced(GenerateLatexEquation(lib, t.children[1]))
    ensures Balanced(GenerateLatexEquation(lib, t))
  {
    var l, r := GenerateLatexEquation(lib, t.children[0]), GenerateLatexEquation(lib, t.children[1]);
    match t.op
    case Multiplication => Wrapped2("(", l, " \\times ", r, ")");
    case Division => WrappedFree2("\\frac{", l, "}{", r, "}");
    case Exp => WrappedFree("e^{", l, "}");
  }

  lemma UnaryBalanced(lib: Platform, t: Node)
    requires WellFormed(t) && t.Op? && Arity(t.op) == 1 && !IsTrig(t.op)
    requires Balanced(GenerateLatexEquation(lib, t.children[0]))
    ensures Balanced(GenerateLatexEquation(lib, t))
  {
    if t.op == Square || t.op == Cube {
      PowerBalanced(lib, t);
    } else {
      FunctionBalanced(lib, t);
    }
  }

  lemma PowerBalanced(lib: Platform, t: Node)
    requires WellFormed(t) && t.Op? && (t.op == Square || t.op == Cube)
    requires Balanced(GenerateLatexEquation(lib, t.children[0]))
    ensures Balanced(GenerateLatexEquation(lib, t))
  {
    var l := GenerateLatexEquation(lib, t.children[0]);
    if t.op == Square {
      Wrapped("{(", l, ")}^2");
    } else {
      Wrapped("{(", l, ")}^3");
    }
  }

  lemma FunctionBalanced(lib: Platform, t: Node)
    requires WellFormed(t) && t.Op? && Arity(t.op) == 1 && !IsTrig(t.op) && t.op != Square && t.op != Cube
    requires Balanced(GenerateLatexEquation(lib, t.children[0]))
    ensures Balanced(GenerateLatexEquation(lib, t))
  {
    var l := GenerateLatexEquation(lib, t.children[0]);
    match t.op
    case SquareRoot => WrappedFree("\\sqrt{", l, "}");
    case CubeRoot => WrappedFree("\\sqrt[3]{", l, "}");
    case Log10 => WrappedFree("\\log_{10}{", l, "}");
    case Ln => WrappedFree("\\ln{", l, "}");
  }

  lemma TrigBalanced(lib: Platform, op: Operation, x: real)
    requires IsTrig(op) && Balanced(lib.toFixed1(NormalizedAngle(x)))
    ensures Balanced(TrigLatex(lib, TrigName(op), x))
  {
    var name, m := TrigName(op), lib.toFixed1(NormalizedAngle(x));
    assert ParenFree(name) by {
      match op
      case Sin =>
      case Cos =>
      case Tan =>
    }
    LabelExcess(name);
    Wrapped(name + "{(", m, "°)}");
  }

  lemma LabelExcess(name: string)
    requires ParenFree(name)
    ensures Excess(name + "{(") == 1
  {
    FreeExcess(name);
    ExcessAppend(name, "{(");
  }
}
