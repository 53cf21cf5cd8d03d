/** A generated problem: its equation tree, the answer and the LaTeX
    equation, each computed once when the problem is made. */
module Problem {
  import opened Types
  import opened EquationTree
  import opened Evaluation

  /** The MathJax display wrapper around an equation: an opening display
      bracket, the equation, and " = ?" before the closing bracket. */
  function MathJax(equation: string): (s: string)
    ensures |s| == |equation| + 8
  {
    "\\[" + equation + " = ?\\]"
  }

  /** Recovers the equation from a wrapped display, if s is one. */
  function StripMathJax(s: string): (r: Option<string>)
    ensures r.Some? ==> |r.value| + 8 == |s|
  {
    if |s| >= 8 && s[..2] == "\\[" && s[|s| - 6..] == " = ?\\]" then Some(s[2..|s| - 6]) else None
  }

  /** Wrapping can be undone: the display holds the equation verbatim,
      so two different equations never share a display. */
  lemma StripMathJaxInverts(equation: string)
    ensures StripMathJax(MathJax(equation)) == Some(equation)
  {
    var s := MathJax(equation);
    assert s[..2] == "\\[";
    assert s[|s| - 6..] == " = ?\\]";
    assert s[2..|s| - 6] == equation;
  }

  lemma MathJaxInjective(e1: string, e2: string)
    requires MathJax(e1) == MathJax(e2)
    ensures e1 == e2
  {
    StripMathJaxInverts(e1);
    StripMathJaxInverts(e2);
  }

  class SlideRuleProblem {
    const equationTree: Node
    const answer: real
    const equation: string

    /** The answer and the equation both come from this problem's own
        tree, with the platform primitives lib. */
    predicate ComputedFrom(lib: Platform)
    {
      WellFormed(equationTree) &&
      answer == CalculateAnswer(lib, equationTree) &&
      equation == GenerateLatexEquation(lib, equationTree)
    }

    /** Builds the tree from the requirements and the random draws, then
        evaluates and renders that same tree. */
    constructor (requirements: Requirements, lib: Platform, rnd: nat -> Draw)
      requires |requirements.operations| > 0
      ensures equationTree == GenerateEquationTree(requirements, rnd)
      ensures ComputedFrom(lib)
    {
      var tree := GenerateEquationTree(requirements, rnd);
      equationTree := tree;
      answer := CalculateAnswer(lib, tree);
      equation := GenerateLatexEquation(lib, tree);
    }

    /** getMathJaxEquation: the equation wrapped for display; the
        equation can be read back from it. */
    function GetMathJaxEquation(): (s: string)
      ensures StripMathJax(s) == Some(equation)
      ensures |s| == |equation| + 8
    {
      StripMathJaxInverts(equation);
      MathJax(equation)
    }
  }

  /** generateProblem: a new problem for the requirements. Its tree uses
      only the requested operations and holds at least two of them. */
  method GenerateProblem(requirements: Requirements, lib: Platform, rnd: nat -> Draw) returns (p: SlideRuleProblem)
    requires |requirements.operations| > 0
    ensures fresh(p)
    ensures p.equationTree == GenerateEquationTree(requirements, rnd)
    ensures p.ComputedFrom(lib)
    ensures OpsIn(p.equationTree, requirements.operations) && OperationCount(p.equationTree) >= 2
  {
    p := new SlideRuleProblem(requirements, lib, rnd);
  }
}
