/** The operation toggle of the controls panel: ticking an operation adds it
    to the end of the list, unticking it removes every occurrence, and a
    change that would leave no operation is dropped. */
module Controls {
  import opened Types

  /** The list without any occurrence of x, the rest in order. */
  function Remove(ops: seq<Operation>, x: Operation): (r: seq<Operation>)
    ensures x !in r
    ensures forall y :: y != x ==> multiset(r)[y] == multiset(ops)[y]
    ensures |r| + multiset(ops)[x] == |ops|
  {
    if |ops| == 0 then []
    else
      assert ops == [ops[0]] + ops[1..];
      (if ops[0] == x then [] else [ops[0]]) + Remove(ops[1..], x)
  }

  /** Removing from a concatenation removes from each part. */
  lemma {:induction false} RemoveAppend(a: seq<Operation>, b: seq<Operation>, x: Operation)
    ensures Remove(a + b, x) == Remove(a, x) + Remove(b, x)
  {
    if |a| == 0 {
      assert a + b == b;
    } else {
      assert (a + b)[0] == a[0];
      assert (a + b)[1..] == a[1..] + b;
      RemoveAppend(a[1..], b, x);
    }
  }

  /** Removing an operation that is not there changes nothing: the order
      of what remains is the order of the list. */
  lemma {:induction false} RemoveAbsent(ops: seq<Operation>, x: Operation)
    requires x !in ops
    ensures Remove(ops, x) == ops
  {
    if |ops| > 0 {
      assert ops[1..] + [] == ops[1..];
      RemoveAbsent(ops[1..], x);
      assert ops == [ops[0]] + ops[1..];
    }
  }

  /** Nothing is left exactly when every element is x. */
  lemma {:induction false} RemoveEmpty(ops: seq<Operation>, x: Operation)
    ensures |Remove(ops, x)| == 0 <==> forall i :: 0 <= i < |ops| ==> ops[i] == x
  {
    if |ops| > 0 {
      RemoveEmpty(ops[1..], x);
      assert forall i :: 1 <= i < |ops| ==> ops[i] == ops[1..][i - 1];
    }
  }

  /** The list after toggling x: without x if it was there, with x
      appended otherwise. */
  function Toggled(ops: seq<Operation>, x: Operation): (r: seq<Operation>)
    ensures x in ops ==> r == Remove(ops, x) && x !in r && |r| < |ops|
    ensures x !in ops ==> r == ops + [x]
    ensures forall y :: y != x ==> multiset(r)[y] == multiset(ops)[y]
  {
    if x in ops then
      Remove(ops, x)
    else
      ops + [x]
  }

  /** Toggling flips membership of x and of nothing else. */
  lemma ToggleMembership(ops: seq<Operation>, x: Operation, y: Operation)
    ensures y in Toggled(ops, x) <==> (if y == x then x !in ops else y in ops)
  {
    if x in ops && y != x {
      assert multiset(Toggled(ops, x))[y] == multiset(ops)[y];
    }
  }

  /** Ticking an absent operation and unticking it again gives back the
      original list. */
  lemma ToggleTwiceRestores(ops: seq<Operation>, x: Operation)
    requires x !in ops
    ensures Toggled(Toggled(ops, x), x) == ops
  {
    assert x in ops + [x];
    RemoveAppend(ops, [x], x);
    RemoveAbsent(ops, x);
    assert Remove([x], x) == [] by {
      assert [x][1..] == [];
    }
    assert ops + [] == ops;
  }

  predicate NoDuplicates(ops: seq<Operation>)
  {
    forall i, j :: 0 <= i < j < |ops| ==> ops[i] != ops[j]
  }

  /** A list built only by toggling never holds an operation twice. */
  lemma ToggleKeepsNoDuplicates(ops: seq<Operation>, x: Operation)
    requires NoDuplicates(ops)
    ensures NoDuplicates(Toggled(ops, x))
  {
    if x in ops {
      RemoveKeepsNoDuplicates(ops, x);
    }
  }

  lemma {:induction false} RemoveKeepsNoDuplicates(ops: seq<Operation>, x: Operation)
    requires NoDuplicates(ops)
    ensures NoDuplicates(Remove(ops, x))
  {
    if |ops| > 0 {
      var h, t := ops[0], ops[1..];
      assert NoDuplicates(t) by {
        forall i, j | 0 <= i < j < |t|
          ensures t[i] != t[j]
        {
          assert t[i] == ops[i + 1] && t[j] == ops[j + 1];
        }
      }
      RemoveKeepsNoDuplicates(t, x);
      if h != x {
        var rest := Remove(t, x);
        assert h !in t by {
          forall k | 0 <= k < |t|
            ensures t[k] != h
          {
            assert t[k] == ops[k + 1];
          }
        }
        assert multiset(rest)[h] == multiset(t)[h];
        ConsNoDuplicates(h, rest);
      }
    }
  }

  lemma ConsNoDuplicates(h: Operation, t: seq<Operation>)
    requires h !in t && NoDuplicates(t)
    ensures NoDuplicates([h] + t)
  {
    var s := [h] + t;
    forall i, j | 0 <= i < j < |s|
      ensures s[i] != s[j]
    {
      assert s[j] == t[j - 1];
      if i > 0 {
        assert s[i] == t[i - 1];
      }
    }
  }

  /** handleOperationToggle: the requirements handed to the change
      callback, or None when the callback is not called. */
  function HandleOperationToggle(requirements: Requirements, x: Operation): (r: Option<Requirements>)
    ensures r.None? <==> x in requirements.operations && forall i :: 0 <= i < |requirements.operations| ==> requirements.operations[i] == x
    ensures r.Some? ==> r.value.operations == Toggled(requirements.operations, x) && |r.value.operations| > 0
    ensures r.Some? ==>
      (r.value.steps == requirements.steps && r.value.magnitude == requirements.magnitude &&
       r.value.significantFigures == requirements.significantFigures)
  {
    var ops := Toggled(requirements.operations, x);
    RemoveEmpty(requirements.operations, x);
    if |ops| > 0 then Some(requirements.(operations := ops)) else None
  }
}
