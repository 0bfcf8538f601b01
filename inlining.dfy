/** A reference semantics for `Execute`: a work-list interpreter that never
    recurses into a branch. It evaluates plain instructions one at a time and,
    on an `If`, splices the chosen branch in front of the remaining work. */
module Inlining {
  import opened Typelang

  /** Number of instructions in a program, counting those nested in `If`
      branches; it bounds the work-list interpreter's steps. */
  function Size(p: Program): nat
    decreases p
  {
    if p == [] then 0
    else
      (match p[0]
       case If(_, t, f) => 1 + Size(t) + Size(f)
       case _ => 1)
      + Size(p[1..])
  }

  lemma {:induction false} SizeAppend(a: Program, b: Program)
    ensures Size(a + b) == Size(a) + Size(b)
  {
    if a == [] {
      assert a + b == b;
    } else {
      assert (a + b)[0] == a[0];
      assert (a + b)[1..] == a[1..] + b;
      SizeAppend(a[1..], b);
    }
  }

  function Machine(p: Program, v: Value): (r: Value)
    decreases Size(p)
  {
    if p == [] then v
    else
      match p[0]
      case If(expected, t, f) =>
        var branch := if v == Str(expected) then t else f;
        SizeAppend(branch, p[1..]);
        Machine(branch + p[1..], v)
      case _ => Machine(p[1..], Evaluate(p[0], v))
  }

  /** `Execute` computes exactly what the work-list interpreter computes. */
  lemma {:induction false} MachineAgreesWithExecute(p: Program, v: Value)
    ensures Machine(p, v) == Execute(p, v)
    decreases Size(p)
  {
    if p != [] {
      match p[0]
      case If(expected, t, f) =>
        var branch := if v == Str(expected) then t else f;
        SizeAppend(branch, p[1..]);
        MachineAgreesWithExecute(branch + p[1..], v);
        Sequencing(branch, p[1..], v);
      case _ =>
        MachineAgreesWithExecute(p[1..], Evaluate(p[0], v));
    }
  }
}
