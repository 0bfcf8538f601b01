/** A string-manipulation language and its interpreter: a closed set of
    instructions, values that are a string or an exception record, a
    single-step evaluator and a program executor that threads one value left
    to right through a list of instructions. Errors are values, never thrown. */
module Typelang {
  import opened CaseMapping

  /** The closed instruction set. `FirstChar` and `RemoveFirstChar` are the
      instructions tagged "car" and "cdr"; `If` is the only control-flow form
      and compares the current value with the literal string `expected`. */
  datatype Instruction =
    | Extend(suffix: string)
    | Uppercase
    | Lowercase
    | FirstChar
    | RemoveFirstChar
    | If(expected: string, ifTrue: seq<Instruction>, ifFalse: seq<Instruction>)

  type Program = seq<Instruction>

  /** An error record: the cause and the instruction that produced it. */
  datatype Exception = Exception(message: string, instruction: Instruction)

  /** The value threaded through a program: a string or an exception. */
  datatype Value = Str(text: string) | Exc(exception: Exception)

  const FirstCharOfEmpty := "Empty string, cannot get first character"
  const RemoveFirstCharOfEmpty := "Empty string, cannot remove first character"
  const UnknownInstruction := "Unknown instruction"

  /** The two errors a plain instruction can raise: `FirstChar` or
      `RemoveFirstChar` applied to the empty string. */
  predicate IsEmptyStringError(e: Exception) {
    || e == Exception(FirstCharOfEmpty, FirstChar)
    || e == Exception(RemoveFirstCharOfEmpty, RemoveFirstChar)
  }

  /** Applies one instruction to a value. An exception passes through every
      instruction unchanged. `If` is not a plain instruction: evaluating it
      yields the "Unknown instruction" exception. */
  function Evaluate(i: Instruction, v: Value): (r: Value)
    ensures v.Exc? ==> r == v
    ensures v.Str? && i.Extend? ==>
      r.Str? && |r.text| == |v.text| + |i.suffix|
      && r.text[..|v.text|] == v.text && r.text[|v.text|..] == i.suffix
    ensures v.Str? && i.Uppercase? ==> r == Str(ToUpper(v.text))
    ensures v.Str? && i.Lowercase? ==> r == Str(ToLower(v.text))
    ensures v.Str? && i.FirstChar? ==>
      if v.text == "" then r == Exc(Exception(FirstCharOfEmpty, FirstChar))
      else r.Str? && |r.text| == 1 && r.text[0] == v.text[0]
    ensures v.Str? && i.RemoveFirstChar? ==>
      if v.text == "" then r == Exc(Exception(RemoveFirstCharOfEmpty, RemoveFirstChar))
      else r.Str? && |r.text| == |v.text| - 1 && [v.text[0]] + r.text == v.text
    ensures v.Str? && i.If? ==> r == Exc(Exception(UnknownInstruction, i))
    ensures v.Str? && !i.If? && r.Exc? ==> IsEmptyStringError(r.exception)
  {
    match v
    case Exc(_) => v
    case Str(s) =>
      match i
      case Extend(suffix) => Str(s + suffix)
      case Uppercase => Str(ToUpper(s))
      case Lowercase => Str(ToLower(s))
      case FirstChar =>
        if s == "" then Exc(Exception(FirstCharOfEmpty, i)) else Str([s[0]])
      case RemoveFirstChar =>
        if s == "" then Exc(Exception(RemoveFirstCharOfEmpty, i)) else Str(s[1..])
      case If(_, _, _) => Exc(Exception(UnknownInstruction, i))
  }

  /** Runs a program from value `v`: each instruction in turn, the rest of
      the program continuing from the value the instruction leaves behind.
      Once the value is an exception, it is the result of every program. */
  function Execute(p: Program, v: Value): (r: Value)
    decreases p
    ensures v.Exc? ==> r == v
  {
    if p == [] then v else Execute(p[1..], After(p[0], v))
  }

  /** The value one instruction of a program leaves behind. A plain
      instruction is evaluated; an `If` runs `ifTrue` when the current value
      is the string `expected` and `ifFalse` otherwise (an exception never
      equals `expected`). */
  function After(i: Instruction, v: Value): (r: Value)
    decreases i
    ensures v.Exc? ==> r == v
  {
    match i
    case If(expected, ifTrue, ifFalse) =>
      if v == Str(expected) then Execute(ifTrue, v) else Execute(ifFalse, v)
    case _ => Evaluate(i, v)
  }

  /** Runs a program from the default initial value, the empty string. */
  function Run(p: Program): (r: Value)
    ensures p == [] ==> r == Str("")
  {
    Execute(p, Str(""))
  }

  lemma EmptyProgram(v: Value)
    ensures Execute([], v) == v
    ensures Run([]) == Str("")
  {
  }

  /** Running `p + q` is running `p`, then `q` from where `p` stopped. */
  lemma {:induction false} Sequencing(p: Program, q: Program, v: Value)
    ensures Execute(p + q, v) == Execute(q, Execute(p, v))
  {
    if p == [] {
      assert p + q == q;
    } else {
      assert (p + q)[0] == p[0];
      assert (p + q)[1..] == p[1..] + q;
      Sequencing(p[1..], q, After(p[0], v));
    }
  }

  /** An `If` in front of `rest` behaves as its chosen branch spliced in
      front of `rest`: `ifTrue` when the value equals `expected`, `ifFalse`
      otherwise. An exception is never a `Str`, so it always takes `ifFalse`. */
  lemma {:induction false} IfRunsChosenBranch(expected: string, t: Program, f: Program, rest: Program, v: Value)
    ensures v == Str(expected) ==> Execute([If(expected, t, f)] + rest, v) == Execute(t + rest, v)
    ensures v != Str(expected) ==> Execute([If(expected, t, f)] + rest, v) == Execute(f + rest, v)
  {
    var p := [If(expected, t, f)] + rest;
    assert p[0] == If(expected, t, f) && p[1..] == rest;
    Sequencing(t, rest, v);
    Sequencing(f, rest, v);
  }

  /** Started from a string, a program ends in an exception only when some
      `FirstChar` or `RemoveFirstChar` met the empty string: the
      "Unknown instruction" error is never produced by `Execute`. */
  lemma {:induction false} ExceptionsComeFromEmptyStrings(p: Program, s: string)
    ensures Execute(p, Str(s)).Exc? ==> IsEmptyStringError(Execute(p, Str(s)).exception)
  {
    if p != [] {
      var w := After(p[0], Str(s));
      match p[0]
      case If(expected, t, f) =>
        if Str(s) == Str(expected) {
          ExceptionsComeFromEmptyStrings(t, s);
        } else {
          ExceptionsComeFromEmptyStrings(f, s);
        }
        if w.Str? {
          ExceptionsComeFromEmptyStrings(p[1..], w.text);
        }
      case _ =>
        if w.Str? {
          ExceptionsComeFromEmptyStrings(p[1..], w.text);
        }
    }
  }

  /** A program of `Extend` instructions, one per string of `ss`. */
  function Extends(ss: seq<string>): Program
  {
    seq(|ss|, k requires 0 <= k < |ss| => Extend(ss[k]))
  }

  function Concat(ss: seq<string>): string {
    if ss == [] then "" else ss[0] + Concat(ss[1..])
  }

  /** A run of `Extend` instructions appends their strings in order. */
  lemma {:induction false} ExtendsConcatenate(ss: seq<string>, s: string)
    ensures Execute(Extends(ss), Str(s)) == Str(s + Concat(ss))
  {
    if ss != [] {
      var p := Extends(ss);
      assert p[0] == Extend(ss[0]);
      assert p[1..] == Extends(ss[1..]);
      assert After(p[0], Str(s)) == Str(s + ss[0]);
      ExtendsConcatenate(ss[1..], s + ss[0]);
      assert s + ss[0] + Concat(ss[1..]) == s + Concat(ss);
    }
  }

  /** The program made of `n` copies of instruction `i`. */
  function Repeat(i: Instruction, n: nat): Program
  {
    seq(n, _ => i)
  }

  /** `n` `RemoveFirstChar` instructions drop the first `n` characters while
      there are enough of them; one more raises the empty-string error, which
      the remaining instructions pass on unchanged. */
  lemma {:induction false} RemoveFirstChars(s: string, n: nat)
    ensures Execute(Repeat(RemoveFirstChar, n), Str(s))
         == if n <= |s| then Str(s[n..])
            else Exc(Exception(RemoveFirstCharOfEmpty, RemoveFirstChar))
  {
    if n == 0 {
      assert s[0..] == s;
    } else {
      var p := Repeat(RemoveFirstChar, n);
      assert p[1..] == Repeat(RemoveFirstChar, n - 1);
      if s != "" {
        assert Execute(p, Str(s)) == Execute(Repeat(RemoveFirstChar, n - 1), Str(s[1..]));
        RemoveFirstChars(s[1..], n - 1);
        assert n <= |s| ==> s[1..][n - 1..] == s[n..];
      }
    }
  }

  /** On a non-empty string, the first character followed by the remainder
      gives the string back. */
  lemma FirstCharThenRest(s: string)
    requires s != ""
    ensures Evaluate(FirstChar, Str(s)).Str? && Evaluate(RemoveFirstChar, Str(s)).Str?
    ensures Evaluate(FirstChar, Str(s)).text + Evaluate(RemoveFirstChar, Str(s)).text == s
  {
  }

  /** Applying `Uppercase` twice is the same as applying it once. */
  lemma UppercaseTwice(v: Value)
    ensures Execute([Uppercase, Uppercase], v) == Execute([Uppercase], v)
  {
    if v.Str? {
      UpperIdempotent(v.text);
    }
  }
}
