# typelang in Dafny

A model of the interpreter in `typelang.ts`: a tiny string-manipulation
language whose programs are lists of instructions run against one value.

- **Instructions** (`Typelang.Instruction`): `Extend(s)` appends `s`,
  `Uppercase` and `Lowercase` change case, `FirstChar` (tag "car") keeps the
  first character, `RemoveFirstChar` (tag "cdr") drops it, and
  `If(expected, ifTrue, ifFalse)` is the one control-flow form. The field the
  source calls `expect` is named `expected` here, because `expect` is a Dafny
  keyword.
- **Values** (`Typelang.Value`): a string or an `Exception` record holding a
  message and the instruction that failed. Errors are values. Nothing is thrown.
- **`Typelang.Evaluate`** applies one instruction to a value. An exception
  passes through unchanged. `FirstChar` and `RemoveFirstChar` on `""` give
  the two empty-string exceptions. Evaluating an `If` gives
  "Unknown instruction".
- **`Typelang.Execute`** threads the value left to right through a program.
  On an `If` it compares the value with the literal string `expected`, runs
  the chosen branch from the current value, and continues the rest of the
  program from the branch's result. `Typelang.Run` starts from the default
  initial value `""`.

Module `CaseMapping` holds the case conversion. Module `Inlining` holds a
second, independent interpreter. That interpreter never recurses into a
branch: it splices the chosen branch in front of the remaining instructions.
`Inlining.MachineAgreesWithExecute` proves that it computes exactly what
`Execute` computes. Module `Examples` restates the documented sample programs
of `examples.ts` using only instructions that `typelang.ts` defines.

`examples.ts` also uses `SetValue`, `ClearValue`, `CurrentValue`, `While`,
and `Check.Equal`/`NotEqual` conditions over two instructions. It imports
`Check` from `./typelang` (examples.ts:1), so it was written against a larger
version of `typelang.ts`. The `typelang.ts` modelled here defines none of
them, and its `If` compares with a plain string. This model follows that code.

## Model

| member | source | states |
|---|---|---|
| `Typelang.Evaluate` | typelang.ts:49-70 | An exception value is returned unchanged. On a string: `Extend(s)` keeps the string as prefix and appends exactly `s`. `Uppercase`/`Lowercase` give the case-mapped string. `FirstChar` gives the one-character string of its first character, or on `""` the exception ("Empty string, cannot get first character", `FirstChar`). `RemoveFirstChar` gives the remainder, one shorter, which after the first character rebuilds the input, or on `""` the exception ("Empty string, cannot remove first character", `RemoveFirstChar`). `If` gives ("Unknown instruction", the `If`). Any exception a plain instruction raises is one of the two empty-string errors. |
| `Typelang.Execute` | typelang.ts:74-97 | Once the value is an exception, every program, including nested `If`s, returns that same exception. The proof rests on the pass-through rule and on an exception never equalling `expected`. |
| `Typelang.After` | typelang.ts:83-96 | An exception comes out of every instruction's step unchanged, an `If` included. `IfRunsChosenBranch` states which branch an `If` runs. |
| `Typelang.Run` | typelang.ts:74-78 | The default initial value is `""`, so the empty program run without a value gives `""`. |
| `Typelang.EmptyProgram` | typelang.ts:79-97 | The empty program returns its input value unchanged. |
| `Typelang.Sequencing` | typelang.ts:79-96 | For all programs `p`, `q` and values `v`, running `p + q` from `v` equals running `q` from the result of running `p` from `v`. |
| `Typelang.IfRunsChosenBranch` | typelang.ts:85-93 | `[If(e, t, f)] + rest` behaves as `t + rest` when the value equals the string `e`. Otherwise it behaves as `f + rest`; an exception is never equal to a string, so it always takes `f`. |
| `Typelang.ExceptionsComeFromEmptyStrings` | typelang.ts:49-97 | A program started from a string ends in an exception only if it is one of the two empty-string errors. So `Execute` never produces the "Unknown instruction" exception. |
| `Typelang.ExtendsConcatenate` | typelang.ts:54-55 | A run of `Extend(s1) … Extend(sn)` from string `s` yields `s + s1 + … + sn`. |
| `Typelang.RemoveFirstChars` | typelang.ts:64-70 | `n` copies of `RemoveFirstChar` from `s` yield `s[n..]` when `n <= |s|`. Otherwise they yield the "cannot remove first character" exception, which later instructions pass on unchanged. |
| `Typelang.FirstCharThenRest` | typelang.ts:60-67 | On a non-empty string, `FirstChar`'s result followed by `RemoveFirstChar`'s result is the original string. |
| `Typelang.UppercaseTwice` | typelang.ts:56-57 | Running `Uppercase` twice gives the same value as running it once, for strings and exceptions alike. |
| `CaseMapping.UpperChar` | typelang.ts:56-57 | A lower-case ASCII letter becomes its capital, 32 code points lower. Every other character is unchanged. The result is never a lower-case letter. |
| `CaseMapping.LowerChar` | typelang.ts:58-59 | A capital ASCII letter becomes its lower-case letter, 32 code points higher. Every other character is unchanged. The result is never a capital. |
| `CaseMapping.ToUpper` | typelang.ts:56-57 | Keeps the length and leaves no lower-case letter. Each character differs from the input's only in case. |
| `CaseMapping.ToLower` | typelang.ts:58-59 | Keeps the length and leaves no capital. Each character differs from the input's only in case. |
| `CaseMapping.UpperIdempotent` | typelang.ts:56-57 | Upper-casing twice equals upper-casing once. |
| `CaseMapping.LowerIdempotent` | typelang.ts:58-59 | Lower-casing twice equals lower-casing once. |
| `CaseMapping.CaseForgetsPreviousCase` | typelang.ts:56-59 | In the ASCII model, lower-casing after upper-casing equals lower-casing alone, and the other way round. |
| `CaseMapping.UpperFixedPoint` | typelang.ts:56-57 | A string is unchanged by upper-casing if and only if it has no lower-case letter. |
| `Inlining.MachineAgreesWithExecute` | typelang.ts:79-96 | `Execute` equals a work-list interpreter on every program and value. That interpreter evaluates plain instructions one by one and replaces an `If` by its chosen branch spliced in front of the remaining instructions. |
| `Examples.AddStrings` | examples.ts:3-11 | `Extend` "a", "b", "c", "d" from `""` gives "abcd". |
| `Examples.ThirdCharUppercase` | examples.ts:13-22 | From "abcd": two `RemoveFirstChar`, then `Uppercase`, then `FirstChar` give "C". |
| `Examples.RemoveFromExhaustedString` | examples.ts:24-35 | The third `RemoveFirstChar` after "ab" gives the "cannot remove first character" exception for `RemoveFirstChar`. |
| `Examples.IfElse` | examples.ts:37-52 | From "a", `If("a", [Extend b], [Extend x])` then `If("b", [Extend x], [Extend c])` give "abc". |
| `Examples.ExceptionPassesThroughIf` | typelang.ts:91-93 | The `FirstChar` empty-string exception that reaches `If("", [], [Extend("x")])` and a later `Extend` comes out unchanged, whatever the branches. |

## Left out

- `CaseMapping.ToUpper`, `CaseMapping.ToLower`, `CaseMapping.UpperChar`, `CaseMapping.LowerChar`: they map only the ASCII letters, one character at a time. The source delegates to the host's Unicode case conversion, which also maps other letters and can change a string's length.
- `CaseMapping.CaseForgetsPreviousCase`: the identity holds for the ASCII mapping only. With the host's Unicode conversion, lower-casing the upper-cased dotless "ı" gives "i", while lower-casing "ı" gives "ı".
- `Typelang.Evaluate`: `FirstChar` and `RemoveFirstChar` split off one Dafny `char`, a Unicode scalar value. The source's template-literal match (typelang.ts:61, 65) splits off one character of a JavaScript string, a UTF-16 code unit, so characters outside the Basic Multilingual Plane are split differently.
- The "Unknown control flow instruction" arm (typelang.ts:94) is not modelled. `If` is the only control-flow form, so the match in `After` is exhaustive and the arm cannot be reached.
- Type-level mechanics are not modelled: distribution of conditional types over unions, values widened to the non-literal `string` (for which `Value extends Expect` behaves differently), and the compiler's limit on instantiation depth. The model runs concrete strings and programs of any length.
- `SetValue`, `ClearValue`, `CurrentValue`, `While` and `Check.Equal`/`NotEqual` are not part of this model. `examples.ts` uses them, but `typelang.ts` does not define them, so their meaning is not known here.
- The `whileLoop` sample (examples.ts:54-67) is not restated, because it needs `While`. The other samples replace `SetValue<"…">` from `""` by `Extend<"…">`, and `Check.Equal` against a literal by the plain `If` string.
