# Enhanced errors, modelled in Dafny

The Go package `errors` represents an error condition as an immutable value
with three parts: an integer classification `code`, a `private` message that
may reveal the internal structure of the system, and a `public` message meant
for untrusted third parties. Values are built by three constructors —
`NewError` (explicit code), `NewErrorDefaultCode` and `New` (both read the
package-level variable `DefaultCode`, initially 0) — and read through the
accessors `Code`, `Private`, `Public` and the compatibility method `Error`,
which returns the private message.

- `errors.dfy`, module `Errors`: the value type `GenericError` with its
  accessors, the three constructors, and lemmas about them. `DefaultCode` is
  not global state: the two constructors that read it take its current value
  as the parameter `defaultCode`. Go's `int` is the bounded newtype `GoInt`
  (64-bit signed); no operation does arithmetic on a code.
- `history.dfy`, module `DefaultCodeHistory`: a sequential program that
  assigns `DefaultCode` and calls constructors in any order, as a list of
  `Call`s executed by `Run`. Its lemmas show that a constructor captures the
  code of its own call by value and that no later assignment reaches back
  into a value already built.

Accessors are Dafny functions, so they cannot change a field or
`DefaultCode`; their behaviour is stated through the constructors' contracts
and `Errors.AccessorsDetermineValue`. All constructors are total: no
`requires`, any strings (the empty one included), any code, no failure path.

## Model

| member | source | states |
|---|---|---|
| Errors.GenericError.Error | errors.go:53-54 | the builtin error interface's message is the private message |
| Errors.NewErrorDefaultCode | errors.go:56-64 | the value reports the `DefaultCode` current at the call as its code and the two given messages, for any strings |
| Errors.NewError | errors.go:66-74 | the value reports exactly the given code, private and public messages, for any strings and any code |
| Errors.New | errors.go:76-83 | `New(text)` is `NewErrorDefaultCode(text, text)`: both messages are `text`, the code is the current `DefaultCode` |
| Errors.DefaultCodeIsExplicitCode | errors.go:58-74 | the default-code constructor equals the explicit-code constructor given the current `DefaultCode` |
| Errors.AccessorsDetermineValue | errors.go:43-51 | the three accessors expose the whole value: rebuilding from them yields the same value, and two values are equal exactly when all accessors agree |
| Errors.NewErrorInjective | errors.go:68-74 | two `NewError` calls give equal values if and only if their arguments are equal |
| Errors.NewWithUntouchedDefault | errors.go:26-28 | with `DefaultCode` at its initial value, `New(text)` has code 0 and both messages `text` |
| DefaultCodeHistory.Step | errors.go:26-28 | one program step: only an assignment changes `DefaultCode`, only a constructor call adds a value, and values already built stay as they were |
| DefaultCodeHistory.RunKeepsBuilt | errors.go:43-51 | over any later program, whatever it assigns to `DefaultCode`, the values built so far stay unchanged, codes included |
| DefaultCodeHistory.RunCountsConstructions | errors.go:58-83 | every constructor call, and nothing else, yields one new value |
| DefaultCodeHistory.RunDefaultCode | errors.go:26-28 | after a program, `DefaultCode` holds the last value assigned, or its earlier value if nothing was assigned |
| DefaultCodeHistory.CodeCapturedAtCall | errors.go:58-64 | the value built by a constructor call is that constructor's result for the `DefaultCode` of that moment, which is the last value assigned before the call |
| DefaultCodeHistory.AssignAfterNew | errors.go:76-83 | `New`, then an assignment to `DefaultCode`, then `New` again: the first value keeps the old code, the second gets the new one |
| DefaultCodeHistory.UntouchedDefaultIsZero | errors.go:26-28 | in a program that never assigns `DefaultCode`, it stays 0 |

## Left out

- The Go interfaces `Error` (errors.go:30-41) and the builtin `error`: the model has one datatype with member functions, and interface satisfaction is a property of Go's type system, not of the behaviour.
- "A nil value represents no error" (errors.go:20) is a convention for callers; a caller would wrap the value in an option type, and this code does nothing with it.
- Concurrent assignment to `DefaultCode`: the model is sequential.
- Whether a public message is actually free of internal detail (errors.go:12-14): the code checks nothing, so the model checks nothing.
- Go's `int` is 32 bits on some platforms; the model fixes it at 64 bits. Since codes are only copied, the width bounds which codes exist and nothing else.
