/**
  Enhanced error values: an integer classification code together with a
  private message (internal diagnostics) and a public message (for untrusted
  audiences).

  The package-level mutable `DefaultCode` is not global state here: the
  constructors that read it take its current value as the explicit parameter
  `defaultCode`. Its sequential history is modelled in module `DefaultCodeHistory`.
 */
module Errors {

  /** Go's `int`, taken as the 64-bit signed integer of the usual platforms.
      No operation does arithmetic on a code, so no wrap-around arises. */
  const MinInt: int := -0x8000_0000_0000_0000
  const MaxInt: int := 0x7FFF_FFFF_FFFF_FFFF
  newtype GoInt = x: int | MinInt <= x <= MaxInt

  /** The value `DefaultCode` holds when the program starts. */
  const InitialDefaultCode: GoInt := 0

  /** The one implementation of the `Error` interface. All three fields are
      fixed at construction; nothing updates them afterwards. */
  datatype GenericError = GenericError(code: GoInt, private: string, public: string) {

    /** The error class. */
    function Code(): GoInt { code }

    /** The detailed message, possibly revealing internal structure. */
    function Private(): string { private }

    /** The message meant for untrusted third parties. Nothing checks that it
        is free of internal detail; that is the caller's responsibility. */
    function Public(): string { public }

    /** The builtin `error` interface's single message: the private one. */
    function Error(): (s: string)
      ensures s == Private()
    {
      private
    }
  }

  /** Builds an error whose code is the current value of `DefaultCode`,
      passed in as `defaultCode`. Total: any strings, no failure path. */
  function NewErrorDefaultCode(defaultCode: GoInt, private: string, public: string): (e: GenericError)
    ensures e.Code() == defaultCode
    ensures e.Private() == private
    ensures e.Public() == public
    ensures e.Error() == private
  {
    GenericError(defaultCode, private, public)
  }

  /** Builds an error with an explicit code. Total: any strings, any code. */
  function NewError(private: string, public: string, code: GoInt): (e: GenericError)
    ensures e.Code() == code
    ensures e.Private() == private
    ensures e.Public() == public
    ensures e.Error() == private
  {
    GenericError(code, private, public)
  }

  /** The drop-in replacement for the standard library's `errors.New`: both
      messages are `text`, the code is the current `DefaultCode`. */
  function New(defaultCode: GoInt, text: string): (e: GenericError)
    ensures e == NewErrorDefaultCode(defaultCode, text, text)
    ensures e.Code() == defaultCode
    ensures e.Private() == text && e.Public() == text
    ensures e.Error() == text
  {
    NewErrorDefaultCode(defaultCode, text, text)
  }

  /** The default-code constructor is the explicit-code constructor applied
      to whatever `DefaultCode` holds at the call. */
  lemma DefaultCodeIsExplicitCode(defaultCode: GoInt, private: string, public: string)
    ensures NewErrorDefaultCode(defaultCode, private, public) == NewError(private, public, defaultCode)
  {
  }

  /** The accessors lose nothing: rebuilding a value from what its accessors
      report gives back the same value. So every error value is reachable by
      `NewError`, and two values agree exactly when all three accessors agree. */
  lemma AccessorsDetermineValue(e: GenericError, e': GenericError)
    ensures NewError(e.Private(), e.Public(), e.Code()) == e
    ensures e == e' <==> (e.Code() == e'.Code() && e.Private() == e'.Private() && e.Public() == e'.Public())
  {
  }

  /** Two calls of `NewError` yield the same value exactly when their
      arguments agree. */
  lemma NewErrorInjective(p: string, q: string, c: GoInt, p': string, q': string, c': GoInt)
    ensures NewError(p, q, c) == NewError(p', q', c') <==> (p == p' && q == q' && c == c')
  {
  }

  /** Unless the program assigns `DefaultCode`, `New` yields code 0. */
  lemma NewWithUntouchedDefault(text: string)
    ensures New(InitialDefaultCode, text).Code() == 0
    ensures New(InitialDefaultCode, text).Private() == text
    ensures New(InitialDefaultCode, text).Public() == text
  {
  }
}
