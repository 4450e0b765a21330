/**
  The package-level variable `DefaultCode` over a sequential run of a program
  that uses the package: the program may assign `DefaultCode` and call the
  three constructors in any order. The state records the current value of
  `DefaultCode` and every error value built so far, oldest first.

  The lemmas show that construction captures the code by value: each
  default-code constructor records the `DefaultCode` of its own call, and no
  later assignment reaches back into a value already built.
 */
module DefaultCodeHistory {
  import opened Errors

  /** One step of a sequential program that uses the package. */
  datatype Call =
    | AssignDefaultCode(code: GoInt)
    | CallNewErrorDefaultCode(private: string, public: string)
    | CallNewError(private: string, public: string, code: GoInt)
    | CallNew(text: string)

  /** The current value of `DefaultCode` and the error values built so far. */
  datatype State = State(defaultCode: GoInt, built: seq<GenericError>)

  /** A program's state before its first step. */
  const Start: State := State(InitialDefaultCode, [])

  /** The value a constructor call yields when `DefaultCode` holds `defaultCode`. */
  function Construct(defaultCode: GoInt, call: Call): GenericError
    requires !call.AssignDefaultCode?
  {
    match call
    case CallNewErrorDefaultCode(p, q) => NewErrorDefaultCode(defaultCode, p, q)
    case CallNewError(p, q, c) => NewError(p, q, c)
    case CallNew(text) => New(defaultCode, text)
  }

  /** Executes one call. Only an assignment changes `DefaultCode`; only a
      constructor call adds a value; nothing alters a value already built. */
  function Step(s: State, call: Call): (t: State)
    ensures s.built <= t.built
    ensures call.AssignDefaultCode? <==> |t.built| == |s.built|
    ensures !call.AssignDefaultCode? ==> |t.built| == |s.built| + 1
    ensures call.AssignDefaultCode? ==> t.defaultCode == call.code
    ensures !call.AssignDefaultCode? ==> t.defaultCode == s.defaultCode
  {
    if call.AssignDefaultCode? then State(call.code, s.built)
    else State(s.defaultCode, s.built + [Construct(s.defaultCode, call)])
  }

  /** Executes the calls in order. */
  function Run(s: State, calls: seq<Call>): State
    decreases |calls|
  {
    if calls == [] then s else Run(Step(s, calls[0]), calls[1..])
  }

  /** The value of `DefaultCode` after `calls`, read off the program text:
      the code of the last assignment, or `initial` when there is none. */
  function LastAssigned(initial: GoInt, calls: seq<Call>): GoInt
    decreases |calls|
  {
    if calls == [] then initial
    else if calls[|calls| - 1].AssignDefaultCode? then calls[|calls| - 1].code
    else LastAssigned(initial, calls[..|calls| - 1])
  }

  /** The number of constructor calls among `calls`. */
  function Constructions(calls: seq<Call>): nat
    decreases |calls|
  {
    if calls == [] then 0
    else (if calls[0].AssignDefaultCode? then 0 else 1) + Constructions(calls[1..])
  }

  /** Running two pieces of program one after the other is running their
      concatenation. */
  lemma {:induction false} RunAppend(s: State, a: seq<Call>, b: seq<Call>)
    ensures Run(s, a + b) == Run(Run(s, a), b)
    decreases |a|
  {
    if a == [] {
      assert a + b == b;
    } else {
      assert (a + b)[1..] == a[1..] + b;
      RunAppend(Step(s, a[0]), a[1..], b);
    }
  }

  /** Running a program is its prefix followed by its last call. */
  lemma RunSnoc(s: State, calls: seq<Call>)
    requires calls != []
    ensures Run(s, calls) == Step(Run(s, calls[..|calls| - 1]), calls[|calls| - 1])
  {
    var n := |calls| - 1;
    assert calls == calls[..n] + [calls[n]];
    RunAppend(s, calls[..n], [calls[n]]);
  }

  /** Values already built survive any later program unchanged, whatever it
      assigns to `DefaultCode`: the old list is a prefix of the new one. */
  lemma {:induction false} RunKeepsBuilt(s: State, calls: seq<Call>)
    ensures s.built <= Run(s, calls).built
    ensures forall i :: 0 <= i < |s.built| ==> Run(s, calls).built[i].Code() == s.built[i].Code()
    decreases |calls|
  {
    if calls != [] {
      RunKeepsBuilt(Step(s, calls[0]), calls[1..]);
    }
  }

  /** A run adds exactly one value per constructor call. */
  lemma {:induction false} RunCountsConstructions(s: State, calls: seq<Call>)
    ensures |Run(s, calls).built| == |s.built| + Constructions(calls)
    decreases |calls|
  {
    if calls != [] {
      RunCountsConstructions(Step(s, calls[0]), calls[1..]);
    }
  }

  /** After a run, `DefaultCode` holds the last value the program assigned,
      or its value before the run when the program assigns nothing. */
  lemma {:induction false} RunDefaultCode(s: State, calls: seq<Call>)
    ensures Run(s, calls).defaultCode == LastAssigned(s.defaultCode, calls)
    decreases |calls|
  {
    if calls != [] {
      RunSnoc(s, calls);
      RunDefaultCode(s, calls[..|calls| - 1]);
    }
  }

  /** The value built by the constructor call `calls[i]` is what that
      constructor yields with the `DefaultCode` of that moment. In particular
      the default-code constructors record the code current at their call,
      and later assignments do not change it. */
  lemma CodeCapturedAtCall(s: State, calls: seq<Call>, i: nat)
    requires i < |calls| && !calls[i].AssignDefaultCode?
    ensures |Run(s, calls[..i]).built| < |Run(s, calls).built|
    ensures Run(s, calls).built[|Run(s, calls[..i]).built|]
         == Construct(Run(s, calls[..i]).defaultCode, calls[i])
    ensures !calls[i].CallNewError? ==>
              (Run(s, calls).built[|Run(s, calls[..i]).built|].Code()
               == LastAssigned(s.defaultCode, calls[..i]))
  {
    var before := Run(s, calls[..i]);
    var after := Step(before, calls[i]);
    assert calls[..i + 1][..i] == calls[..i];
    RunSnoc(s, calls[..i + 1]);
    assert Run(s, calls[..i + 1]) == after;
    assert calls == calls[..i + 1] + calls[i + 1..];
    RunAppend(s, calls[..i + 1], calls[i + 1..]);
    RunKeepsBuilt(after, calls[i + 1..]);
    assert after.built[|before.built|] == Construct(before.defaultCode, calls[i]);
    RunDefaultCode(s, calls[..i]);
  }

  /** Assigning `DefaultCode` after `New` leaves the earlier value's code as
      it was, and a `New` after the assignment picks up the new code. */
  lemma AssignAfterNew(s: State, text: string, code: GoInt)
    ensures Run(s, [CallNew(text), AssignDefaultCode(code), CallNew(text)]).built
         == s.built + [New(s.defaultCode, text), New(code, text)]
  {
    var calls := [CallNew(text), AssignDefaultCode(code), CallNew(text)];
    assert calls[1..] == [AssignDefaultCode(code), CallNew(text)];
    assert calls[1..][1..] == [CallNew(text)];
    assert calls[1..][1..][1..] == [];
    var s1 := Step(s, CallNew(text));
    var s2 := Step(s1, AssignDefaultCode(code));
    var s3 := Step(s2, CallNew(text));
    assert Run(s, calls) == Run(s1, calls[1..]) == Run(s2, calls[1..][1..]) == Run(s3, []);
  }

  /** A program that never assigns `DefaultCode` leaves it at 0, so each of
      its default-code constructions yields code 0. */
  lemma {:induction false} UntouchedDefaultIsZero(calls: seq<Call>)
    requires forall k :: 0 <= k < |calls| ==> !calls[k].AssignDefaultCode?
    ensures LastAssigned(Start.defaultCode, calls) == 0
    ensures Run(Start, calls).defaultCode == 0
    decreases |calls|
  {
    if calls != [] {
      UntouchedDefaultIsZero(calls[..|calls| - 1]);
    }
    RunDefaultCode(Start, calls);
  }
}
