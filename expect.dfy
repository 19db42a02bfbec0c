/** `get_values` in crates/repl_expect/src/lib.rs: decode the values of the
    variables of a failed expectation, one after another, from the shared
    buffer, starting at `startOffset`.

    The type machinery it leans on is not part of this model and enters as
    parameters: `layoutOf` stands for `LayoutCache::from_var` (its `.unwrap()`
    becomes the precondition that every layout the loop reaches resolves), and `toAst` stands
    for `jit_to_ast`, which, given a layout, either fails or makes one cursor
    call whose transform performs some reads (a `Call`).
 */
module Expect {
  import opened Memory
  import opened App

  datatype Option<T> = None | Some(value: T)

  /** The error `jit_to_ast` reports. */
  datatype ToAstProblem = ToAstProblem(reason: string)

  datatype Result<T> = Ok(value: T) | Err(error: ToAstProblem)

  /** What `jit_to_ast` does with a layout: one cursor call, with the reads
      its transform makes, or a failure before any read. */
  datatype Call =
    | Fixed(retSize: nat, slotPlan: seq<byte> -> seq<Read>)  // call_function
    | List(slotPlan: seq<byte> -> seq<Read>)                 // call_function_returns_roc_list
    | RocStr(addrPlan: nat -> seq<Read>)                    // call_function_returns_roc_str
    | Dynamic(retBytes: nat, addrPlan: nat -> seq<Read>)    // call_function_dynamic_size
    | Fail(problem: ToAstProblem)

  /** Every read the call makes at offset `at` stays inside the buffer. */
  predicate CallReadable(mem: seq<byte>, at: nat, c: Call) {
    match c
    case Fixed(n, t) => at + n <= |mem| && AllReadable(mem, t(mem[at..at + n]))
    case List(t) => at + WIDTH <= |mem| && AllReadable(mem, t(mem[at..at + WIDTH]))
    case RocStr(t) => at + WIDTH <= |mem| && AllReadable(mem, t(at))
    case Dynamic(_, t) => AllReadable(mem, t(at))
    case Fail(_) => true
  }

  /** The cursor's offset after the call made at `at`; it never moves back. */
  function Advance(mem: seq<byte>, at: nat, c: Call): (next: nat)
    requires CallReadable(mem, at, c)
    ensures next >= at
    ensures c.Fail? ==> next == at
  {
    match c
    case Fixed(n, t) => at + n + TotalCost(t(mem[at..at + n]))
    case List(t) => at + WIDTH + TotalCost(t(mem[at..at + WIDTH]))
    case RocStr(t) => at + ProbeCost(mem, at) + TotalCost(t(at)) + HeapLength(mem, at)
    case Dynamic(_, t) => at + TotalCost(t(at))
    case Fail(_) => at
  }

  /** What the call made at `at` returns. */
  function Outcome(mem: seq<byte>, at: nat, c: Call): (r: Result<Expr>)
    requires CallReadable(mem, at, c)
    ensures r.Err? <==> c.Fail?
  {
    match c
    case Fixed(n, t) => Ok(Built(Slot(mem[at..at + n]), ValuesOf(mem, t(mem[at..at + n]))))
    case List(t) => Ok(Built(Slot(mem[at..at + WIDTH]), ValuesOf(mem, t(mem[at..at + WIDTH]))))
    case RocStr(t) => Ok(Built(Addr(at), ValuesOf(mem, t(at))))
    case Dynamic(_, t) => Ok(Built(Addr(at), ValuesOf(mem, t(at))))
    case Fail(p) => Err(p)
  }

  /** The `jit_to_ast` call: dispatches to the cursor call its layout picks. */
  method JitToAst(app: ExpectReplApp, c: Call) returns (r: Result<Expr>)
    requires CallReadable(app.memory.bytes, app.offset, c)
    modifies app, app.memory
    ensures r == Outcome(app.memory.bytes, old(app.offset), c)
    ensures app.offset == Advance(app.memory.bytes, old(app.offset), c)
  {
    match c {
      case Fixed(n, t) =>
        var e := app.CallFunction(n, t);
        r := Ok(e);
      case List(t) =>
        var e := app.CallFunctionReturnsRocList(t);
        r := Ok(e);
      case RocStr(t) =>
        var e := app.CallFunctionReturnsRocStr(t);
        r := Ok(e);
      case Dynamic(n, t) =>
        var e := app.CallFunctionDynamicSize(n, t);
        r := Ok(e);
      case Fail(p) =>
        r := Err(p);
    }
  }

  /** Every call, made where the previous one left the cursor, stays inside
      the buffer (up to the first failure). */
  predicate Decodable(mem: seq<byte>, at: nat, calls: seq<Call>)
    decreases |calls|
  {
    calls == [] ||
    (CallReadable(mem, at, calls[0]) &&
     (calls[0].Fail? || Decodable(mem, Advance(mem, at, calls[0]), calls[1..])))
  }

  /** The result of a run of calls: the final offset and one expression per
      call, or the first failure. */
  function DecodeAll(mem: seq<byte>, at: nat, calls: seq<Call>): (r: Result<(nat, seq<Expr>)>)
    requires Decodable(mem, at, calls)
    ensures r.Ok? ==> |r.value.1| == |calls| && r.value.0 >= at
    decreases |calls|
  {
    if calls == [] then Ok((at, []))
    else
      match Outcome(mem, at, calls[0])
      case Err(p) => Err(p)
      case Ok(e) => Then([e], DecodeAll(mem, Advance(mem, at, calls[0]), calls[1..]))
  }

  /** The expressions `done` already collected, followed by the outcome of
      the rest. */
  function Then(done: seq<Expr>, rest: Result<(nat, seq<Expr>)>): Result<(nat, seq<Expr>)> {
    match rest
    case Ok((o, es)) => Ok((o, done + es))
    case Err(p) => Err(p)
  }

  lemma ThenNothing(rest: Result<(nat, seq<Expr>)>)
    ensures Then([], rest) == rest
  {
    if rest.Ok? {
      assert [] + rest.value.1 == rest.value.1;
    }
  }

  lemma ThenThen(a: seq<Expr>, b: seq<Expr>, rest: Result<(nat, seq<Expr>)>)
    ensures Then(a, Then(b, rest)) == Then(a + b, rest)
  {
    if rest.Ok? {
      assert a + (b + rest.value.1) == (a + b) + rest.value.1;
    }
  }

  predicate NoFailBefore(calls: seq<Call>, k: nat)
    requires k <= |calls|
  {
    forall j :: 0 <= j < k ==> !calls[j].Fail?
  }

  /** The offset at which the call `calls[k]` is made. */
  function OffsetAfter(mem: seq<byte>, at: nat, calls: seq<Call>, k: nat): (o: nat)
    requires k <= |calls| && Decodable(mem, at, calls) && NoFailBefore(calls, k)
    ensures o >= at
    ensures Decodable(mem, o, calls[k..])
    ensures k < |calls| ==> CallReadable(mem, o, calls[k])
    decreases k
  {
    if k == 0 then at
    else
      assert !calls[0].Fail?;
      assert calls[1..][k - 1..] == calls[k..];
      OffsetAfter(mem, Advance(mem, at, calls[0]), calls[1..], k - 1)
  }

  /** The cursor call `jit_to_ast` makes for a variable.  Where the layout
      does not resolve the source panics in `.unwrap()`; `Resolves` keeps
      every such variable behind a failure, so the placeholder failure here is
      never the one a run returns. */
  function CallOf<V, L>(v: V, layoutOf: V -> Option<L>, toAst: L -> Call): Call {
    match layoutOf(v)
    case Some(layout) => toAst(layout)
    case None => Fail(ToAstProblem("layout does not resolve"))
  }

  /** The cursor calls for the variables, in order. */
  function Calls<V, L>(variables: seq<V>, layoutOf: V -> Option<L>, toAst: L -> Call): (cs: seq<Call>)
    ensures |cs| == |variables|
  {
    seq(|variables|, i requires 0 <= i < |variables| => CallOf(variables[i], layoutOf, toAst))
  }

  /** Layout resolution succeeds for every variable the loop reaches: each one
      up to and including the first whose `jit_to_ast` fails. */
  predicate Resolves<V, L>(variables: seq<V>, layoutOf: V -> Option<L>, toAst: L -> Call) {
    forall i :: 0 <= i < |variables| && NoFailBefore(Calls(variables, layoutOf, toAst), i)
      ==> layoutOf(variables[i]).Some?
  }

  /** `get_values`: one cursor, created at `startOffset` with nothing read,
      goes through the variables in order; the first failure is returned at
      once, otherwise the final offset and the expressions. */
  method GetValues<V, L>(region: seq<byte>, startOffset: nat, variables: seq<V>,
                         layoutOf: V -> Option<L>, toAst: L -> Call)
    returns (r: Result<(nat, seq<Expr>)>)
    requires Resolves(variables, layoutOf, toAst)
    requires Decodable(region, startOffset, Calls(variables, layoutOf, toAst))
    ensures r == DecodeAll(region, startOffset, Calls(variables, layoutOf, toAst))
  {
    var result: seq<Expr> := [];
    var memory := new ExpectMemory(region);
    var app := new ExpectReplApp(memory, startOffset);
    ghost var calls := Calls(variables, layoutOf, toAst);
    var i := 0;
    ThenNothing(DecodeAll(region, startOffset, calls));
    while i < |variables|
      invariant 0 <= i <= |variables|
      invariant app.memory == memory && memory.bytes == region
      invariant NoFailBefore(calls, i)
      invariant Decodable(region, app.offset, calls[i..])
      invariant DecodeAll(region, startOffset, calls)
                == Then(result, DecodeAll(region, app.offset, calls[i..]))
    {
      var layout := layoutOf(variables[i]).value;
      ghost var at := app.offset;
      ghost var rest := calls[i..];
      assert rest[0] == calls[i];
      var element := JitToAst(app, toAst(layout));
      if element.Err? {
        assert DecodeAll(region, at, rest) == Err(element.error);
        assert DecodeAll(region, startOffset, calls) == Err(element.error);
        return Err(element.error);
      }
      assert rest[1..] == calls[i + 1..];
      ThenThen(result, [element.value], DecodeAll(region, app.offset, calls[i + 1..]));
      assert !calls[i].Fail?;
      result := result + [element.value];
      i := i + 1;
    }
    assert calls[i..] == [];
    assert result + [] == result;
    r := Ok((app.offset, result));
  }
}

/** What `get_values` promises about its result, stated on `DecodeAll`. */
module ExpectProperties {
  import opened Memory
  import opened App
  import opened Expect

  /** On success no call failed, there is one expression per call, each one is
      what its call returns at the offset where the previous call left the
      cursor, and the final offset is the one after the last call. */
  lemma {:induction false} DecodeAllInOrder(mem: seq<byte>, at: nat, calls: seq<Call>)
    requires Decodable(mem, at, calls) && DecodeAll(mem, at, calls).Ok?
    ensures NoFailBefore(calls, |calls|)
    ensures |DecodeAll(mem, at, calls).value.1| == |calls|
    ensures DecodeAll(mem, at, calls).value.0 == OffsetAfter(mem, at, calls, |calls|)
    ensures forall i :: 0 <= i < |calls| ==>
              Outcome(mem, OffsetAfter(mem, at, calls, i), calls[i])
              == Ok(DecodeAll(mem, at, calls).value.1[i])
    decreases |calls|
  {
    if calls != [] {
      DecodeAllStep(mem, at, calls);
      var next := Advance(mem, at, calls[0]);
      var rest := calls[1..];
      DecodeAllInOrder(mem, next, rest);
      var es := DecodeAll(mem, at, calls).value.1;
      var restEs := DecodeAll(mem, next, rest).value.1;
      forall j | 0 <= j < |calls|
        ensures !calls[j].Fail?
      {
        if j > 0 {
          assert calls[j] == rest[j - 1];
        }
      }
      assert OffsetAfter(mem, at, calls, |calls|) == OffsetAfter(mem, next, rest, |rest|);
      forall i | 0 <= i < |calls|
        ensures Outcome(mem, OffsetAfter(mem, at, calls, i), calls[i]) == Ok(es[i])
      {
        if i > 0 {
          assert calls[i] == rest[i - 1] && es[i] == restEs[i - 1];
          assert OffsetAfter(mem, at, calls, i) == OffsetAfter(mem, next, rest, i - 1);
        }
      }
    }
  }

  /** One step of a successful run: the first call succeeds, and the run is
      its expression followed by the successful run of the rest from where it
      left the cursor. */
  lemma DecodeAllStep(mem: seq<byte>, at: nat, calls: seq<Call>)
    requires calls != [] && Decodable(mem, at, calls) && DecodeAll(mem, at, calls).Ok?
    ensures !calls[0].Fail?
    ensures Decodable(mem, Advance(mem, at, calls[0]), calls[1..])
    ensures DecodeAll(mem, Advance(mem, at, calls[0]), calls[1..]).Ok?
    ensures DecodeAll(mem, at, calls).value.0
            == DecodeAll(mem, Advance(mem, at, calls[0]), calls[1..]).value.0
    ensures DecodeAll(mem, at, calls).value.1
            == [Outcome(mem, at, calls[0]).value]
               + DecodeAll(mem, Advance(mem, at, calls[0]), calls[1..]).value.1
  {
  }

  /** Fail-fast: the first failing call's problem is the result, whatever
      follows it. */
  lemma {:induction false} FirstFailureReturned(mem: seq<byte>, at: nat, calls: seq<Call>, k: nat)
    requires Decodable(mem, at, calls)
    requires k < |calls| && calls[k].Fail? && NoFailBefore(calls, k)
    ensures DecodeAll(mem, at, calls) == Err(calls[k].problem)
    decreases k
  {
    if k > 0 {
      assert !calls[0].Fail?;
      var rest := calls[1..];
      assert rest[k - 1] == calls[k];
      assert NoFailBefore(rest, k - 1) by {
        forall j | 0 <= j < k - 1 ensures !rest[j].Fail? {
          assert rest[j] == calls[j + 1];
        }
      }
      FirstFailureReturned(mem, Advance(mem, at, calls[0]), rest, k - 1);
    }
  }

  /** Without a failing call the run succeeds. */
  lemma {:induction false} DecodeAllSucceeds(mem: seq<byte>, at: nat, calls: seq<Call>)
    requires Decodable(mem, at, calls) && NoFailBefore(calls, |calls|)
    ensures DecodeAll(mem, at, calls).Ok?
    decreases |calls|
  {
    if calls != [] {
      assert !calls[0].Fail?;
      var rest := calls[1..];
      assert NoFailBefore(rest, |rest|) by {
        forall j | 0 <= j < |rest| ensures !rest[j].Fail? {
          assert rest[j] == calls[j + 1];
        }
      }
      DecodeAllSucceeds(mem, Advance(mem, at, calls[0]), rest);
    }
  }

  /** With an empty variable list the result is the start offset and no
      expressions. */
  lemma NoVariables(mem: seq<byte>, at: nat)
    ensures Decodable(mem, at, []) && DecodeAll(mem, at, []) == Ok((at, []))
  {
  }

  /** The transform of a value that is all in its return slot: no reads. */
  function NoReads(slot: seq<byte>): seq<Read> {
    []
  }

  /** The transform of a string: one `deref_str` at the address it is given. */
  function DerefStrAt(addr: nat): seq<Read> {
    [Read.Str(addr)]
  }

  /** With the transform that decodes the string by `deref_str` at the
      address it is given, the cursor moves past the record, the probe and,
      for a large record, the length word and the heap payload. */
  lemma RocStrWithDerefStr(mem: seq<byte>, at: nat)
    requires StrReadable(mem, at)
    ensures CallReadable(mem, at, RocStr(DerefStrAt))
    ensures Outcome(mem, at, RocStr(DerefStrAt)) == Ok(Built(Addr(at), [Text(StrAt(mem, at))]))
    ensures Advance(mem, at, RocStr(DerefStrAt))
            == if IsSmall(mem[at + WIDTH - 1]) then at + WIDTH + 1
               else at + WIDTH + 1 + WORD + Word(mem, at + WORD)
  {
    var plan := DerefStrAt(at);
    assert TotalCost(plan) == WIDTH by {
      assert plan[..0] == [];
    }
    assert AllReadable(mem, plan);
    assert ValuesOf(mem, plan) == [Text(StrAt(mem, at))];
  }

  /** The integer's transform reads nothing; the string's reads it with
      `deref_str`. */
  function IntThenStr(): seq<Call> {
    [Fixed(WORD, NoReads), RocStr(DerefStrAt)]
  }

  /** An 8-byte integer followed by a small string record: the cursor ends
      at WORD + WIDTH + 1 (33 on a 64-bit host), past the integer, the
      1-byte probe and the 24-byte record. */
  lemma {:induction false} IntThenSmallString(number: seq<byte>, text: seq<byte>, pad: seq<byte>)
    requires |number| == WORD && |text| + |pad| == WIDTH - 1
    ensures Decodable(number + EncodeSmall(text, pad), 0, IntThenStr())
    ensures DecodeAll(number + EncodeSmall(text, pad), 0, IntThenStr())
            == Ok((WORD + WIDTH + 1, [Built(Slot(number), []), Built(Addr(WORD), [Text(text)])]))
  {
    var mem := number + EncodeSmall(text, pad);
    var calls := IntThenStr();
    assert mem[WORD..WORD + WIDTH] == EncodeSmall(text, pad);
    assert mem[0..WORD] == number;
    SmallRoundTrip(mem, WORD, text, pad);
    RocStrWithDerefStr(mem, WORD);
    var e0 := Built(Slot(number), []);
    var e1 := Built(Addr(WORD), [Text(text)]);
    assert Advance(mem, 0, calls[0]) == WORD && Outcome(mem, 0, calls[0]) == Ok(e0) by {
      assert TotalCost([]) == 0;
      assert ValuesOf(mem, []) == [];
    }
    var rest := calls[1..];
    assert rest[0] == RocStr(DerefStrAt) && rest[1..] == [];
    assert Decodable(mem, WORD, rest);
    assert DecodeAll(mem, WORD, rest) == Then([e1], DecodeAll(mem, WORD + WIDTH + 1, []));
    assert [e1] + [] == [e1];
    assert DecodeAll(mem, WORD, rest) == Ok((WORD + WIDTH + 1, [e1]));
    assert DecodeAll(mem, 0, calls) == Then([e0], DecodeAll(mem, WORD, rest));
    assert [e0] + [e1] == [e0, e1];
  }

  /** A failing first variable ends the run with its error, whatever the
      second variable's layout: the loop never resolves it. */
  lemma {:induction false} FailureBeforeUnresolvedLayout<V, L>(
    mem: seq<byte>, at: nat, v1: V, v2: V, layoutOf: V -> Option<L>, toAst: L -> Call)
    requires layoutOf(v1).Some? && toAst(layoutOf(v1).value).Fail?
    ensures Resolves([v1, v2], layoutOf, toAst)
    ensures Decodable(mem, at, Calls([v1, v2], layoutOf, toAst))
    ensures DecodeAll(mem, at, Calls([v1, v2], layoutOf, toAst))
            == Err(toAst(layoutOf(v1).value).problem)
  {
    var calls := Calls([v1, v2], layoutOf, toAst);
    assert calls[0].Fail?;
    assert !NoFailBefore(calls, 1);
  }
}
