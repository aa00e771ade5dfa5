/**
 * What each of the four router stages means, as functions of the request
 * data: resolve the entity, decode the payload, invoke the method with the
 * error-first callback convention translated, and serve the response list.
 */
module Stages {
  import opened Values
  import opened Entities

  /** How a stage that calls `next` exactly once hands over: `next()` or `next(err)`. */
  datatype Outcome = Continue | Fail(err: Value)

  /**
   * One call of `next` made by the third stage or by the callback it created:
   * `next()`, recording `res.entityResponse` at that moment (what the serve
   * stage then reads), or `next(err)`.
   */
  datatype Completion = Next(response: Value) | NextErr(err: Value)

  /** `!method` is false: a method name was given and is not the empty string. */
  predicate Present(methodParam: Option<string>) {
    methodParam.Some? && methodParam.value != ""
  }

  function UnregisteredMessage(name: string): string {
    "Entity " + name + " is not registered."
  }

  function NoMethodMessage(name: string): string {
    "No method requested for entity " + name
  }

  function NotAFunctionMessage(methodName: string): string {
    "Method " + methodName + " is not a function."
  }

  /**
   * The entity loader's verdict on the loaded entity: three failures, checked
   * in this order, and `next()` only when all three checks pass.
   */
  function Resolve(entity: Entity, name: string, methodParam: Option<string>): (o: Outcome)
    ensures o == Continue <==> entity.Entity? && Present(methodParam) && IsFunction(entity, methodParam.value)
    ensures o.Fail? ==> o.err.Error?
  {
    if entity.NoEntity? then Fail(Error(UnregisteredMessage(name)))
    else if !Present(methodParam) then Fail(Error(NoMethodMessage(name)))
    else if !IsFunction(entity, methodParam.value) then Fail(Error(NotAFunctionMessage(methodParam.value)))
    else Continue
  }

  /** The order of the checks: each failure is reported only when the earlier checks passed. */
  lemma ResolveOrder(entity: Entity, name: string, methodParam: Option<string>)
    ensures entity.NoEntity? ==> Resolve(entity, name, methodParam) == Fail(Error(UnregisteredMessage(name)))
    ensures entity.Entity? && !Present(methodParam) ==>
      Resolve(entity, name, methodParam) == Fail(Error(NoMethodMessage(name)))
    ensures entity.Entity? && Present(methodParam) && !IsFunction(entity, methodParam.value) ==>
      Resolve(entity, name, methodParam) == Fail(Error(NotAFunctionMessage(methodParam.value)))
  {
  }

  /** The three failure messages can never be confused, whatever the names involved. */
  lemma FailureMessagesDistinct(name: string, name': string, methodName: string)
    ensures UnregisteredMessage(name) != NoMethodMessage(name')
    ensures UnregisteredMessage(name) != NotAFunctionMessage(methodName)
    ensures NoMethodMessage(name') != NotAFunctionMessage(methodName)
  {
    assert UnregisteredMessage(name)[0] == 'E';
    assert NoMethodMessage(name')[0] == 'N';
    assert NotAFunctionMessage(methodName)[0] == 'M';
  }

  /** The error `forEach` throws when a truthy `body.payload` is not an array. */
  const PAYLOAD_NOT_LIST: Value := Error("req.payload.forEach is not a function")

  /**
   * `req.body.payload || []`, as a list: a missing or falsy payload is the
   * empty list, an array is its elements; any other truthy value cannot be
   * scanned (None).
   */
  function Decode(bodyPayload: Value): (r: Option<seq<Value>>)
    ensures !Truthy(bodyPayload) ==> r == Some([])
    ensures bodyPayload.Arr? ==> r == Some(bodyPayload.items)
    ensures r.None? <==> Truthy(bodyPayload) && !bodyPayload.Arr?
  {
    if !Truthy(bodyPayload) then Some([])
    else if bodyPayload.Arr? then Some(bodyPayload.items)
    else None
  }

  /**
   * The index the payload scan leaves in `clientCallbackIndex`: the scan
   * overwrites it at every match, so it is the LAST placeholder's index.
   */
  function LastPlaceholder(payload: seq<Value>): (r: Option<nat>)
    ensures r.None? <==> forall i :: 0 <= i < |payload| ==> !IsPlaceholder(payload[i])
    ensures r.Some? ==> r.value < |payload| && IsPlaceholder(payload[r.value])
    ensures r.Some? ==> forall j :: r.value < j < |payload| ==> !IsPlaceholder(payload[j])
  {
    if |payload| == 0 then None
    else if IsPlaceholder(payload[|payload| - 1]) then Some(|payload| - 1)
    else LastPlaceholder(payload[..|payload| - 1])
  }

  /** With two placeholders, the earlier one is never the callback slot. */
  lemma LastPlaceholderWins(payload: seq<Value>, i: nat, j: nat)
    requires i < j < |payload|
    requires IsPlaceholder(payload[i]) && IsPlaceholder(payload[j])
    ensures LastPlaceholder(payload).Some? && LastPlaceholder(payload).value >= j
  {
  }

  /** The callback's error slot: its first argument, `undefined` when called with none. */
  function ErrorArgument(args: seq<Value>): Value {
    if |args| == 0 then Undefined else args[0]
  }

  /** `Array.prototype.slice.call(arguments).slice(1)`: every argument after the first, in order. */
  function SuccessValues(args: seq<Value>): (vs: seq<Value>)
    ensures |args| == 0 ==> vs == []
    ensures |args| > 0 ==> |vs| == |args| - 1
    ensures forall i :: 0 <= i < |vs| ==> vs[i] == args[i + 1]
  {
    if |args| == 0 then [] else args[1..]
  }

  /** What one call of the synthesized callback hands to the chain. */
  function CallbackCompletion(args: seq<Value>): (c: Completion)
    ensures c.NextErr? <==> Truthy(ErrorArgument(args))
    ensures c.NextErr? ==> c.err == ErrorArgument(args) && Truthy(c.err)
    ensures c.Next? ==> c.response == Arr(SuccessValues(args))
  {
    var err := ErrorArgument(args);
    if Truthy(err) then NextErr(err) else Next(Arr(SuccessValues(args)))
  }

  /** `res.entityResponse` after a call of `next`: `next()` set it first, `next(err)` left it alone. */
  function After(c: Completion, response: Value): (r: Value)
    ensures c.Next? ==> r == c.response
    ensures c.NextErr? ==> r == response
  {
    match c
    case Next(r) => r
    case NextErr(_) => response
  }

  /** The error-first convention: `callback(falsy, v1, …, vn)` completes with exactly `[v1, …, vn]`. */
  lemma CallbackSuccess(err: Value, vs: seq<Value>, response: Value)
    requires !Truthy(err)
    ensures CallbackCompletion([err] + vs) == Next(Arr(vs))
    ensures After(CallbackCompletion([err] + vs), response) == Arr(vs)
  {
    assert ([err] + vs)[1..] == vs;
  }

  /** `callback(err, …)` with a truthy `err` fails with `err` and leaves the response as it was. */
  lemma CallbackFailure(err: Value, rest: seq<Value>, response: Value)
    requires Truthy(err)
    ensures CallbackCompletion([err] + rest) == NextErr(err)
    ensures After(CallbackCompletion([err] + rest), response) == response
  {
  }

  /** Whether `args[position]` is a function: the only function among the arguments is the callback. */
  predicate Callable(args: seq<Value>, position: nat) {
    position < |args| && args[position].Callback?
  }

  /** Every step of the method calls a function, so none of them throws. */
  predicate AllCallable(args: seq<Value>, steps: seq<Step>) {
    forall k :: 0 <= k < |steps| ==> Callable(args, steps[k].position)
  }

  /** Calling a non-function argument, or `.apply` on a missing method, throws a TypeError. */
  const NOT_A_FUNCTION: Value := Error("TypeError: not a function")

  /** A `next()` always hands over an array response. */
  predicate WellFormed(c: Completion) {
    c.Next? ==> c.response.Arr?
  }

  /**
   * `res.entityResponse` after the calls of `next` in `cs`, starting from
   * `response`: the response of the latest `next()`, or `response` if none.
   */
  function Current(cs: seq<Completion>, response: Value): (r: Value)
    ensures (forall j :: 0 <= j < |cs| ==> !cs[j].Next?) ==> r == response
    ensures (exists j :: 0 <= j < |cs| && cs[j].Next?) ==>
      exists j :: 0 <= j < |cs| && cs[j].Next? && r == cs[j].response && forall j' :: j < j' < |cs| ==> !cs[j'].Next?
    decreases |cs|
  {
    if |cs| == 0 then response
    else
      var r := Current(cs[1..], After(cs[0], response));
      assert forall j :: 0 < j < |cs| ==> cs[j] == cs[1..][j - 1];
      r
  }

  /** One more call of `next` at the end: `next()` sets the response, `next(err)` keeps it. */
  lemma {:induction false} CurrentSnoc(cs: seq<Completion>, c: Completion, response: Value)
    ensures Current(cs + [c], response) == After(c, Current(cs, response))
    decreases |cs|
  {
    if |cs| > 0 {
      assert (cs + [c])[1..] == cs[1..] + [c];
      CurrentSnoc(cs[1..], c, After(cs[0], response));
    }
  }

  /** The effect of running a method's synchronous part: the `next` calls its callback made, the response, and what it threw. */
  datatype Run = Run(completions: seq<Completion>, response: Value, thrown: Option<Value>)

  /**
   * Runs the synchronous steps of a method on `args`. A call of the callback
   * goes through the convention; a call of anything else throws, ending the
   * method; after the last step the method returns or throws as `ending` says.
   */
  function ApplySteps(args: seq<Value>, steps: seq<Step>, ending: Ending, response: Value): (r: Run)
    ensures |r.completions| <= |steps|
    ensures forall c :: c in r.completions ==> WellFormed(c)
    decreases |steps|
  {
    if |steps| == 0 then
      Run([], response, if ending.Throw? then Some(ending.error) else None)
    else if Callable(args, steps[0].position) then
      var c := CallbackCompletion(steps[0].args);
      var rest := ApplySteps(args, steps[1..], ending, After(c, response));
      Run([c] + rest.completions, rest.response, rest.thrown)
    else
      Run([], response, Some(NOT_A_FUNCTION))
  }

  /** The `k`-th `next` call while a method runs completes its `k`-th step, a call of the callback. */
  lemma {:induction false} ApplyStepsCompletions(args: seq<Value>, steps: seq<Step>, ending: Ending, response: Value)
    ensures var r := ApplySteps(args, steps, ending, response);
      forall k :: 0 <= k < |r.completions| ==>
        Callable(args, steps[k].position) && r.completions[k] == CallbackCompletion(steps[k].args)
    decreases |steps|
  {
    if |steps| > 0 && Callable(args, steps[0].position) {
      var c := CallbackCompletion(steps[0].args);
      ApplyStepsCompletions(args, steps[1..], ending, After(c, response));
      var rest := ApplySteps(args, steps[1..], ending, After(c, response));
      assert forall k :: 0 < k <= |rest.completions| ==> steps[k] == steps[1..][k - 1];
    }
  }

  /**
   * How a method run ends: it throws nothing exactly when every step calls a
   * function and it returns; it throws its own error when every step could run
   * and it throws; it throws the TypeError when some step calls a non-function,
   * and then the run stopped at the first such step.
   */
  lemma {:induction false} ApplyStepsThrown(args: seq<Value>, steps: seq<Step>, ending: Ending, response: Value)
    ensures var r := ApplySteps(args, steps, ending, response);
      && (r.thrown.None? <==> ending.Return? && AllCallable(args, steps))
      && (AllCallable(args, steps) ==> |r.completions| == |steps|)
      && (AllCallable(args, steps) && ending.Throw? ==> r.thrown == Some(ending.error))
      && (!AllCallable(args, steps) ==>
            r.thrown == Some(NOT_A_FUNCTION) && |r.completions| < |steps| && !Callable(args, steps[|r.completions|].position))
    decreases |steps|
  {
    if |steps| > 0 && Callable(args, steps[0].position) {
      var c := CallbackCompletion(steps[0].args);
      ApplyStepsThrown(args, steps[1..], ending, After(c, response));
      var rest := ApplySteps(args, steps[1..], ending, After(c, response));
      if |rest.completions| < |steps| - 1 {
        assert steps[1 + |rest.completions|] == steps[1..][|rest.completions|];
      }
      assert AllCallable(args, steps) <==> AllCallable(args, steps[1..]) by {
        if AllCallable(args, steps[1..]) {
          forall k | 0 <= k < |steps| ensures Callable(args, steps[k].position) {
            if k > 0 { assert steps[k] == steps[1..][k - 1]; }
          }
        }
      }
    }
  }

  /** The fixed acknowledgment a synchronous call answers with. */
  const ACK: Value := Arr([Str("Ok")])

  /** The `next` calls made while the third stage runs, and the response it leaves. */
  datatype Trace = Trace(completions: seq<Completion>, response: Value)

  /** `req.entity[method].apply(this, payload)`: a missing function throws before anything runs. */
  function RunMethod(args: seq<Value>, target: Option<Behaviour>, response: Value): (r: Run)
    ensures target.None? ==> r.completions == [] && r.thrown == Some(NOT_A_FUNCTION)
    ensures target.Some? ==> |r.completions| <= |target.value.steps|
    ensures forall c :: c in r.completions ==> WellFormed(c)
  {
    if target.None? then Run([], response, Some(NOT_A_FUNCTION))
    else ApplySteps(args, target.value.steps, target.value.ending, response)
  }

  /**
   * The third stage on the (already substituted) arguments: run the method; a
   * throw becomes `next(err)` and ends the stage; otherwise a synchronous call
   * answers `['Ok']`, and an asynchronous one waits for its callback.
   */
  function Invoke(args: seq<Value>, isAsync: bool, target: Option<Behaviour>, response: Value): (t: Trace)
    ensures forall c :: c in t.completions ==> WellFormed(c)
  {
    var run := RunMethod(args, target, response);
    if run.thrown.Some? then Trace(run.completions + [NextErr(run.thrown.value)], run.response)
    else if !isAsync then Trace(run.completions + [Next(ACK)], ACK)
    else Trace(run.completions, run.response)
  }

  /** The callback calls that arrive after the method has returned, in order. */
  function Settle(calls: seq<seq<Value>>, response: Value): (t: Trace)
    ensures |t.completions| == |calls|
    ensures forall c :: c in t.completions ==> WellFormed(c)
    decreases |calls|
  {
    if |calls| == 0 then Trace([], response)
    else
      var c := CallbackCompletion(calls[0]);
      var rest := Settle(calls[1..], After(c, response));
      Trace([c] + rest.completions, rest.response)
  }

  /** The `k`-th later `next` call is the completion of the `k`-th later callback call. */
  lemma {:induction false} SettleCompletions(calls: seq<seq<Value>>, response: Value)
    ensures var t := Settle(calls, response);
      forall k :: 0 <= k < |calls| ==> t.completions[k] == CallbackCompletion(calls[k])
    decreases |calls|
  {
    if |calls| > 0 {
      var c := CallbackCompletion(calls[0]);
      SettleCompletions(calls[1..], After(c, response));
      assert forall k :: 0 < k < |calls| ==> calls[k] == calls[1..][k - 1];
    }
  }

  /** `res.entityResponse` after the method's run is the response of its latest `next()`. */
  lemma {:induction false} ApplyStepsResponse(args: seq<Value>, steps: seq<Step>, ending: Ending, response: Value)
    ensures var r := ApplySteps(args, steps, ending, response);
      r.response == Current(r.completions, response)
    decreases |steps|
  {
    if |steps| > 0 && Callable(args, steps[0].position) {
      var c := CallbackCompletion(steps[0].args);
      ApplyStepsResponse(args, steps[1..], ending, After(c, response));
      var rest := ApplySteps(args, steps[1..], ending, After(c, response));
      assert ([c] + rest.completions)[1..] == rest.completions;
    }
  }

  /** After the third stage, `res.entityResponse` is the response of its latest `next()`, or what it was. */
  lemma InvokeResponse(args: seq<Value>, isAsync: bool, target: Option<Behaviour>, response: Value)
    ensures var t := Invoke(args, isAsync, target, response);
      t.response == Current(t.completions, response)
  {
    var run := RunMethod(args, target, response);
    if target.Some? {
      ApplyStepsResponse(args, target.value.steps, target.value.ending, response);
    }
    if run.thrown.Some? {
      CurrentSnoc(run.completions, NextErr(run.thrown.value), response);
    } else if !isAsync {
      CurrentSnoc(run.completions, Next(ACK), response);
    }
  }

  /** After the later callback calls, `res.entityResponse` is the response of the latest `next()`, or what it was. */
  lemma {:induction false} SettleResponse(calls: seq<seq<Value>>, response: Value)
    ensures var t := Settle(calls, response);
      t.response == Current(t.completions, response)
    decreases |calls|
  {
    if |calls| > 0 {
      var c := CallbackCompletion(calls[0]);
      SettleResponse(calls[1..], After(c, response));
      var rest := Settle(calls[1..], After(c, response));
      assert ([c] + rest.completions)[1..] == rest.completions;
    }
  }

  /**
   * A synchronous call (no callback among the arguments) calls `next` exactly
   * once: `next()` with `['Ok']` when the method neither throws nor calls an
   * argument, and `next(err)` otherwise.
   */
  lemma SyncCompletesOnce(args: seq<Value>, target: Option<Behaviour>, response: Value)
    requires forall i :: 0 <= i < |args| ==> !args[i].Callback?
    ensures var t := Invoke(args, false, target, response);
      |t.completions| == 1 &&
      (t.completions[0] == Next(ACK) <==> target.Some? && target.value.steps == [] && target.value.ending.Return?)
  {
    if target.Some? && target.value.steps != [] {
      assert !Callable(args, target.value.steps[0].position);
    }
  }

  /**
   * A throw ends the third stage with `next(err)` for the thrown value, after
   * the callback completions of the steps that ran, and the `['Ok']` answer is
   * never given: the thrown value is the method's own when all its steps could
   * run, and the TypeError otherwise.
   */
  lemma ThrowEndsWithError(args: seq<Value>, isAsync: bool, b: Behaviour, response: Value)
    requires b.ending.Throw? || !AllCallable(args, b.steps)
    ensures var t := Invoke(args, isAsync, Some(b), response);
      var n := |t.completions|;
      n >= 1 && n - 1 <= |b.steps| &&
      (forall k :: 0 <= k < n - 1 ==> t.completions[k] == CallbackCompletion(b.steps[k].args)) &&
      t.completions[n - 1] == NextErr(if AllCallable(args, b.steps) then b.ending.error else NOT_A_FUNCTION) &&
      (AllCallable(args, b.steps) ==> n - 1 == |b.steps|) &&
      (!AllCallable(args, b.steps) ==> n - 1 < |b.steps| && !Callable(args, b.steps[n - 1].position))
  {
    ApplyStepsCompletions(args, b.steps, b.ending, response);
    ApplyStepsThrown(args, b.steps, b.ending, response);
  }

  /**
   * Without a throw, a synchronous call's completions are its callback
   * completions and then `next()` with `['Ok']`; an asynchronous call's are its
   * callback completions and nothing else.
   */
  lemma ReturnCompletions(args: seq<Value>, isAsync: bool, b: Behaviour, response: Value)
    requires b.ending.Return? && AllCallable(args, b.steps)
    ensures var t := Invoke(args, isAsync, Some(b), response);
      var callbacks := seq(|b.steps|, k requires 0 <= k < |b.steps| => CallbackCompletion(b.steps[k].args));
      t.completions == if isAsync then callbacks else callbacks + [Next(ACK)]
  {
    ApplyStepsCompletions(args, b.steps, b.ending, response);
    ApplyStepsThrown(args, b.steps, b.ending, response);
  }

  /** What a method returns never reaches the caller: only its calls and its throw do. */
  lemma {:induction false} ReturnValueIgnored(args: seq<Value>, steps: seq<Step>, v: Value, v': Value, response: Value)
    ensures ApplySteps(args, steps, Return(v), response) == ApplySteps(args, steps, Return(v'), response)
    decreases |steps|
  {
    if |steps| > 0 && Callable(args, steps[0].position) {
      var c := CallbackCompletion(steps[0].args);
      ReturnValueIgnored(args, steps[1..], v, v', After(c, response));
    }
  }

  /**
   * For an asynchronous call, the `k`-th `next()` during the method's run is
   * the completion of the method's `k`-th call of its callback: the stage
   * itself never continues the chain.
   */
  lemma AsyncContinuesOnlyThroughCallback(args: seq<Value>, b: Behaviour, response: Value)
    ensures var t := Invoke(args, true, Some(b), response);
      forall k :: 0 <= k < |t.completions| && t.completions[k].Next? ==>
        k < |b.steps| && Callable(args, b.steps[k].position) && t.completions[k] == CallbackCompletion(b.steps[k].args)
  {
    ApplyStepsCompletions(args, b.steps, b.ending, response);
  }

  /** An asynchronous call whose method returns without calling anything has not called `next`: it is pending. */
  lemma AsyncPending(args: seq<Value>, b: Behaviour, response: Value)
    requires b.steps == [] && b.ending.Return?
    ensures Invoke(args, true, Some(b), response) == Trace([], response)
  {
  }

  /**
   * What answers the request: the serve stage's JSON, the error handler's
   * reply for `next(err)`, the serve stage's invariant failure, or nothing of
   * this route's, when `next('route')` or `next('router')` passes the request on.
   */
  datatype Reply = Json(body: Value) | ErrorReply(err: Value) | InvariantFailure(message: string) | PassedOn

  /**
   * `serve`: the response must be an array (an internal invariant, failing
   * hard otherwise), and is sent as `{ values: response }`.
   */
  function Serve(response: Value): (r: Reply)
    ensures r.Json? <==> response.Arr?
    ensures r.Json? ==> r.body.Obj? && r.body.fields.Keys == {"values"} && r.body.fields["values"] == response
    ensures !response.Arr? ==> r == InvariantFailure("Response values are required.")
  {
    if response.Arr? then Json(Obj(map["values" := response]))
    else InvariantFailure("Response values are required.")
  }

  /** What a caller reads back from a success envelope: its `values` list. */
  function ValuesOf(body: Value): Option<seq<Value>> {
    if body.Obj? && "values" in body.fields && body.fields["values"].Arr?
    then Some(body.fields["values"].items)
    else None
  }

  /** Serving a list and reading the envelope back gives the same list. */
  lemma ServeRoundTrip(vs: seq<Value>)
    ensures Serve(Arr(vs)).Json? && ValuesOf(Serve(Arr(vs)).body) == Some(vs)
  {
  }
}
