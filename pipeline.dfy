/**
 * The four stages chained as the router runs them for one call: resolve,
 * decode, invoke, serve. A `next(err)` of the first two stages goes to the
 * error handler. The third stage's calls of `next` all go to the same route
 * `next`: the first reaches `serve`, and the later ones find the route
 * exhausted.
 */
module Pipeline {
  import opened Values
  import opened Entities
  import opened Stages
  import Controllers

  /** `next('route')` and `next('router')`: Express's signals to leave the route, not errors. */
  predicate ExitSignal(err: Value) {
    err == Str("route") || err == Str("router")
  }

  /** `next(err)` with a falsy `err`. */
  predicate FalsyFailure(c: Completion) {
    c.NextErr? && !Truthy(c.err)
  }

  /**
   * What a call of `next` that reaches the `serve` handler leads to, given
   * the response at that moment: `next()` runs `serve`; a truthy `next(err)`
   * skips `serve` for the error handler, unless it is an exit signal, which
   * leaves the route; Express takes a falsy `err` for no error, so `serve` runs
   * on the current response.
   */
  function ReplyTo(c: Completion, response: Value): (r: Reply)
    ensures r.ErrorReply? <==> c.NextErr? && Truthy(c.err) && !ExitSignal(c.err)
    ensures r.ErrorReply? ==> r.err == c.err
    ensures r.PassedOn? <==> c.NextErr? && ExitSignal(c.err)
    ensures c.Next? ==> r == Serve(c.response)
    ensures FalsyFailure(c) ==> r == Serve(response)
  {
    match c
    case Next(r) => Serve(r)
    case NextErr(err) =>
      if ExitSignal(err) then PassedOn
      else if Truthy(err) then ErrorReply(err)
      else Serve(response)
  }

  /**
   * The replies to the third stage's calls of `next`, in order; `atServe` says
   * whether `serve` is still the route's next handler, `response` is the
   * response when the first call is made. Each call moves the route one
   * handler on (an error skips `serve` as it passes it), so only the first
   * call is answered: every later one finds no handler left in the route.
   */
  function Replies(cs: seq<Completion>, atServe: bool, response: Value): (rs: seq<Reply>)
    ensures |rs| == (if atServe && |cs| > 0 then 1 else 0)
    ensures |rs| == 1 ==> rs[0] == ReplyTo(cs[0], response)
    decreases |cs|
  {
    if |cs| == 0 then []
    else (if atServe then [ReplyTo(cs[0], response)] else []) + Replies(cs[1..], false, After(cs[0], response))
  }

  /** The payload the method is handed: the callback slot, if any, overwritten with the callback. */
  function Arguments(items: seq<Value>, index: Option<nat>): (args: seq<Value>)
    requires index.Some? ==> index.value < |items|
    ensures |args| == |items|
    ensures forall i :: 0 <= i < |items| ==>
      args[i] == if index.Some? && index.value == i then Callback else items[i]
  {
    if index.Some? then items[index.value := Callback] else items
  }

  /** The first two stages let the call through to the third. */
  predicate Reaches(registry: Registry, name: string, methodParam: Option<string>, bodyPayload: Value) {
    Resolve(Lookup(registry, name), name, methodParam).Continue? && Decode(bodyPayload).Some?
  }

  /**
   * Every call of `next` for a call that reached the third stage, in order:
   * those made while the method runs, then those of the callback calls the
   * method deferred. Only an asynchronous call has a callback to defer, and a
   * synchronous one always calls `next`.
   */
  function ThirdStage(entity: Entity, methodParam: Option<string>, items: seq<Value>): (cs: seq<Completion>)
    ensures forall c :: c in cs ==> WellFormed(c)
    ensures LastPlaceholder(items).None? ==> |cs| >= 1
  {
    var index := LastPlaceholder(items);
    var target := Target(entity, methodParam);
    var t := Invoke(Arguments(items, index), index.Some?, target, Undefined);
    var later := if index.Some? && target.Some? then Settle(target.value.deferred, t.response).completions else [];
    assert forall c :: c in t.completions + later ==> c in t.completions || c in later;
    t.completions + later
  }

  /**
   * The replies one call gets: at most one; none at all means the request
   * hangs. A call stopped by the first two stages gets the error reply.
   */
  function Dispatch(registry: Registry, name: string, methodParam: Option<string>, bodyPayload: Value): (rs: seq<Reply>)
    ensures |rs| <= 1
    ensures !Reaches(registry, name, methodParam, bodyPayload) ==> |rs| == 1 && rs[0].ErrorReply?
  {
    var entity := Lookup(registry, name);
    var resolved := Resolve(entity, name, methodParam);
    if resolved.Fail? then [ErrorReply(resolved.err)]
    else
      var decoded := Decode(bodyPayload);
      if decoded.None? then [ErrorReply(PAYLOAD_NOT_LIST)]
      else Replies(ThirdStage(entity, methodParam, decoded.value), true, Undefined)
  }

  /** Runs the stages on a fresh request/response pair, as the router does. */
  method Handle(registry: Registry, name: string, methodParam: Option<string>, bodyPayload: Value)
    returns (replies: seq<Reply>)
    ensures replies == Dispatch(registry, name, methodParam, bodyPayload)
  {
    var context := new Controllers.Context(methodParam, bodyPayload);
    var o := context.EntityLoader(registry, name);
    if o.Fail? {
      return [ErrorReply(o.err)];
    }
    o := context.GetPayload();
    if o.Fail? {
      return [ErrorReply(o.err)];
    }
    ghost var items := context.payload;
    assert Reaches(registry, name, methodParam, bodyPayload) && items == Decode(bodyPayload).value;
    var completions := context.CallEntityMethod();
    var target := Target(context.entity, methodParam);
    assert context.isAsync == LastPlaceholder(items).Some?;
    assert context.payload == Arguments(items, LastPlaceholder(items));
    ghost var t := Invoke(Arguments(items, LastPlaceholder(items)), context.isAsync, target, Undefined);
    assert completions == t.completions && context.entityResponse == t.response;
    if context.isAsync && target.Some? {
      var calls := target.value.deferred;
      ghost var settled := Settle(calls, context.entityResponse);
      ghost var before := completions;
      var i := 0;
      while i < |calls|
        invariant 0 <= i <= |calls|
        invariant var rest := Settle(calls[i..], context.entityResponse);
          before + settled.completions == completions + rest.completions
      {
        assert calls[i..][0] == calls[i] && calls[i..][1..] == calls[i + 1..];
        var c := context.ClientCallback(calls[i]);
        completions := completions + [c];
        i := i + 1;
      }
      assert calls[i..] == [];
    }
    assert completions == ThirdStage(Lookup(registry, name), methodParam, items);
    replies := Replies(completions, true, Undefined);
  }

  /** Some reply is the serve stage's invariant failure. */
  predicate HasInvariantFailure(rs: seq<Reply>) {
    exists k :: 0 <= k < |rs| && rs[k].InvariantFailure?
  }

  /**
   * Starting from a response that is not an array, the serve stage's
   * invariant fails exactly when the first call of `next` is a falsy `next(err)`.
   */
  lemma InvariantFailsIffFirstIsFalsy(cs: seq<Completion>, response: Value)
    requires !response.Arr?
    requires forall c :: c in cs ==> WellFormed(c)
    ensures HasInvariantFailure(Replies(cs, true, response)) <==> |cs| > 0 && FalsyFailure(cs[0])
  {
    if |cs| > 0 {
      assert cs[0] in cs;
    }
  }

  /** A falsy `next(err)` can only come from the method throwing that falsy value. */
  lemma FalsyFailuresComeFromThrow(entity: Entity, methodParam: Option<string>, items: seq<Value>)
    ensures var target := Target(entity, methodParam);
      forall c :: c in ThirdStage(entity, methodParam, items) && FalsyFailure(c) ==>
        target.Some? && target.value.ending == Throw(c.err)
  {
    var index := LastPlaceholder(items);
    var target := Target(entity, methodParam);
    var args := Arguments(items, index);
    var t := Invoke(args, index.Some?, target, Undefined);
    var run := RunMethod(args, target, Undefined);
    var later := if index.Some? && target.Some? then Settle(target.value.deferred, t.response).completions else [];
    if target.Some? {
      ApplyStepsCompletions(args, target.value.steps, target.value.ending, Undefined);
      ApplyStepsThrown(args, target.value.steps, target.value.ending, Undefined);
      SettleCompletions(target.value.deferred, t.response);
    }
    assert forall c :: c in later ==> !FalsyFailure(c);
    assert forall c :: c in run.completions ==> !FalsyFailure(c);
  }

  /**
   * The serve stage's invariant fails exactly when the call reaches a method
   * that throws a falsy value before making any call.
   */
  lemma InvariantFailsOnlyOnFalsyThrow(registry: Registry, name: string, methodParam: Option<string>, bodyPayload: Value)
    ensures HasInvariantFailure(Dispatch(registry, name, methodParam, bodyPayload)) <==>
      Reaches(registry, name, methodParam, bodyPayload) &&
      var target := Target(Lookup(registry, name), methodParam);
      target.Some? && target.value.steps == [] && target.value.ending.Throw? && !Truthy(target.value.ending.error)
  {
    var entity := Lookup(registry, name);
    if Reaches(registry, name, methodParam, bodyPayload) {
      var items := Decode(bodyPayload).value;
      var index := LastPlaceholder(items);
      var target := Target(entity, methodParam);
      var args := Arguments(items, index);
      var cs := ThirdStage(entity, methodParam, items);
      InvariantFailsIffFirstIsFalsy(cs, Undefined);
      assert target.Some?;
      var b := target.value;
      var t := Invoke(args, index.Some?, target, Undefined);
      assert |t.completions| > 0 ==> cs[0] == t.completions[0];
      if b.ending.Throw? || !AllCallable(args, b.steps) {
        ThrowEndsWithError(args, index.Some?, b, Undefined);
        if b.steps != [] {
          if AllCallable(args, b.steps) {
            assert Callable(args, b.steps[0].position);
          }
          assert !FalsyFailure(t.completions[0]);
        }
      } else {
        ReturnCompletions(args, index.Some?, b, Undefined);
        if |t.completions| > 0 {
          assert !FalsyFailure(t.completions[0]);
        } else if |cs| > 0 {
          SettleCompletions(b.deferred, t.response);
          assert !FalsyFailure(cs[0]);
        }
      }
    }
  }

  /** An unregistered entity fails with its message, whatever else the request says; nothing is invoked. */
  lemma UnregisteredEntityFails(registry: Registry, name: string, methodParam: Option<string>, bodyPayload: Value)
    requires name !in registry || registry[name].NoEntity?
    ensures Dispatch(registry, name, methodParam, bodyPayload) == [ErrorReply(Error(UnregisteredMessage(name)))]
  {
  }

  /** A registered entity with no method name requested fails with the second message. */
  lemma MissingMethodFails(registry: Registry, name: string, methodParam: Option<string>, bodyPayload: Value)
    requires name in registry && registry[name].Entity?
    requires !Present(methodParam)
    ensures Dispatch(registry, name, methodParam, bodyPayload) == [ErrorReply(Error(NoMethodMessage(name)))]
  {
  }

  /** A requested member that is absent or not a function fails with the third message. */
  lemma NotAFunctionFails(registry: Registry, name: string, methodName: string, bodyPayload: Value)
    requires name in registry && registry[name].Entity? && methodName != ""
    requires !IsFunction(registry[name], methodName)
    ensures Dispatch(registry, name, Some(methodName), bodyPayload) == [ErrorReply(Error(NotAFunctionMessage(methodName)))]
  {
  }

  /** Registry entry for `name.methodName` is a method behaving as `b`. */
  predicate Registered(registry: Registry, name: string, methodName: string, b: Behaviour) {
    name in registry && registry[name].Entity? && methodName in registry[name].members
    && registry[name].members[methodName] == Method(b) && methodName != ""
  }

  /** Dispatch on a registered method with a list payload: straight to the third stage. */
  lemma DispatchRegistered(registry: Registry, name: string, methodName: string, items: seq<Value>, b: Behaviour)
    requires Registered(registry, name, methodName, b)
    ensures var index := LastPlaceholder(items);
      var t := Invoke(Arguments(items, index), index.Some?, Some(b), Undefined);
      Dispatch(registry, name, Some(methodName), Arr(items))
        == Replies(t.completions + (if index.Some? then Settle(b.deferred, t.response).completions else []), true, Undefined)
  {
  }

  /** The method calls the callback in slot `k` once, as its only synchronous step. */
  lemma OneCallback(items: seq<Value>, k: nat, args: seq<Value>, ending: Ending)
    requires LastPlaceholder(items) == Some(k)
    ensures var c := CallbackCompletion(args);
      ApplySteps(Arguments(items, Some(k)), [CallArgument(k, args)], ending, Undefined)
        == Run([c], After(c, Undefined), if ending.Throw? then Some(ending.error) else None)
  {
    var c := CallbackCompletion(args);
    var steps := [CallArgument(k, args)];
    assert Callable(Arguments(items, Some(k)), steps[0].position);
    assert steps[1..] == [];
  }

  /**
   * A call without a placeholder, to a method that neither throws nor calls
   * an argument, is answered `{ values: ['Ok'] }`, whatever the method returned.
   */
  lemma SyncAcknowledged(registry: Registry, name: string, methodName: string, items: seq<Value>, v: Value, deferred: seq<seq<Value>>)
    requires Registered(registry, name, methodName, Behaviour([], Return(v), deferred))
    requires forall i :: 0 <= i < |items| ==> !IsPlaceholder(items[i])
    ensures Dispatch(registry, name, Some(methodName), Arr(items)) == [Json(Obj(map["values" := ACK]))]
  {
    DispatchRegistered(registry, name, methodName, items, Behaviour([], Return(v), deferred));
  }

  /**
   * The asynchronous round trip: a method that calls the callback in the slot
   * of the last placeholder as `(null, v1, …, vn)` and returns is answered
   * exactly `{ values: [v1, …, vn] }`.
   */
  lemma AsyncRoundTrip(registry: Registry, name: string, methodName: string, items: seq<Value>, k: nat, vs: seq<Value>, v: Value)
    requires LastPlaceholder(items) == Some(k)
    requires Registered(registry, name, methodName, Behaviour([CallArgument(k, [Null] + vs)], Return(v), []))
    ensures Dispatch(registry, name, Some(methodName), Arr(items)) == [Json(Obj(map["values" := Arr(vs)]))]
  {
    DispatchRegistered(registry, name, methodName, items, Behaviour([CallArgument(k, [Null] + vs)], Return(v), []));
    OneCallback(items, k, [Null] + vs, Return(v));
    CallbackSuccess(Null, vs, Undefined);
  }

  /** The same round trip when the callback fires only after the method has returned. */
  lemma DeferredRoundTrip(registry: Registry, name: string, methodName: string, items: seq<Value>, vs: seq<Value>, v: Value)
    requires LastPlaceholder(items).Some?
    requires Registered(registry, name, methodName, Behaviour([], Return(v), [[Null] + vs]))
    ensures Dispatch(registry, name, Some(methodName), Arr(items)) == [Json(Obj(map["values" := Arr(vs)]))]
  {
    DispatchRegistered(registry, name, methodName, items, Behaviour([], Return(v), [[Null] + vs]));
    CallbackSuccess(Null, vs, Undefined);
    assert [[Null] + vs][1..] == [];
  }

  /** A callback fired with a truthy error, other than an exit signal, yields that error and no `values`. */
  lemma AsyncErrorPropagates(registry: Registry, name: string, methodName: string, items: seq<Value>, k: nat, err: Value, rest: seq<Value>, v: Value)
    requires LastPlaceholder(items) == Some(k) && Truthy(err) && !ExitSignal(err)
    requires Registered(registry, name, methodName, Behaviour([CallArgument(k, [err] + rest)], Return(v), []))
    ensures Dispatch(registry, name, Some(methodName), Arr(items)) == [ErrorReply(err)]
  {
    DispatchRegistered(registry, name, methodName, items, Behaviour([CallArgument(k, [err] + rest)], Return(v), []));
    OneCallback(items, k, [err] + rest, Return(v));
    CallbackFailure(err, rest, Undefined);
  }

  /** A synchronous throw yields the same error reply as an error passed to the callback, sync or async. */
  lemma ThrowPropagates(registry: Registry, name: string, methodName: string, items: seq<Value>, err: Value)
    requires Registered(registry, name, methodName, Behaviour([], Throw(err), []))
    requires Truthy(err) && !ExitSignal(err)
    ensures Dispatch(registry, name, Some(methodName), Arr(items)) == [ErrorReply(err)]
  {
    DispatchRegistered(registry, name, methodName, items, Behaviour([], Throw(err), []));
  }

  /** Throwing `'route'` or `'router'` is Express's signal to leave the route: `serve` and the error handler never see it. */
  lemma ExitSignalPassesOn(registry: Registry, name: string, methodName: string, items: seq<Value>, err: Value)
    requires Registered(registry, name, methodName, Behaviour([], Throw(err), []))
    requires ExitSignal(err)
    ensures Dispatch(registry, name, Some(methodName), Arr(items)) == [PassedOn]
  {
    DispatchRegistered(registry, name, methodName, items, Behaviour([], Throw(err), []));
  }

  /**
   * A falsy thrown value (`null`, `0`, `''`) before any callback: the chain
   * goes on to the serve stage with no response set, and its invariant fails.
   */
  lemma FalsyThrowFailsInvariant(registry: Registry, name: string, methodName: string, items: seq<Value>, err: Value)
    requires Registered(registry, name, methodName, Behaviour([], Throw(err), []))
    requires !Truthy(err)
    ensures Dispatch(registry, name, Some(methodName), Arr(items)) == [InvariantFailure("Response values are required.")]
  {
    DispatchRegistered(registry, name, methodName, items, Behaviour([], Throw(err), []));
  }

  /** An asynchronous call whose method never calls its callback gets no reply at all: it hangs. */
  lemma NeverCalledBackHangs(registry: Registry, name: string, methodName: string, items: seq<Value>, v: Value)
    requires LastPlaceholder(items).Some?
    requires Registered(registry, name, methodName, Behaviour([], Return(v), []))
    ensures Dispatch(registry, name, Some(methodName), Arr(items)) == []
  {
    DispatchRegistered(registry, name, methodName, items, Behaviour([], Return(v), []));
  }

  /**
   * No guard against completing twice: calling back and then throwing calls
   * `next` twice. Only the first call reaches `serve`, so the values are the
   * one reply; the thrown value finds the route exhausted.
   */
  lemma CallbackThenThrowCompletesTwice(registry: Registry, name: string, methodName: string, items: seq<Value>, k: nat, vs: seq<Value>, err: Value)
    requires LastPlaceholder(items) == Some(k)
    requires Registered(registry, name, methodName, Behaviour([CallArgument(k, [Null] + vs)], Throw(err), []))
    ensures ThirdStage(Lookup(registry, name), Some(methodName), items) == [Next(Arr(vs)), NextErr(err)]
    ensures Dispatch(registry, name, Some(methodName), Arr(items)) == [Json(Obj(map["values" := Arr(vs)]))]
  {
    var b := Behaviour([CallArgument(k, [Null] + vs)], Throw(err), []);
    DispatchRegistered(registry, name, methodName, items, b);
    OneCallback(items, k, [Null] + vs, Throw(err));
    CallbackSuccess(Null, vs, Undefined);
    assert Invoke(Arguments(items, Some(k)), true, Some(b), Undefined).completions + [] == [Next(Arr(vs)), NextErr(err)];
  }

  /** No guard either against a callback fired twice: `next()` is called twice, and only the first values are sent. */
  lemma CallbackTwiceCompletesTwice(registry: Registry, name: string, methodName: string, items: seq<Value>, k: nat, vs: seq<Value>, ws: seq<Value>, v: Value)
    requires LastPlaceholder(items) == Some(k)
    requires Registered(registry, name, methodName, Behaviour([CallArgument(k, [Null] + vs)], Return(v), [[Null] + ws]))
    ensures ThirdStage(Lookup(registry, name), Some(methodName), items) == [Next(Arr(vs)), Next(Arr(ws))]
    ensures Dispatch(registry, name, Some(methodName), Arr(items)) == [Json(Obj(map["values" := Arr(vs)]))]
  {
    var b := Behaviour([CallArgument(k, [Null] + vs)], Return(v), [[Null] + ws]);
    DispatchRegistered(registry, name, methodName, items, b);
    OneCallback(items, k, [Null] + vs, Return(v));
    CallbackSuccess(Null, vs, Undefined);
    CallbackSuccess(Null, ws, Arr(vs));
    assert [[Null] + ws][1..] == [];
    var t := Invoke(Arguments(items, Some(k)), true, Some(b), Undefined);
    assert t == Trace([Next(Arr(vs))], Arr(vs));
    assert Settle(b.deferred, t.response).completions == [Next(Arr(ws))];
  }

  /** The client test's scenario: `doSomethingAsync('something', { another: 'thing' }, callback)`. */
  lemma ClientScenario()
    ensures
      var nested := Obj(map["nested" := Obj(map["thing" := Arr([Str("true"), Str("dat")])])]);
      var b := Behaviour([CallArgument(2, [Null, Str("Sweet"), nested])], Return(Undefined), []);
      var registry := map["Entity" := Entity(map["doSomethingAsync" := Method(b)])];
      var body := Arr([Str("something"), Obj(map["another" := Str("thing")]), Str(CLIENT_CALLBACK)]);
      Dispatch(registry, "Entity", Some("doSomethingAsync"), body)
        == [Json(Obj(map["values" := Arr([Str("Sweet"), nested])]))]
  {
    var nested := Obj(map["nested" := Obj(map["thing" := Arr([Str("true"), Str("dat")])])]);
    var items := [Str("something"), Obj(map["another" := Str("thing")]), Str(CLIENT_CALLBACK)];
    var b := Behaviour([CallArgument(2, [Null, Str("Sweet"), nested])], Return(Undefined), []);
    var registry := map["Entity" := Entity(map["doSomethingAsync" := Method(b)])];
    assert LastPlaceholder(items) == Some(2);
    assert [Null, Str("Sweet"), nested] == [Null] + [Str("Sweet"), nested];
    AsyncRoundTrip(registry, "Entity", "doSomethingAsync", items, 2, [Str("Sweet"), nested], Undefined);
  }
}
