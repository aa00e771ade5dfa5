/**
 * The router's middleware stages, each working on the shared request and
 * response objects of one call.
 */
module Controllers {
  import opened Values
  import opened Entities
  import opened Stages

  /**
   * The request/response pair of one call. `methodParam` is
   * `req.params.method` and `bodyPayload` is `req.body.payload` (`Undefined`
   * when absent); the other fields are the ones the stages set.
   */
  class Context {
    const methodParam: Option<string>
    const bodyPayload: Value
    var entityName: Option<string>
    var entity: Entity
    var isAsync: bool
    var payload: seq<Value>
    var clientCallbackIndex: Option<nat>
    var entityResponse: Value

    /** After the payload scan, an asynchronous call knows where its callback slot is. */
    ghost predicate Valid()
      reads this
    {
      isAsync ==> clientCallbackIndex.Some? && clientCallbackIndex.value < |payload|
    }

    /** A fresh call: nothing set yet (unset fields read as `undefined`). */
    constructor (methodParam: Option<string>, bodyPayload: Value)
      ensures this.methodParam == methodParam && this.bodyPayload == bodyPayload
      ensures entityName == None && entity == NoEntity && !isAsync && payload == []
      ensures clientCallbackIndex == None && entityResponse == Undefined
      ensures Valid()
    {
      this.methodParam := methodParam;
      this.bodyPayload := bodyPayload;
      entityName := None;
      entity := NoEntity;
      isAsync := false;
      payload := [];
      clientCallbackIndex := None;
      entityResponse := Undefined;
    }

    /**
     * `entityLoader`: records the entity name and the registry's entry, then
     * checks, in order, that the entity is registered, that a method was
     * requested and that it is a function.
     */
    method EntityLoader(registry: Registry, name: string) returns (o: Outcome)
      modifies this`entityName, this`entity
      ensures entityName == Some(name) && entity == Lookup(registry, name)
      ensures o == Resolve(entity, name, methodParam)
    {
      entityName := Some(name);
      entity := Lookup(registry, name);
      if entity.NoEntity? {
        return Fail(Error(UnregisteredMessage(name)));
      }
      if !Present(methodParam) {
        return Fail(Error(NoMethodMessage(name)));
      }
      if !IsFunction(entity, methodParam.value) {
        return Fail(Error(NotAFunctionMessage(methodParam.value)));
      }
      return Continue;
    }

    /**
     * `getPayload`: the payload becomes `body.payload || []`, and the scan over
     * it marks the call asynchronous at every placeholder, keeping the index of
     * the last one. A truthy payload that is not an array cannot be scanned:
     * the stage fails with the TypeError.
     */
    method GetPayload() returns (o: Outcome)
      modifies this`isAsync, this`payload, this`clientCallbackIndex
      ensures Valid()
      ensures o.Continue? <==> Decode(bodyPayload).Some?
      ensures o.Fail? ==> o.err == PAYLOAD_NOT_LIST && !isAsync && payload == old(payload)
      ensures o.Continue? ==> payload == Decode(bodyPayload).value
      ensures o.Continue? ==> (isAsync <==> exists i :: 0 <= i < |payload| && IsPlaceholder(payload[i]))
      ensures o.Continue? ==> (isAsync <==> LastPlaceholder(payload).Some?)
      ensures isAsync ==> clientCallbackIndex == LastPlaceholder(payload)
      ensures !isAsync ==> clientCallbackIndex == old(clientCallbackIndex)
    {
      isAsync := false;
      var decoded := Decode(bodyPayload);
      if decoded.None? {
        return Fail(PAYLOAD_NOT_LIST);
      }
      payload := decoded.value;
      var i := 0;
      while i < |payload|
        invariant 0 <= i <= |payload|
        invariant payload == decoded.value
        invariant isAsync == LastPlaceholder(payload[..i]).Some?
        invariant isAsync ==> clientCallbackIndex == LastPlaceholder(payload[..i])
        invariant !isAsync ==> clientCallbackIndex == old(clientCallbackIndex)
      {
        assert payload[..i + 1][..i] == payload[..i];
        if IsPlaceholder(payload[i]) {
          isAsync := true;
          clientCallbackIndex := Some(i);
        }
        i := i + 1;
      }
      assert payload[..i] == payload;
      return Continue;
    }

    /**
     * The callback synthesized for an asynchronous call: a truthy first
     * argument fails the call with it; otherwise the remaining arguments
     * become the response and the chain continues. Nothing stops it from
     * being called more than once.
     */
    method ClientCallback(args: seq<Value>) returns (c: Completion)
      modifies this`entityResponse
      ensures c == CallbackCompletion(args)
      ensures entityResponse == After(c, old(entityResponse))
      ensures c.NextErr? ==> c.err == ErrorArgument(args) && entityResponse == old(entityResponse)
      ensures c.Next? ==> entityResponse == Arr(SuccessValues(args)) && c.response == entityResponse
    {
      var err := ErrorArgument(args);
      if Truthy(err) {
        return NextErr(err);
      }
      entityResponse := Arr(SuccessValues(args));
      return Next(entityResponse);
    }

    /**
     * `req.entity[method].apply(this, payload)`: the method runs its steps on
     * the payload; each call of the callback goes through `ClientCallback`,
     * a call of anything else throws and ends the method.
     */
    method RunEntityMethod(b: Behaviour) returns (completions: seq<Completion>, thrown: Option<Value>)
      modifies this`entityResponse
      ensures var r := ApplySteps(payload, b.steps, b.ending, old(entityResponse));
        completions == r.completions && thrown == r.thrown && entityResponse == r.response
    {
      completions := [];
      var i := 0;
      while i < |b.steps|
        invariant 0 <= i <= |b.steps|
        invariant var rest := ApplySteps(payload, b.steps[i..], b.ending, entityResponse);
          ApplySteps(payload, b.steps, b.ending, old(entityResponse))
            == Run(completions + rest.completions, rest.response, rest.thrown)
      {
        var step := b.steps[i];
        assert b.steps[i..][0] == step && b.steps[i..][1..] == b.steps[i + 1..];
        if !Callable(payload, step.position) {
          return completions, Some(NOT_A_FUNCTION);
        }
        var c := ClientCallback(step.args);
        completions := completions + [c];
        i := i + 1;
      }
      thrown := if b.ending.Throw? then Some(b.ending.error) else None;
    }

    /**
     * `callEntityMethod`: for an asynchronous call, overwrites the callback
     * slot of the payload (and only it) with the callback, then invokes the
     * method. A throw is handed on as `next(err)`; otherwise a synchronous call
     * answers `['Ok']` and an asynchronous one is left to its callback.
     */
    method CallEntityMethod() returns (completions: seq<Completion>)
      requires Valid()
      modifies this`payload, this`entityResponse
      ensures |payload| == |old(payload)|
      ensures isAsync ==> payload == old(payload)[clientCallbackIndex.value := Callback]
      ensures !isAsync ==> payload == old(payload)
      ensures var t := Invoke(payload, isAsync, Target(entity, methodParam), old(entityResponse));
        completions == t.completions && entityResponse == t.response
    {
      if isAsync {
        payload := payload[clientCallbackIndex.value := Callback];
      }
      var target := Target(entity, methodParam);
      var thrown: Option<Value>;
      if target.None? {
        completions, thrown := [], Some(NOT_A_FUNCTION);
      } else {
        completions, thrown := RunEntityMethod(target.value);
      }
      if thrown.Some? {
        completions := completions + [NextErr(thrown.value)];
        return;
      }
      if !isAsync {
        entityResponse := ACK;
        completions := completions + [Next(entityResponse)];
      }
    }
  }
}
