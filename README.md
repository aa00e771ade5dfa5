# isomorphine router pipeline, modelled in Dafny

isomorphine lets browser code call server-side "entities" (named groups of
functions) as if they were local objects. On the server, one call goes through
four Express middleware stages in `lib/router/controllers.js`, all working on
the same `req`/`res` pair:

1. `entityLoader` looks the entity up in the registry and checks, in a fixed
   order, that it is registered, that a method was requested and that the
   member is a function.
2. `getPayload` turns `body.payload` (or `[]`) into the argument list and scans
   it for the reserved token `'__clientCallback__'`. A match makes the call
   asynchronous and records where the callback belongs.
3. `callEntityMethod` overwrites that slot with an error-first callback and
   invokes the method. A throw becomes `next(err)`. A synchronous call answers
   `['Ok']`. An asynchronous call is answered only through its callback.
4. `serve` requires the response to be an array and sends `{ values: ... }`.

The model has five modules:

- `Values` (`values.dfy`): JavaScript values with their truthiness, and the
  placeholder token.
- `Entities` (`entities.dfy`): the registry as a map from names to entities.
  An entity method is given as a `Behaviour`: the argument calls it makes in
  order, whether it returns or throws, and the callback calls it makes later.
- `Stages` (`stages.dfy`): what each stage means, as functions, with lemmas
  about them.
- `Controllers` (`controllers.dfy`): the class `Context` holds the request and
  response fields the stages assign. It has one method per stage plus
  `ClientCallback`, the synthesized callback. Each method is proved against
  the `Stages` functions.
- `Pipeline` (`pipeline.dfy`): the stages chained as the router runs them.
  `Dispatch` gives the reply one call gets, if any. `Handle` runs the
  `Context` methods and is proved to produce exactly `Dispatch`'s replies.
  End-to-end lemmas cover each outcome.

Each `next()` or `next(err)` of the third stage is recorded as a `Completion`.
The model keeps all of them, because the code does not guard against
completing twice. Every one of them calls the same Express `next`, and each
call moves the route one handler on. So only the first reaches `serve`, or
skips it for the error handler when it carries a truthy error. Every later call
finds no handler left in the route and gets no reply. An empty reply list means
the request hangs.

Three facts about the code shape the model:

- The `forEach` scan overwrites `clientCallbackIndex` on every match, so when
  the payload holds the token more than once, the last one gets the callback
  (`LastPlaceholder`, `LastPlaceholderWins`).
- The callback and the stage have no guard against completing twice. A
  callback followed by a throw, or a callback fired twice, calls `next`
  twice. Only the first call is answered
  (`CallbackThenThrowCompletesTwice`, `CallbackTwiceCompletesTwice`).
- A truthy `body.payload` that is not an array makes `forEach` throw, so the
  second stage can fail (`Decode`, `Context.GetPayload`).

## Model

| member | source | states |
|---|---|---|
| `Entities.Lookup` | lib/router/controllers.js:20 | `entities[name]`: an unregistered name gives no entity; a registered one gives its entry |
| `Entities.Target` | lib/router/controllers.js:88 | `req.entity[method]` is a callable target exactly when the member exists and is a function, and it is that member |
| `Stages.Resolve` | lib/router/controllers.js:13-35 | the loader continues iff the entity is truthy, a non-empty method name was given and the member is a function; every failure is an Error |
| `Stages.ResolveOrder` | lib/router/controllers.js:22-32 | the three failures are checked in order: unregistered first (whatever the method), then no method, then not a function, each with its exact message |
| `Stages.FailureMessagesDistinct` | lib/router/controllers.js:22-32 | the three failure messages differ from each other for any entity and method names |
| `Stages.Decode` | lib/router/controllers.js:44-47 | a missing or falsy payload becomes `[]`; an array becomes its elements; a truthy non-array cannot be scanned |
| `Stages.LastPlaceholder` | lib/router/controllers.js:47-52 | the recorded index is absent iff no element is the token; otherwise it holds the token and no later element does, so it is the last match |
| `Stages.LastPlaceholderWins` | lib/router/controllers.js:47-52 | with two placeholders, the slot chosen is at or after the later one |
| `Stages.SuccessValues` | lib/router/controllers.js:75 | the callback's values are all arguments after the first, in order |
| `Stages.CallbackCompletion` | lib/router/controllers.js:70-81 | the callback fails exactly when its first argument is truthy, and then with that argument; otherwise it continues with the array of the remaining arguments |
| `Stages.CallbackSuccess` | lib/router/controllers.js:74-81 | `callback(falsy, v1..vn)` continues with, and sets the response to, exactly `[v1..vn]` |
| `Stages.CallbackFailure` | lib/router/controllers.js:71-73 | `callback(err, ...)` with a truthy `err` fails with `err` and leaves the response unchanged |
| `Stages.After` | lib/router/controllers.js:79-81 | a `next()` overwrites `entityResponse` with its response; a `next(err)` leaves it |
| `Stages.Current` | lib/router/controllers.js:74-81 | `entityResponse` after a run of `next` calls: unchanged if none is a `next()`, otherwise the response of the latest `next()` |
| `Stages.CurrentSnoc` | lib/router/controllers.js:79-81 | one more `next` call at the end updates `entityResponse` as that call alone would |
| `Stages.ApplySteps` | lib/router/controllers.js:87-91 | running the method: every `next()` it causes carries an array, and it causes at most one per step |
| `Stages.ApplyStepsCompletions` | lib/router/controllers.js:70-91 | the `k`-th `next` call during the run comes from the method's `k`-th step, which calls the callback, and is that call's completion |
| `Stages.ApplyStepsThrown` | lib/router/controllers.js:87-91 | the run throws nothing iff every step calls a function and the method returns; it throws the method's own error when every step could run; otherwise it throws the TypeError, and the run stopped at the first step that calls a non-function |
| `Stages.RunMethod` | lib/router/controllers.js:88 | `.apply` on a missing method throws the TypeError before any call; otherwise at most one `next` per step of the method, each `next()` with an array |
| `Stages.Invoke` | lib/router/controllers.js:87-99 | every `next()` the third stage makes carries an array response (what each completion is: `ThrowEndsWithError`, `ReturnCompletions`) |
| `Stages.Settle` | lib/router/controllers.js:70-82 | each later callback call makes exactly one `next` call, and every `next()` carries an array |
| `Stages.SettleCompletions` | lib/router/controllers.js:70-82 | the `k`-th later `next` call is the completion of the `k`-th later callback call |
| `Stages.ApplyStepsResponse` | lib/router/controllers.js:79-88 | after the method's run, `entityResponse` is the response of its latest `next()`, or what it was |
| `Stages.InvokeResponse` | lib/router/controllers.js:79-97 | after the third stage, `entityResponse` is the response of its latest `next()`, or what it was |
| `Stages.SettleResponse` | lib/router/controllers.js:79 | after the later callback calls, `entityResponse` is the response of the latest `next()`, or what it was |
| `Stages.SyncCompletesOnce` | lib/router/controllers.js:87-99 | a call without a callback calls `next` exactly once; it is `next()` with `['Ok']` iff the method neither calls an argument nor throws |
| `Stages.ThrowEndsWithError` | lib/router/controllers.js:87-91 | a method that throws, or calls a non-function, ends the stage with `next(err)` for the thrown value, after the completions of all its steps when every step calls a function, or of the steps before the first call of a non-function; `['Ok']` is never sent |
| `Stages.ReturnCompletions` | lib/router/controllers.js:87-99 | a method that returns after calling only its callback gives those completions, followed by `next()` with `['Ok']` exactly for a synchronous call |
| `Stages.ReturnValueIgnored` | lib/router/controllers.js:93-96 | the method's return value has no effect on the outcome |
| `Stages.AsyncContinuesOnlyThroughCallback` | lib/router/controllers.js:67-99 | for an asynchronous call, the `k`-th `next()` of the stage is the completion of the method's `k`-th step, a call of the callback; the stage itself never continues |
| `Stages.AsyncPending` | lib/router/controllers.js:93-99 | an async call whose method returns without calling back makes no `next` call and leaves the response as it was |
| `Stages.Serve` | lib/router/controllers.js:105-107 | the reply is JSON iff the response is an array, and then it is an object whose only field `values` holds the response; otherwise it is the invariant failure |
| `Stages.ServeRoundTrip` | lib/router/controllers.js:107 | reading `values` back from a served list gives the same list |
| `Controllers.Context.constructor` | lib/router/controllers.js:13-20 | a fresh request/response pair with no field set yet |
| `Controllers.Context.EntityLoader` | lib/router/controllers.js:13-35 | sets `entityName` and `entity` before any check (so also on failure), and its verdict is `Resolve`'s; nothing else changes |
| `Controllers.Context.GetPayload` | lib/router/controllers.js:41-57 | resets `isAsync`; the payload is the decoded list with its elements unchanged; `isAsync` iff some element is the token; the index is the last match; fails only on a non-array truthy payload |
| `Controllers.Context.ClientCallback` | lib/router/controllers.js:70-82 | a truthy first argument fails with it and leaves `entityResponse`; otherwise `entityResponse` becomes the arguments after the first and the chain continues |
| `Controllers.Context.RunEntityMethod` | lib/router/controllers.js:88 | running the method on the payload gives `ApplySteps`'s completions, throw and response |
| `Controllers.Context.CallEntityMethod` | lib/router/controllers.js:62-100 | the payload keeps its length; only the callback slot changes, and only for an async call; the completions and the response are `Invoke`'s |
| `Pipeline.ReplyTo` | lib/router/controllers.js:105-107 | the `next` call that reaches `serve`: `next()` is served; a truthy `next(err)` is an error reply with that error, except `'route'` and `'router'`, which leave the route; a falsy `next(err)` runs `serve` on the current response |
| `Pipeline.Replies` | lib/router/controllers.js:62-107 | all the third stage's `next` calls share one route `next`: the first one gets its `ReplyTo` reply, and no later one gets a reply |
| `Pipeline.Arguments` | lib/router/controllers.js:67-82 | the payload handed to the method keeps its length; only the callback slot, if there is one, holds the callback |
| `Pipeline.ThirdStage` | lib/router/controllers.js:62-100 | every `next` call of the third stage and the later callback calls; each `next()` carries an array, and a synchronous call always calls `next` |
| `Pipeline.Dispatch` | lib/router/controllers.js:13-107 | the whole chain: at most one reply per call, and a call stopped by the first two stages gets an error reply |
| `Pipeline.Handle` | lib/router/controllers.js:13-107 | running the four stage methods on a fresh context gives exactly `Dispatch`'s replies |
| `Pipeline.InvariantFailsIffFirstIsFalsy` | lib/router/controllers.js:105-107 | from a non-array response, the serve invariant fails iff the first `next` call is a falsy `next(err)` |
| `Pipeline.FalsyFailuresComeFromThrow` | lib/router/controllers.js:70-91 | a falsy `next(err)` in the third stage only comes from the method throwing that value: callbacks never produce one |
| `Pipeline.InvariantFailsOnlyOnFalsyThrow` | lib/router/controllers.js:13-107 | a call ends in the serve invariant failure iff it reaches a method that throws a falsy value before calling anything |
| `Pipeline.UnregisteredEntityFails` | lib/router/controllers.js:19-24 | an unregistered or falsy entity gives one error reply, the "not registered" message, and nothing is invoked |
| `Pipeline.MissingMethodFails` | lib/router/controllers.js:26-28 | a registered entity with no method requested gives one error reply, the "no method" message |
| `Pipeline.NotAFunctionFails` | lib/router/controllers.js:30-32 | a requested member that is missing or not a function gives one error reply, the "not a function" message |
| `Pipeline.SyncAcknowledged` | lib/router/controllers.js:93-99 | a call without a placeholder to a method that returns, whatever it returns, is answered `{ values: ['Ok'] }` |
| `Pipeline.AsyncRoundTrip` | lib/router/controllers.js:67-81 | a method calling back `(null, v1..vn)` in the last placeholder's slot is answered exactly `{ values: [v1..vn] }` |
| `Pipeline.DeferredRoundTrip` | lib/router/controllers.js:70-81 | the same reply when the callback fires after the method has returned |
| `Pipeline.AsyncErrorPropagates` | lib/router/controllers.js:70-73 | a callback fired with a truthy error (not `'route'` or `'router'`) gives one error reply with that error and no `values` |
| `Pipeline.ThrowPropagates` | lib/router/controllers.js:87-91 | a method throwing a truthy value (not `'route'` or `'router'`) gives one error reply with the thrown value, the same shape as a callback error |
| `Pipeline.ExitSignalPassesOn` | lib/router/controllers.js:87-91 | a method throwing `'route'` or `'router'` leaves the route: neither `serve` nor the error handler answers |
| `Pipeline.FalsyThrowFailsInvariant` | lib/router/controllers.js:87-91 | a method throwing `null`, `0` or `''` reaches the serve stage with no response set, and the invariant fails |
| `Pipeline.NeverCalledBackHangs` | lib/router/controllers.js:93-99 | an async call whose method never calls back gets no reply |
| `Pipeline.CallbackThenThrowCompletesTwice` | lib/router/controllers.js:70-91 | a callback followed by a throw calls `next` twice, `next()` then `next(err)`, and gets one reply, the values |
| `Pipeline.CallbackTwiceCompletesTwice` | lib/router/controllers.js:70-82 | a callback fired twice calls `next()` twice, and gets one reply, the first call's values |
| `Pipeline.ClientScenario` | test/client.js:39-46 | `doSomethingAsync('something', {another:'thing'}, cb)` calling back `(null, 'Sweet', {nested:{thing:['true','dat']}})` is answered with exactly those two values |

## Left out

- The registry's own module (`lib/stores/entities`) is not part of this model. Its registration and reset operations are absent. The registry is a map given to each call.
- JavaScript property lookup through the prototype chain is not modelled. `entities['toString']` or a method named `hasOwnProperty` would resolve in JavaScript. In the model, only registered names and members exist.
- `src/server/factory.js` is not part of this model. It builds the registry by scanning directories and calling `require`.
- Entity methods are not executed. Each is a `Behaviour` that lists the argument calls it makes, how it ends, and the callback calls it defers. Callback calls are deferred only for an asynchronous call, since only then does the method hold a callback. The `this` binding passed to `apply` has no counterpart.
- `lib/server/router.js` is not part of this model. The model takes `entityLoader` to be the handler of the entity parameter. It takes `getPayload`, `callEntityMethod` and `serve` to be the handlers of one route, in that order, as Express 4 dispatches them. Express's own code is not part of this model.
- Routing is reduced to the reply the client gets. What Express does with a `next` call after the route is exhausted is left out: it finds the headers sent and closes the connection.
- ExitSignalPassesOn: `next('route')` leaves the route without moving its handler index, so a later `next()` could still reach `serve` after Express has answered 404. The model gives later calls no reply. `'router'` is an exit signal from Express 4.15 on. Before that it is an ordinary error.
- AsyncErrorPropagates, ThrowPropagates: they exclude `'route'` and `'router'`, which are not errors to Express. `ExitSignalPassesOn` states what those give.
- `Value` can hold a `Callback` or an `Error` in `body.payload`, which a JSON body cannot carry. The model does not exclude such payloads. A `Callback` placed in the payload by the caller would count as callable in `Callable`, although no such body can reach the router.
- Context.GetPayload: on a truthy non-array payload, `req.payload` holds that value in the code. The model leaves the field unchanged, because the chain stops there.
- Context.GetPayload: in JavaScript `req.payload` is the same array as `req.body.payload`, so the substitution also changes the body. The model copies the list and does not capture that aliasing.
- The wording of the TypeErrors the JavaScript engine throws is not modelled. The model uses fixed messages.
- Context.CallEntityMethod: run without a requested method, it finds no target. JavaScript would read a property named "undefined". The router never runs this stage before `entityLoader` has passed.
- Debug logging, `JSON.stringify` and the HTTP output of `res.json` are left out. `util.invariant` is not part of this model; it is represented as an invariant-failure reply.
- `req.async` is `undefined` before `getPayload` runs. The model starts it as `false`, which has the same truthiness.
- Numbers are integers, so floating point and `NaN` are not modelled.
- The code has no timeouts, so none are modelled. Concurrency between requests is also left out, because each request has its own context.
