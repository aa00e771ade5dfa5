/**
 * The entity registry the router reads: entity name -> object of members.
 * The code of an entity method is not part of this model; it is described by
 * a `Behaviour`, the observable things it does with the arguments it is given.
 */
module Entities {
  import opened Values

  /** The method calls its argument at `position` as a function, with `args`. */
  datatype Step = CallArgument(position: nat, args: seq<Value>)

  /** How the synchronous part of a method call ends: a return, or a throw. */
  datatype Ending = Return(value: Value) | Throw(error: Value)

  /**
   * A method's behaviour: the calls it makes synchronously, in order, then how
   * it ends; `deferred` are the argument lists it later passes to the callback
   * it was handed (from a timer or an I/O completion), after it has returned.
   */
  datatype Behaviour = Behaviour(steps: seq<Step>, ending: Ending, deferred: seq<seq<Value>>)

  /** A member of an entity object: a function, or any other property value. */
  datatype Member = Method(behaviour: Behaviour) | Property(value: Value)

  /** What `entities[name]` holds: nothing truthy, or an object of members. */
  datatype Entity = NoEntity | Entity(members: map<string, Member>)

  type Registry = map<string, Entity>

  /** `entities[name]`: an unregistered name reads as `undefined`. */
  function Lookup(registry: Registry, name: string): (e: Entity)
    ensures name !in registry ==> e.NoEntity?
    ensures name in registry ==> e == registry[name]
  {
    if name in registry then registry[name] else NoEntity
  }

  /** `typeof entity[methodName] === 'function'`. */
  predicate IsFunction(entity: Entity, methodName: string) {
    entity.Entity? && methodName in entity.members && entity.members[methodName].Method?
  }

  /** The function `req.entity[req.params.method]`, if there is one. */
  function Target(entity: Entity, methodParam: Option<string>): (t: Option<Behaviour>)
    ensures t.Some? <==> methodParam.Some? && IsFunction(entity, methodParam.value)
    ensures t.Some? ==> entity.members[methodParam.value] == Method(t.value)
  {
    if methodParam.Some? && IsFunction(entity, methodParam.value)
    then Some(entity.members[methodParam.value].behaviour)
    else None
  }
}
