/**
 * The assistant's conversation store (`ContextManager`): an in-memory table from context id
 * to context. The coroutines run to completion one at a time, so they are plain calls here.
 */
module Contexts {
  import opened Wrappers
  import opened PyDict
  import opened Json

  /** A conversation context, `Dict[str, Any]`. */
  type Context = Dict<Value>

  class ContextManager {
    var contexts: map<string, Context>

    constructor ()
      ensures contexts == map[]
    {
      contexts := map[];
    }

    /** `load(context_id)`: `self.contexts.get(context_id)`. */
    function Load(contextId: string): (r: Option<Context>)
      reads this
      ensures r.Some? <==> contextId in contexts
      ensures r.Some? ==> r.value == contexts[contextId]
    {
      if contextId in contexts then Some(contexts[contextId]) else None
    }

    /** `save(context_id, context)`: store it, replacing any earlier one; other ids keep theirs. */
    method Save(contextId: string, context: Context)
      modifies this
      ensures contexts == old(contexts)[contextId := context]
      ensures Load(contextId) == Some(context)
      ensures forall other :: other != contextId ==> Load(other) == old(Load(other))
    {
      contexts := contexts[contextId := context];
    }

    /** `clear(context_id)`: forget it if present (no error if absent); other ids keep theirs. */
    method Clear(contextId: string)
      modifies this
      ensures contexts == old(contexts) - {contextId}
      ensures Load(contextId) == None
      ensures contextId !in old(contexts) ==> contexts == old(contexts)
      ensures forall other :: other != contextId ==> Load(other) == old(Load(other))
    {
      if contextId in contexts {
        contexts := contexts - {contextId};
      }
    }
  }

  /** A new manager knows no context. */
  lemma NewManagerIsEmpty(m: ContextManager, contextId: string)
    requires m.contexts == map[]
    ensures m.Load(contextId) == None
  {
  }
}
