/** `RrdMemoryBackendFactory`: a registry from storage id to the in-memory backend that holds
    that database's bytes. Opening an id reuses its backend or creates and registers a new one;
    only `delete` releases a backend, closing a database does not. */
module MemoryBackends {
  import opened ByteArray

  /** An `RrdMemoryBackend`: the id it was created for and the byte buffer it keeps. */
  class MemoryBackend {
    const path: string
    var buffer: seq<byte>

    constructor (path: string)
      ensures this.path == path && buffer == []
    {
      this.path := path;
      buffer := [];
    }
  }

  /** The registry after `open(id)` when `created` is the backend a miss would create. */
  function AfterOpen(backends: map<string, MemoryBackend>, id: string, created: MemoryBackend)
    : (r: map<string, MemoryBackend>)
    ensures id in r
    ensures id in backends ==> r == backends
    ensures id !in backends ==> r[id] == created && r.Keys == backends.Keys + {id}
    ensures forall other :: other != id ==> (other in r <==> other in backends)
    ensures forall other :: other != id && other in backends ==> r[other] == backends[other]
  {
    if id in backends then backends else backends[id := created]
  }

  /** The registry after `delete(id)`. */
  function AfterDelete(backends: map<string, MemoryBackend>, id: string): (r: map<string, MemoryBackend>)
    ensures id !in r
    ensures r.Keys == backends.Keys - {id}
    ensures forall other :: other in r ==> r[other] == backends[other]
  {
    backends - {id}
  }

  /** Deleting an id that an `open` has just registered gives back the registry as it was
      before that `open`. */
  lemma DeleteUndoesOpen(backends: map<string, MemoryBackend>, id: string, created: MemoryBackend)
    requires id !in backends
    ensures AfterDelete(AfterOpen(backends, id, created), id) == backends
  {
  }

  /** A second `open` of the same id changes nothing, whatever it would have created. */
  lemma OpenIdempotent(backends: map<string, MemoryBackend>, id: string, first: MemoryBackend,
                       second: MemoryBackend)
    ensures AfterOpen(AfterOpen(backends, id, first), id, second) == AfterOpen(backends, id, first)
  {
  }

  class MemoryBackendFactory {
    var backends: map<string, MemoryBackend>

    /** Every registered backend was created for the id it is registered under. */
    ghost predicate Valid()
      reads this
    {
      forall id :: id in backends ==> backends[id].path == id
    }

    constructor ()
      ensures Valid() && backends == map[]
    {
      backends := map[];
    }

    /** `open(id, readOnly)`: the registered backend, or a new empty one that is registered
        under `id` first. `readOnly` plays no part. */
    method Open(id: string, readOnly: bool) returns (backend: MemoryBackend)
      requires Valid()
      modifies this
      ensures Valid()
      ensures backend.path == id && Exists(id)
      ensures id in old(backends) ==> backend == old(backends)[id] && backends == old(backends)
      ensures id !in old(backends) ==> fresh(backend) && backend.buffer == []
      ensures backends == AfterOpen(old(backends), id, backend)
    {
      if id in backends {
        backend := backends[id];
      } else {
        backend := new MemoryBackend(id);
        backends := backends[id := backend];
      }
    }

    /** `exists(id)`: whether a backend is registered under `id`. */
    predicate Exists(id: string)
      reads this
    {
      id in backends
    }

    /** `shouldValidateHeader(path)`: the stored header is never re-checked for this medium. */
    function ShouldValidateHeader(path: string): (validate: bool)
      ensures !validate
    {
      false
    }

    /** `delete(id)`: unregisters the backend under `id` and reports whether there was one. */
    method Delete(id: string) returns (removed: bool)
      requires Valid()
      modifies this
      ensures Valid()
      ensures removed <==> id in old(backends)
      ensures !Exists(id)
      ensures !removed ==> backends == old(backends)
      ensures backends == AfterDelete(old(backends), id)
    {
      if id in backends {
        backends := backends - {id};
        removed := true;
      } else {
        removed := false;
      }
    }

    /** `getName()`. */
    function Name(): (name: string)
      ensures name == "MEMORY"
    {
      "MEMORY"
    }
  }

  /** A database kept under one id survives while the id stays registered: reopening it gives
      the same backend with the bytes written through the first handle. */
  method ReopenSharesBackend(factory: MemoryBackendFactory, id: string, bytes: seq<byte>)
    returns (first: MemoryBackend, second: MemoryBackend)
    requires factory.Valid()
    modifies factory, factory.backends.Values
    ensures first == second && second.buffer == bytes
  {
    first := factory.Open(id, false);
    first.buffer := bytes;
    second := factory.Open(id, true);
  }

  /** After `delete(id)`, opening `id` again gives a new, empty backend, never the deleted one. */
  method DeleteThenOpen(factory: MemoryBackendFactory, id: string)
    returns (deleted: MemoryBackend, reopened: MemoryBackend)
    requires factory.Valid()
    modifies factory
    ensures reopened != deleted && reopened.buffer == [] && fresh(reopened)
    ensures factory.backends == old(factory.backends)[id := reopened]
  {
    deleted := factory.Open(id, false);
    var removed := factory.Delete(id);
    assert removed;
    reopened := factory.Open(id, false);
  }
}
