module DiffHandlers {
  /** Collects what a comparison reports. */
  class DiffHandler<T> {
    var received: seq<T>

    constructor ()
      ensures received == []
    {
      received := [];
    }

    method Handle(x: T)
      modifies this
      ensures received == old(received) + [x]
    {
      received := received + [x];
    }
  }
}
