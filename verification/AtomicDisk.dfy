/**
 The reference model that log.c and bio.c together must implement: a disk
 whose writes are buffered and become durable all at once, only at a moment
 when no operation is in progress. A crash falls back to the durable contents.
 */
module AtomicDisk {
  import opened Blocks

  datatype Spec = Spec(volatile: map<nat, Block>, durable: map<nat, Block>, ops: nat)

  datatype Event =
    | Stutter
    | Begin
    | End
    | Write(b: nat, data: Block)
    | Commit
    | Crash

  predicate Allowed(a: Spec, e: Event) {
    match e
    case Stutter => true
    case Begin => true
    case End => a.ops > 0
    case Write(b, _) => a.ops > 0 && b in a.volatile
    case Commit => a.ops == 0
    case Crash => true
  }

  function Apply(a: Spec, e: Event): Spec
    requires Allowed(a, e)
  {
    match e
    case Stutter => a
    case Begin => a.(ops := a.ops + 1)
    case End => a.(ops := a.ops - 1)
    case Write(b, data) => a.(volatile := a.volatile[b := data])
    case Commit => a.(durable := a.volatile)
    case Crash => Spec(a.durable, a.durable, 0)
  }
}
