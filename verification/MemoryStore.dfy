/** `MemoryStore.transaction` as the steps between its awaits: each caller takes the next place
    in the promise queue, then works on a private copy of the state. */
module MemoryStore {
  import opened Common

  /** An operation, as the stretches of its code between two awaits; `None` is a throw. */
  type Operation<!S> = seq<S -> Option<S>>

  datatype Phase<S> =
    | Waiting
    | Running(working: S, done: nat)
    | Finished(committed: bool)

  datatype Transaction<!S> = Transaction(operation: Operation<S>, phase: Phase<S>)

  /** The committed state, and all transactions in the order of their calls. */
  datatype Store<!S> = Store(state: S, queue: seq<Transaction<S>>)

  datatype Event<!S> = Invoke(operation: Operation<S>) | Resume(k: nat)

  /** The promise that transaction k awaits is resolved when its predecessor has released it. */
  predicate CanResume<S>(store: Store<S>, k: nat) {
    && k < |store.queue|
    && match store.queue[k].phase
       case Waiting => k == 0 || store.queue[k - 1].phase.Finished?
       case Running(_, _) => true
       case Finished(_) => false
  }

  function SetPhase<S>(store: Store<S>, k: nat, phase: Phase<S>): Store<S>
    requires k < |store.queue|
  {
    store.(queue := store.queue[k := store.queue[k].(phase := phase)])
  }

  /** One stretch: clone the state, run the operation up to its next await, or commit. */
  function Resumed<S>(store: Store<S>, k: nat): Store<S>
    requires CanResume(store, k)
  {
    var t := store.queue[k];
    match t.phase
    case Waiting => SetPhase(store, k, Running(store.state, 0))
    case Running(working, done) =>
      if done < |t.operation| then
        (match t.operation[done](working)
         case Some(working') => SetPhase(store, k, Running(working', done + 1))
         case None => SetPhase(store, k, Finished(false)))
      else SetPhase(store, k, Finished(true)).(state := working)
  }

  function Next<S>(store: Store<S>, e: Event<S>): Store<S> {
    match e
    case Invoke(operation) => store.(queue := store.queue + [Transaction(operation, Waiting)])
    case Resume(k) => if CanResume(store, k) then Resumed(store, k) else store
  }

  function Run<S>(store: Store<S>, events: seq<Event<S>>): Store<S>
    decreases |events|
  {
    if events == [] then store else Run(Next(store, events[0]), events[1..])
  }

  // ---- The serial reading -------------------------------------------------------------------

  /** The operation run alone from start to end. */
  function Apply<S>(operation: Operation<S>, s: S): Option<S>
    decreases |operation|
  {
    if operation == [] then Some(s)
    else
      var last := |operation| - 1;
      match Apply(operation[..last], s)
      case Some(s') => operation[last](s')
      case None => None
  }

  /** All operations one after the other; a throwing one leaves no trace. */
  function Serial<S>(s: S, operations: seq<Operation<S>>): S
    decreases |operations|
  {
    if operations == [] then s
    else
      var last := |operations| - 1;
      var before := Serial(s, operations[..last]);
      match Apply(operations[last], before)
      case Some(after) => after
      case None => before
  }

  function Operations<S>(queue: seq<Transaction<S>>): (operations: seq<Operation<S>>)
    ensures |operations| == |queue|
  {
    seq(|queue|, i requires 0 <= i < |queue| => queue[i].operation)
  }

  /** The object: `Begin` is the synchronous part of `transaction`, `Continue` what the event
      loop runs next for caller k. */
  class Memory<!S> {
    var state: S
    var queue: seq<Transaction<S>>

    constructor (seed: S)
      ensures Store(state, queue) == Store(seed, [])
    {
      state := seed;
      queue := [];
    }

    method Begin(operation: Operation<S>) returns (k: nat)
      modifies this
      ensures Store(state, queue) == Next(Store(old(state), old(queue)), Invoke(operation)) && k == |old(queue)|
    {
      k := |queue|;
      queue := queue + [Transaction(operation, Waiting)];
    }

    method Continue(k: nat)
      modifies this
      ensures Store(state, queue) == Next(Store(old(state), old(queue)), Resume(k))
    {
      if !CanResume(Store(state, queue), k) {
        return;
      }
      var t := queue[k];
      match t.phase
      case Waiting => queue := queue[k := t.(phase := Running(state, 0))];
      case Running(working, done) =>
        if done >= |t.operation| {
          state := working;
          queue := queue[k := t.(phase := Finished(true))];
        } else {
          match t.operation[done](working)
          case Some(working') => queue := queue[k := t.(phase := Running(working', done + 1))];
          case None => queue := queue[k := t.(phase := Finished(false))];
        }
    }
  }
}
