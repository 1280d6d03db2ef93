/** How an array answers. Calls are numbered by a clock; a call that is not answered changes nothing. */
module Faults {

  /** `call(n)` says whether call number `n` is answered. `listing(n)` says it for the calls that
      list children or LUNs: the driver does not stop when these fail, it acts on an empty list. */
  datatype Script = Script(call: nat -> bool, listing: nat -> bool)

  ghost predicate Answers(f: Script) {
    forall n :: f.call(n)
  }

  /** The `n` calls from number `t` on are answered. */
  ghost predicate Answered(f: Script, t: nat, n: nat) {
    forall k :: t <= k < t + n ==> f.call(k)
  }

  ghost predicate Reliable(f: Script) {
    Answers(f) && Listing(f)
  }

  ghost predicate Listing(f: Script) {
    forall n :: f.listing(n)
  }

  datatype Reply<+T> = Answer(value: T) | NotFound | Lost
}
