/** Types that several parts of the model use. */
module Basics {

  datatype Option<T> = None | Some(value: T)

  /** Kinds of heap blocks. */
  datatype Kind = PtrFree | Normal | Uncollectable | AtomicUncollectable {
    predicate IsUncollectable() { Uncollectable? || AtomicUncollectable? }
    predicate HasPointers() { Normal? || Uncollectable? }
  }
}
