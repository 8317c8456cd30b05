/** A way to keep a definition closed, so that the solver looks into it only on request.

    A closed predicate is written "forall k: nat :: Open(k) ==> body".  As Open is true of
    every number this means the same as the body, but the quantifier can only be used where
    some Open(k) occurs: `assert Open(0);` opens the closed predicates of that proof, and
    `assert P(x) by { assert Open(0); }` those of one step. */
module Locks {
  ghost predicate Open(k: nat) { true }
}
