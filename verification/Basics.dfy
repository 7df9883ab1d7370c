/** What several components share. */
module Basics {

  datatype Option<T> = None | Some(value: T)

  /** A supply of random values: none is ever repeated... */
  ghost predicate NoRepeats(random: nat -> string) {
    forall i, j :: random(i) == random(j) ==> i == j
  }

  /** ... and none of those still to come was drawn before. */
  ghost predicate Unspent(random: nat -> string, drawn: nat, values: set<string>) {
    forall i: nat :: i >= drawn ==> random(i) !in values
  }
}
