/** What several modules share. */
module Basics {
  datatype Option<+T> = None | Some(value: T)

  lemma MulMonotone(a: nat, b: nat, unit: nat)
    ensures a <= b ==> a * unit <= b * unit
    ensures (a + 1) * unit == a * unit + unit
  {
  }
}
