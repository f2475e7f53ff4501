/** Constants and small facts the parts share. */
module Basics {

  const PAGE: nat := 4096
  const TWO63: nat := 0x8000_0000_0000_0000
  const TWO64: nat := 0x1_0000_0000_0000_0000

  datatype Option<T> = None | Some(value: T)

  /** Page addresses are a page apart. */
  lemma PageGap(a: nat, b: nat)
    requires a % PAGE == 0 && b % PAGE == 0
    ensures a < b ==> a + PAGE <= b
  {
  }

  lemma WholePages(a: nat, b: nat)
    requires a % PAGE == 0 && b % PAGE == 0
    ensures (a + b) % PAGE == 0 && (b <= a ==> (a - b) % PAGE == 0)
  {
  }

  lemma SubsetSize<T>(a: set<T>, b: set<T>)
    requires a <= b
    ensures |b - a| == |b| - |a| && (|a| == |b| <==> a == b)
  {
    assert b == a + (b - a);
  }
}
