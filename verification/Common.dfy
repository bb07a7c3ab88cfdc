/** What several modules need: the width of a machine word, bytes, optional
    values and the size of a subset. */
module Common {

  const U32 := 0x1_0000_0000

  type Byte = x: int | 0 <= x < 256

  datatype Option<T> = None | Some(value: T)

  lemma {:induction false} SubsetSize(a: set<nat>, b: set<nat>)
    requires a <= b
    ensures |a| <= |b|
  {
    if a != {} {
      var x :| x in a;
      SubsetSize(a - {x}, b - {x});
    }
  }
}
