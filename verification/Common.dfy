/** Types shared by the models. */
module Common {
  type byte = bv8

  datatype Option<+T> = None | Some(value: T)

  function Concat<T>(parts: seq<seq<T>>): seq<T> {
    if parts == [] then [] else Concat(parts[..|parts| - 1]) + parts[|parts| - 1]
  }

  /** Some x switched it on and none after it off. */
  ghost predicate Since<T>(xs: seq<T>, on: T -> bool, off: T -> bool) {
    exists i :: 0 <= i < |xs| && on(xs[i]) && forall j :: i < j < |xs| ==> !off(xs[j])
  }

  lemma SinceSnoc<T>(front: seq<T>, x: T, on: T -> bool, off: T -> bool)
    ensures Since(front + [x], on, off) <==> on(x) || (Since(front, on, off) && !off(x))
  {
    var xs := front + [x];
    if Since(xs, on, off) && !on(x) {
      var i :| 0 <= i < |xs| && on(xs[i]) && forall j :: i < j < |xs| ==> !off(xs[j]);
      assert i < |front| && xs[|front|] == x;
      assert forall j :: i < j < |front| ==> front[j] == xs[j];
    }
    if Since(front, on, off) && !off(x) {
      var i :| 0 <= i < |front| && on(front[i]) && forall j :: i < j < |front| ==> !off(front[j]);
      assert on(xs[i]) && forall j :: i < j < |xs| ==> !off(xs[j]);
    }
    if on(x) {
      assert on(xs[|front|]);
    }
  }
}
