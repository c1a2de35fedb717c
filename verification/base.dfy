/** Small shared vocabulary: optional values and clock ticks. */
module Base {

  /** Python's `Optional[T]`: either nothing (`None`) or a value. */
  datatype Option<+T> = None | Some(value: T)

  /** A wall-clock reading in whole seconds since the epoch, as `time.time()`
      returns it. Such a reading is always positive, so Python's truthiness test
      on an optional timestamp (`if self.last_note_time and ...`) coincides with
      "the timestamp is present". */
  type Time = t: int | t > 0 witness 1

  /** The first element of `xs` satisfying `p`, as a Python `for ... if ...:
      return x` loop finds it, or `None` when no element does. */
  function Find<T>(xs: seq<T>, p: T -> bool): (r: Option<T>)
    ensures r.Some? ==> exists i :: 0 <= i < |xs| && xs[i] == r.value && p(xs[i])
                                    && forall j :: 0 <= j < i ==> !p(xs[j])
    ensures r.None? <==> forall i :: 0 <= i < |xs| ==> !p(xs[i])
  {
    if xs == [] then None
    else if p(xs[0]) then Some(xs[0])
    else
      var r := Find(xs[1..], p);
      assert forall i :: 1 <= i < |xs| ==> xs[i] == xs[1..][i - 1];
      r
  }

  /** Elements before the first match do not affect the search. */
  lemma FindSkips<T>(a: seq<T>, b: seq<T>, p: T -> bool)
    requires forall i :: 0 <= i < |a| ==> !p(a[i])
    ensures Find(a + b, p) == Find(b, p)
  {
    if a != [] {
      assert (a + b)[1..] == a[1..] + b;
      FindSkips(a[1..], b, p);
    } else {
      assert a + b == b;
    }
  }

  /** Searching a concatenation searches the first part, then the second. */
  lemma FindAppend<T>(a: seq<T>, b: seq<T>, p: T -> bool)
    ensures Find(a + b, p) == if Find(a, p).Some? then Find(a, p) else Find(b, p)
  {
    if a == [] {
      assert a + b == b;
    } else {
      assert (a + b)[0] == a[0];
      assert (a + b)[1..] == a[1..] + b;
      FindAppend(a[1..], b, p);
    }
  }
}
