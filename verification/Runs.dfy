/** Runs of calls that switch something on and off, and the call that decides how a run ends. */
module Runs {

  /** Whether a run leaves the thing switched on; a call that does both counts as switching on. */
  ghost function On<T(!new)>(calls: seq<T>, on: T -> bool, off: T -> bool): bool {
    if calls == [] then false
    else
      var n := |calls| - 1;
      on(calls[n]) || (!off(calls[n]) && On(calls[..n], on, off))
  }

  /** The call at c switches on and none after it switches off. */
  ghost predicate Lasting<T(!new)>(calls: seq<T>, on: T -> bool, off: T -> bool, c: int) {
    0 <= c < |calls| && on(calls[c]) && forall i :: c < i < |calls| ==> !off(calls[i])
  }

  /** A run ends switched on if and only if some call switches on and none after it switches off. */
  lemma {:induction false} OnExactly<T(!new)>(calls: seq<T>, on: T -> bool, off: T -> bool)
    ensures On(calls, on, off) <==> exists c :: Lasting(calls, on, off, c)
  {
    if calls != [] {
      var n := |calls| - 1;
      var pre := calls[..n];
      OnExactly(pre, on, off);
      if on(calls[n]) {
        assert Lasting(calls, on, off, n);
      } else if !off(calls[n]) {
        if c :| Lasting(pre, on, off, c) {
          assert Lasting(calls, on, off, c);
        }
        if c :| Lasting(calls, on, off, c) {
          assert Lasting(pre, on, off, c);
        }
      }
    }
  }
}
