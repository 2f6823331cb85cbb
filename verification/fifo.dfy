/** A bounded first-in-first-out queue that, when full, drops its oldest
    element to make room for a new one. Oldest element first. */
module Fifo {

  /** The elements that stay when one more is added: all of them, or all but
      the oldest when the queue is full. */
  function Survivors<T>(q: seq<T>, limit: nat): seq<T> {
    if |q| < limit || q == [] then q else q[1..]
  }

  /** Appends `x`; a full queue first loses its head. */
  function Add<T>(q: seq<T>, limit: nat, x: T): (r: seq<T>)
    requires 1 <= limit && |q| <= limit
    ensures 1 <= |r| <= limit
    ensures r[|r| - 1] == x
    ensures r[..|r| - 1] == Survivors(q, limit)
    ensures forall i :: 0 <= i < |r| ==> r[i] == x || r[i] in q
  {
    var r := Survivors(q, limit) + [x];
    assert r[..|r| - 1] == Survivors(q, limit);
    r
  }

  /** The newest `n` elements of a history (all of it when it is shorter). */
  function LastN<T>(h: seq<T>, n: nat): (r: seq<T>)
    ensures |r| == if |h| <= n then |h| else n
    ensures r == h[|h| - |r|..]
  {
    if |h| <= n then h else h[|h| - n..]
  }

  /** The queue is always the window of the newest `limit` elements ever
      added: adding to the window of a history gives the window of the
      extended history. */
  lemma {:induction false} WindowStep<T>(h: seq<T>, limit: nat, x: T)
    requires 1 <= limit
    ensures Add(LastN(h, limit), limit, x) == LastN(h + [x], limit)
  {
    var w := LastN(h, limit);
    var h' := h + [x];
    if |h| < limit {
      assert w == h;
    } else {
      assert |w| == limit;
      assert w[1..] + [x] == h'[|h'| - limit..];
    }
  }
}
