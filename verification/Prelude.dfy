/** Shared value types and sequence helpers used by every other module. */
module Prelude {

  /** One octet of the wire format. */
  type Byte = b: int | 0 <= b < 256

  datatype Option<+T> = None | Some(value: T)

  datatype Result<+T, +E> = Ok(value: T) | Err(error: E)

  /** `n` padding octets. */
  function Zeros(n: nat): (z: seq<Byte>)
  {
    seq(n, _ => 0)
  }

  /** Concatenation of a list of sequences. */
  function Flatten<T>(parts: seq<seq<T>>): (whole: seq<T>)
  {
    if parts == [] then [] else parts[0] + Flatten(parts[1..])
  }

  lemma {:induction false} FlattenAppend<T>(xs: seq<seq<T>>, ys: seq<seq<T>>)
    ensures Flatten(xs + ys) == Flatten(xs) + Flatten(ys)
  {
    if xs == [] {
      assert xs + ys == ys;
    } else {
      assert (xs + ys)[1..] == xs[1..] + ys;
      FlattenAppend(xs[1..], ys);
    }
  }

  lemma FlattenSnoc<T>(xs: seq<seq<T>>, y: seq<T>)
    ensures Flatten(xs + [y]) == Flatten(xs) + y
  {
    FlattenAppend(xs, [y]);
    assert Flatten([y]) == y + Flatten([y][1..]) == y;
  }

  lemma FlattenTwo<T>(a: seq<T>, b: seq<T>)
    ensures Flatten([a, b]) == a + b
  {
    assert [a, b][1..] == [b] && [b][1..] == [];
    assert Flatten([b]) == b;
  }

  lemma Associate<T>(a: seq<T>, b: seq<T>, c: seq<T>)
    ensures a + (b + c) == (a + b) + c
  {
  }

  lemma Comparable<T>(a: seq<T>, b: seq<T>, whole: seq<T>)
    requires a <= whole && b <= whole
    ensures a <= b || b <= a
  {
  }

  /** A set of naturals below `n` has at most `n` members, and has `n` only when it is all of them. */
  lemma {:induction false} NatsBelow(s: set<nat>, n: nat)
    requires forall i | i in s :: i < n
    ensures |s| <= n
    ensures |s| == n <==> forall i: nat | i < n :: i in s
  {
    if n > 0 {
      var t := s - {n - 1};
      NatsBelow(t, n - 1);
      if n - 1 in s {
        assert s == t + {n - 1};
        assert |s| == |t| + 1;
      } else {
        assert s == t;
      }
    } else {
      assert s == {};
    }
  }
}
