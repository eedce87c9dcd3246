/** src/array.ts: pairing the neighbours of a list. */
module ArrayUtil {

  /** The results of `f` on every pair of neighbours, in index order:
      the reference definition both `joinWith` loops are proved against. */
  function Pairwise<T, U>(r: seq<T>, f: (T, T) -> U): (out: seq<U>)
    ensures |out| == if |r| == 0 then 0 else |r| - 1
    ensures forall i :: 0 <= i < |out| ==> out[i] == f(r[i], r[i + 1])
  {
    if |r| < 2 then [] else [f(r[0], r[1])] + Pairwise(r[1..], f)
  }

  /** `joinWith` fills `out[index]` for `index` below `r.length - 1`. */
  method JoinWith<T, U>(r: seq<T>, f: (T, T) -> U) returns (out: seq<U>)
    ensures |out| == if |r| == 0 then 0 else |r| - 1
    ensures forall i :: 0 <= i < |out| ==> out[i] == f(r[i], r[i + 1])
    ensures out == Pairwise(r, f)
  {
    out := [];
    var index := 0;
    while index < |r| - 1
      invariant 0 <= index <= if |r| == 0 then 0 else |r| - 1
      invariant |out| == index
      invariant forall i :: 0 <= i < index ==> out[i] == f(r[i], r[i + 1])
    {
      out := out + [f(r[index], r[index + 1])];
      index := index + 1;
    }
    var pairs := Pairwise(r, f);
    forall i | 0 <= i < |out| ensures out[i] == pairs[i] {
      assert pairs[i] == f(r[i], r[i + 1]);
    }
  }
}
