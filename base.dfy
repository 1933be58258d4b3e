/** Small value types and sequence helpers shared by the other modules. */
module Base {

  datatype Option<T> = None | Some(value: T)

  function Min(a: int, b: int): int {
    if a <= b then a else b
  }

  /** No element occurs twice. */
  predicate Distinct<T(==)>(s: seq<T>) {
    forall i, j | 0 <= i < j < |s| :: s[i] != s[j]
  }

  /** The positions 0, 1, ..., n - 1 in ascending order. */
  function Range(n: nat): (r: seq<nat>)
    ensures |r| == n
    ensures forall i | 0 <= i < n :: r[i] == i
  {
    seq(n, i requires 0 <= i < n => i)
  }

  /** The set of elements of a sequence. */
  function Elements<T>(s: seq<T>): set<T> {
    set x | x in s
  }

  /** Concatenation of a sequence of sequences, left to right. */
  function Concat<T>(ss: seq<seq<T>>): seq<T>
    decreases |ss|
  {
    if ss == [] then [] else Concat(ss[..|ss| - 1]) + ss[|ss| - 1]
  }

  /** The concatenation of the first i sequences is a prefix of the whole concatenation. */
  lemma {:induction false} ConcatPrefix<T>(ss: seq<seq<T>>, i: nat)
    requires i <= |ss|
    ensures Concat(ss[..i]) <= Concat(ss)
    decreases |ss|
  {
    if i < |ss| {
      var init := ss[..|ss| - 1];
      ConcatPrefix(init, i);
      assert init[..i] == ss[..i];
    } else {
      assert ss[..i] == ss;
    }
  }

  /** Taking one more sequence appends it. */
  lemma ConcatSnoc<T>(ss: seq<seq<T>>, i: nat)
    requires i < |ss|
    ensures Concat(ss[..i + 1]) == Concat(ss[..i]) + ss[i]
  {
    assert ss[..i + 1][..i] == ss[..i];
  }
}
