/** Types and small facts shared by every component of the model. */
module Common {

  datatype Option<+T> = None | Some(value: T)

  const TWO_32 := 0x1_0000_0000
  const TWO_64 := 0x1_0000_0000_0000_0000

  type byte = b: int | 0 <= b < 256
  type uint32 = n: int | 0 <= n < TWO_32
  type uint64 = n: int | 0 <= n < TWO_64

  type bytes = seq<byte>

  /** `at` names, in increasing order, the positions of `whole` that `part` was picked from. */
  ghost predicate PicksInOrder<T>(at: seq<int>, part: seq<T>, whole: seq<T>) {
    && |at| == |part|
    && (forall i :: 0 <= i < |at| ==> 0 <= at[i] < |whole| && part[i] == whole[at[i]])
    && (forall i, j :: 0 <= i < j < |at| ==> at[i] < at[j])
  }

  ghost predicate Subsequence<T>(part: seq<T>, whole: seq<T>) {
    exists at: seq<int> :: PicksInOrder(at, part, whole)
  }

  function Flatten<T>(parts: seq<seq<T>>): seq<T> {
    if parts == [] then [] else parts[0] + Flatten(parts[1..])
  }

  lemma {:induction false} FlattenAppend<T>(a: seq<seq<T>>, b: seq<seq<T>>)
    ensures Flatten(a + b) == Flatten(a) + Flatten(b)
  {
    if a == [] {
      assert a + b == b;
    } else {
      assert (a + b)[1..] == a[1..] + b;
      FlattenAppend(a[1..], b);
    }
  }

  lemma PrefixOfSum<T>(a: seq<T>, b: seq<T>, c: seq<T>)
    requires a <= b
    ensures a <= b + c
  {
  }

  /** Something between `base + done` and one more part is on its way through all the parts. */
  lemma OnTheWay<T>(base: seq<T>, done: seq<T>, part: seq<T>, tail: seq<T>, out: seq<T>)
    requires base + done <= out <= base + done + part
    ensures base <= out <= base + (done + (part + tail))
    ensures out == base + done + part && tail == [] ==> out == base + (done + (part + tail))
  {
  }
}
