/** The two array pseudo-operations the components send to the document store in an
    `update`: `FieldValue.arrayUnion(x)` appends `x` unless an equal element is already
    present, and `FieldValue.arrayRemove(x)` deletes every element equal to `x`. */
module ArrayField {
  import opened Sequences

  datatype ArrayWrite<T> = Union(elem: T) | Remove(elem: T)

  /** The array after `arrayUnion(x)`. */
  function ArrayUnion<T(==)>(s: seq<T>, x: T): (r: seq<T>)
    ensures s <= r && x in r
    ensures |r| == if x in s then |s| else |s| + 1
  {
    if x in s then s else s + [x]
  }

  /** The array after `arrayRemove(x)`: every occurrence of `x` is gone, the rest stays in order. */
  function ArrayRemove<T(==)>(s: seq<T>, x: T): (r: seq<T>)
    ensures x !in r
  {
    Filter(s, y => y != x)
  }

  /** The array after the write `w`. */
  function Apply<T(==)>(w: ArrayWrite<T>, s: seq<T>): seq<T> {
    match w
    case Union(x) => ArrayUnion(s, x)
    case Remove(x) => ArrayRemove(s, x)
  }

  /** After a write its element is present exactly for a union; every other element is
      present exactly when it was before. */
  lemma ApplyMembership<T>(w: ArrayWrite<T>, s: seq<T>, y: T)
    ensures y in Apply(w, s) <==> if y == w.elem then w.Union? else y in s
  {
    if w.Remove? {
      FilterMembership(s, z => z != w.elem, y);
    }
  }

  /** arrayRemove drops every copy of its element and keeps every other element's count. */
  lemma {:induction false} ArrayRemoveCounts<T>(s: seq<T>, x: T)
    ensures multiset(ArrayRemove(s, x)) == multiset(s)[x := 0]
  {
    if s != [] {
      ArrayRemoveCounts(s[1..], x);
      assert s == [s[0]] + s[1..];
      assert ArrayRemove(s, x) == (if s[0] != x then [s[0]] else []) + ArrayRemove(s[1..], x);
    }
  }

  /** arrayRemove keeps the order of what remains. */
  lemma ArrayRemoveOrder<T>(s: seq<T>, x: T)
    ensures IsSubsequence(ArrayRemove(s, x), s)
  {
    FilterIsSubsequence(s, y => y != x);
  }

  /** Sending the same write twice leaves the array as sending it once. */
  lemma ApplyIdempotent<T>(w: ArrayWrite<T>, s: seq<T>)
    ensures Apply(w, Apply(w, s)) == Apply(w, s)
  {
    if w.Remove? {
      FilterIdempotent(s, y => y != w.elem);
    }
  }
}
