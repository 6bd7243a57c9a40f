/** Values shared by every part of the pipeline. */
module Common {

  /** One octet on the wire or in a file. */
  type Byte = b: int | 0 <= b < 256

  datatype Option<+T> = None | Some(value: T)

  datatype Result<+T, +E> = Ok(value: T) | Err(error: E)

  lemma AppendAssoc<T>(p: seq<T>, q: seq<T>, r: seq<T>)
    ensures (p + q) + r == p + (q + r)
  {
  }

  lemma AppendNone<T>(p: seq<T>)
    ensures p + [] == p && [] + p == p
  {
  }

  function Flatten<T>(parts: seq<seq<T>>): (r: seq<T>) {
    if parts == [] then [] else parts[0] + Flatten(parts[1..])
  }

  lemma {:induction false} FlattenAppend<T>(a: seq<seq<T>>, b: seq<seq<T>>)
    ensures Flatten(a + b) == Flatten(a) + Flatten(b)
  {
    if a == [] {
      assert a + b == b;
    } else {
      assert (a + b)[1..] == a[1..] + b;
      FlattenAppend(a[1..], b);
    }
  }

  lemma FlattenOne<T>(p: seq<T>)
    ensures Flatten([p]) == p
  {
    assert [p][1..] == [];
  }

  lemma FlattenTwo<T>(p: seq<T>, q: seq<T>)
    ensures Flatten([p, q]) == p + q
  {
    assert [p, q][1..] == [q];
    FlattenOne(q);
  }
}
