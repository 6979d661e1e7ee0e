/** Small shared vocabulary: an optional value and the byte type of Go's []byte. */
module Common {

  datatype Option<T> = None | Some(value: T)

  /** One element of a Go []byte. */
  type byte = b: int | 0 <= b < 256

  /** The concatenation of a sequence of chunks, in order. */
  function Flatten<T>(chunks: seq<seq<T>>): (r: seq<T>)
  {
    if chunks == [] then [] else chunks[0] + Flatten(chunks[1..])
  }

  lemma {:induction false} FlattenAppend<T>(a: seq<seq<T>>, b: seq<seq<T>>)
    ensures Flatten(a + b) == Flatten(a) + Flatten(b)
  {
    if a == [] {
      assert a + b == b;
    } else {
      assert (a + b)[1..] == a[1..] + b;
      FlattenAppend(a[1..], b);
    }
  }
}
