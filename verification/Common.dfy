/** Result types shared by every component. */
module Common {
  datatype Option<+T> = None | Some(value: T)

  datatype Result<+T, +E> = Ok(value: T) | Err(error: E)

  lemma SliceOfSlice<T>(s: seq<T>, a: nat, b: nat, x: nat, y: nat)
    requires a <= b <= |s| && x <= y <= b - a
    ensures s[a..b][x..y] == s[a + x..a + y]
  {
    forall k | 0 <= k < y - x
      ensures s[a..b][x..y][k] == s[a + x..a + y][k]
    {
    }
  }

  lemma SlicesBehind<T>(j: seq<T>, s: seq<T>, len: nat)
    requires len <= |s|
    ensures (j + s)[|j|..|j| + len] == s[0..len]
    ensures (j + s)[|j| + len..] == s[len..]
  {
  }

  lemma ConcatAssociates<T>(a: seq<T>, b: seq<T>, c: seq<T>)
    ensures (a + b) + c == a + (b + c)
  {
  }
}
