/** Vocabulary shared by the whole project: bytes, optional values and results. */
module Common {

  type byte = x: int | 0 <= x < 256
  type Bytes = seq<byte>

  datatype Option<+T> = None | Some(value: T)

  datatype Result<+T, +E> = Ok(value: T) | Err(error: E)

  // ----- slices of concatenations -----

  lemma {:induction false} DropAppend<T>(s: seq<T>, t: seq<T>, n: nat)
    requires n <= |s|
    ensures (s + t)[n..] == s[n..] + t
  {
  }

  lemma {:induction false} SliceAppend<T>(s: seq<T>, t: seq<T>, a: nat, b: nat)
    requires a <= b <= |s|
    ensures (s + t)[a..b] == s[a..b]
  {
  }

  lemma {:induction false} AppendAssoc<T>(a: seq<T>, b: seq<T>, c: seq<T>)
    ensures (a + b) + c == a + (b + c)
  {
  }

  lemma {:induction false} EmptyLeft<T>(s: seq<T>)
    ensures [] + s == s
  {
  }

  lemma {:induction false} DropPrefix<T>(s: seq<T>, t: seq<T>)
    ensures (s + t)[|s|..] == t && (s + t)[..|s|] == s
  {
  }

  lemma {:induction false} DropDrop<T>(s: seq<T>, a: nat, b: nat)
    requires a + b <= |s|
    ensures s[a..][b..] == s[a + b..]
  {
  }
}
