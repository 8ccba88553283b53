/** Types and byte encodings shared by every component of the model. */
module Base {

  newtype byte = x: int | 0 <= x < 256

  const U32_MAX: nat := 0xffff_ffff
  const U64_MAX: nat := 0xffff_ffff_ffff_ffff

  datatype Option<+T> = None | Some(value: T)

  /** The error classes callers can tell apart. */
  datatype Error =
    | Auth          // a tag, digest or signature did not verify
    | Format        // malformed or out-of-limit input
    | Invalid       // refused by the rules of the vault tree
    | Io            // the environment failed

  datatype Result<+T> = Ok(value: T) | Err(error: Error)

  lemma Regroup<T>(a: seq<T>, b: seq<T>, c: seq<T>)
    ensures a + (b + c) == a + b + c
  {
  }

  function Min(a: int, b: int): int { if a <= b then a else b }

  function Pow256(n: nat): nat
    ensures Pow256(n) > 0
  {
    if n == 0 then 1 else 256 * Pow256(n - 1)
  }

  /** The low `n` bytes of `v`, most significant first (`to_be_bytes`). */
  function BigEndian(v: nat, n: nat): (s: seq<byte>)
    ensures |s| == n
  {
    if n == 0 then [] else BigEndian(v / 256, n - 1) + [(v % 256) as byte]
  }

  lemma {:induction false} BigEndianInjective(v: nat, w: nat, n: nat)
    requires v < Pow256(n) && w < Pow256(n)
    requires BigEndian(v, n) == BigEndian(w, n)
    ensures v == w
  {
    if n != 0 {
      var a, b := BigEndian(v, n), BigEndian(w, n);
      assert a[..n - 1] == BigEndian(v / 256, n - 1) && b[..n - 1] == BigEndian(w / 256, n - 1);
      assert a[n - 1] == (v % 256) as byte && b[n - 1] == (w % 256) as byte;
      BigEndianInjective(v / 256, w / 256, n - 1);
    }
  }

  /** A source that may return short reads, as every `Read` may. Environment
      errors are outside the model. */
  class Source<T(==)> {
    var rest: seq<T>

    constructor (data: seq<T>)
      ensures rest == data
    {
      rest := data;
    }

    method Read(max: nat) returns (got: seq<T>)
      modifies this
      ensures |got| <= max && got <= old(rest) && rest == old(rest)[|got|..]
      ensures max > 0 && old(rest) != [] ==> got != []
    {
      if max == 0 || rest == [] {
        return [];
      }
      var n :| 1 <= n <= |rest| && n <= max;  // any non-empty short read
      got := rest[..n];
      rest := rest[n..];
    }
  }
}
