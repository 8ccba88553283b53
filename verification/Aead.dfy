/** Ideal authenticated encryption. A sealed message is its symbols followed by
    sixteen tag symbols, each naming everything the tag authenticates, so that
    exactly the honest seals open and every length is the real one. */
module Aead {
  import opened Base

  const TAG_LEN: nat := 16

  datatype Sym<K, A, M> =
    | Raw(m: M)
    | Tag(key: K, nonce: seq<byte>, aad: A, msg: seq<M>, pos: nat)

  function Body<K, A, M>(msg: seq<M>): (s: seq<Sym<K, A, M>>)
    ensures |s| == |msg| && forall i :: 0 <= i < |msg| ==> s[i] == Raw(msg[i])
  {
    seq(|msg|, i requires 0 <= i < |msg| => Raw(msg[i]))
  }

  function Tags<K, A, M>(key: K, nonce: seq<byte>, aad: A, msg: seq<M>): (s: seq<Sym<K, A, M>>)
    ensures |s| == TAG_LEN && forall i :: 0 <= i < TAG_LEN ==> s[i] == Tag(key, nonce, aad, msg, i)
  {
    seq(TAG_LEN, i requires 0 <= i < TAG_LEN => Tag(key, nonce, aad, msg, i))
  }

  function Seal<K, A, M>(key: K, nonce: seq<byte>, aad: A, msg: seq<M>): (s: seq<Sym<K, A, M>>)
    ensures |s| == |msg| + TAG_LEN
  {
    Body(msg) + Tags(key, nonce, aad, msg)
  }

  function Open<K(==), A(==), M(==)>(key: K, nonce: seq<byte>, aad: A, ct: seq<Sym<K, A, M>>): Option<seq<M>>
  {
    if |ct| < TAG_LEN then None
    else
      var n := |ct| - TAG_LEN;
      if forall i :: 0 <= i < n ==> ct[i].Raw? then
        var msg := seq(n, i requires 0 <= i < n => ct[i].m);
        if ct[n..] == Tags(key, nonce, aad, msg) then Some(msg) else None
      else None
  }

  /** Opening succeeds exactly on the honest seal of the message it returns. */
  lemma OpenIffSealed<K, A, M>(key: K, nonce: seq<byte>, aad: A, ct: seq<Sym<K, A, M>>, msg: seq<M>)
    ensures Open(key, nonce, aad, ct) == Some(msg) <==> ct == Seal(key, nonce, aad, msg)
  {
    if Open(key, nonce, aad, ct) == Some(msg) {
      var n := |ct| - TAG_LEN;
      assert ct[..n] == Body(msg);
      assert ct == ct[..n] + ct[n..];
    }
    if ct == Seal(key, nonce, aad, msg) {
      var n := |ct| - TAG_LEN;
      assert forall i :: 0 <= i < n ==> ct[i] == Body<K, A, M>(msg)[i];
      assert seq(n, i requires 0 <= i < n => ct[i].m) == msg;
      assert ct[n..] == Tags(key, nonce, aad, msg);
    }
  }

  /** What an opened ciphertext says about the tags it carries. */
  lemma OpenedCarriesTag<K, A, M>(key: K, nonce: seq<byte>, aad: A, ct: seq<Sym<K, A, M>>)
    requires Open(key, nonce, aad, ct).Some?
    ensures Tag(key, nonce, aad, Open(key, nonce, aad, ct).value, 0) in ct
  {
    var n := |ct| - TAG_LEN;
    assert ct[n..][0] == ct[n];
  }
}
