/** Rollback-resistant state metadata: hash-chained records and the high-water
    anchor that judges them. Hashes are injective terms. */
module StateChain {
  import opened Base

  datatype ObjectType = Keystore | Contacts | Registry | VaultManifest

  /** Whose state, of which kind, and which object. */
  datatype Obj = Obj(fingerprint: nat, kind: ObjectType, id: string)

  datatype Hash<P> =
    | Genesis
    | Terminal   // the all-ones value of a deleted vault's anchor
    | H(obj: Obj, suite: nat, epoch: nat, previous: Hash<P>, payload: P)

  datatype State<P> = State(obj: Obj, suite: nat, epoch: nat, previous: Hash<P>, current: Hash<P>)

  datatype Anchor<P> = Anchor(obj: Obj, suite: nat, epoch: nat, current: Hash<P>)

  function AnchorOf<P>(s: State<P>): Anchor<P> { Anchor(s.obj, s.suite, s.epoch, s.current) }

  function DeletedAnchor<P>(obj: Obj): Anchor<P> { Anchor(obj, 0, U64_MAX, Terminal) }

  function Next<P>(obj: Obj, suite: nat, previous: Option<Anchor<P>>, payload: P): Result<State<P>>
  {
    match previous
    case None => Ok(State(obj, suite, 1, Genesis, H(obj, suite, 1, Genesis, payload)))
    case Some(a) =>
      if a.obj != obj then Err(Invalid)
      else if a.epoch >= U64_MAX then Err(Format)
      else Ok(State(obj, suite, a.epoch + 1, a.current, H(obj, suite, a.epoch + 1, a.current, payload)))
  }

  predicate VerifyPayload<P(==)>(s: State<P>, payload: P)
  {
    s.epoch != 0 && s.current == H(s.obj, s.suite, s.epoch, s.previous, payload)
  }

  /** `Ok(false)`: already anchored. `Ok(true)`: the single valid successor. */
  function CheckCandidate<P(==)>(a: Anchor<P>, s: State<P>): Result<bool>
  {
    if a.obj != s.obj then Err(Invalid)
    else if s.epoch < a.epoch then Err(Auth)
    else if s.epoch == a.epoch then
      if s.current != a.current || s.suite != a.suite then Err(Invalid) else Ok(false)
    else if s.epoch != Min(a.epoch + 1, U64_MAX) || s.previous != a.current then Err(Invalid)
    else Ok(true)
  }

  /** What `next` builds verifies, and is the successor its anchor accepts. */
  lemma NextAccepted<P>(obj: Obj, suite: nat, a: Anchor<P>, payload: P)
    requires a.obj == obj && a.epoch < U64_MAX
    ensures var s := Next(obj, suite, Some(a), payload);
            s.Ok? && VerifyPayload(s.value, payload) && CheckCandidate(a, s.value) == Ok(true)
  {
  }

  // ----- the canonical bytes -----

  /** `to_le_bytes` of a u64. */
  function LittleEndian(v: nat, n: nat): (s: seq<byte>)
    ensures |s| == n
  {
    if n == 0 then [] else [(v % 256) as byte] + LittleEndian(v / 256, n - 1)
  }

  lemma {:induction false} LittleEndianInjective(v: nat, w: nat, n: nat)
    requires v < Pow256(n) && w < Pow256(n) && LittleEndian(v, n) == LittleEndian(w, n)
    ensures v == w
  {
    if n > 0 {
      var a, b := LittleEndian(v, n), LittleEndian(w, n);
      assert a[1..] == LittleEndian(v / 256, n - 1) && b[1..] == LittleEndian(w / 256, n - 1);
      assert a[0] == (v % 256) as byte && b[0] == (w % 256) as byte;
      LittleEndianInjective(v / 256, w / 256, n - 1);
    }
  }

  /** `append_lp` of each field in turn. */
  function LengthPrefixed(fields: seq<seq<byte>>): seq<byte>
  {
    if fields == [] then []
    else LittleEndian(|fields[0]|, 8) + fields[0] + LengthPrefixed(fields[1..])
  }

  /** The bytes that are hashed, signed or authenticated determine every field. */
  lemma {:induction false} LengthPrefixedInjective(f: seq<seq<byte>>, g: seq<seq<byte>>)
    requires |f| == |g| && LengthPrefixed(f) == LengthPrefixed(g)
    requires forall x :: x in f || x in g ==> |x| < Pow256(8)
    ensures f == g
  {
    if f != [] {
      var a, b := LengthPrefixed(f), LengthPrefixed(g);
      assert a[..8] == LittleEndian(|f[0]|, 8) && b[..8] == LittleEndian(|g[0]|, 8);
      assert f[0] in f && g[0] in g;
      LittleEndianInjective(|f[0]|, |g[0]|, 8);
      var n := 8 + |f[0]|;
      assert a[8..n] == f[0] && b[8..n] == g[0];
      assert a[n..] == LengthPrefixed(f[1..]) && b[n..] == LengthPrefixed(g[1..]);
      LengthPrefixedInjective(f[1..], g[1..]);
      assert f == [f[0]] + f[1..] && g == [g[0]] + g[1..];
    }
  }
}
