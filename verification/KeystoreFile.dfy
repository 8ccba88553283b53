/** The signed keystore: one data key, wrapped once per unlock method, sealing the
    identity's secrets; every change of a slot is a new state in a signed chain. */
module KeystoreFile {
  import opened Base
  import opened Aead
  import opened StateChain

  /** An identity; `fpr` is the hash of its public keys. */
  datatype Identity = Identity(fpr: nat, sign: nat, kem: nat, pq: nat)

  type Secret = nat   // a passphrase, an hmac-secret output or a device token
  type Dek = nat

  datatype Kek =
    | FromPassphrase(pass: Secret, salt: nat, cost: nat)
    | FromPasskey(hmac: Secret)
    | FromDevice(token: Secret)

  datatype WrapAad =
    | PassphraseAad(salt: nat, cost: nat)
    | PasskeyAad(credential: nat, rp: nat, hmacSalt: nat, title: nat, addedAt: int)
    | DeviceAad

  type Wrapped = seq<Sym<Kek, WrapAad, Dek>>
  datatype BundleAad = BundleAad
  type Bundle = seq<Sym<Dek, BundleAad, Identity>>

  datatype PassphraseSlot = PassphraseSlot(cost: nat, salt: nat, nonce: seq<byte>, wrapped: Wrapped)
  datatype PasskeySlot = PasskeySlot(credential: nat, rp: nat, hmacSalt: nat, title: nat, addedAt: int,
                                     nonce: seq<byte>, wrapped: Wrapped)
  datatype DeviceSlot = DeviceSlot(nonce: seq<byte>, wrapped: Wrapped)

  datatype Body = Body(bundleNonce: seq<byte>, bundle: Bundle, passphrase: PassphraseSlot,
                       passkeys: seq<PasskeySlot>, device: Option<DeviceSlot>)

  datatype Signature = Sig(sign: nat, state: State<Body>)

  datatype File = File(state: State<Body>, public: Identity, body: Body, signature: Signature)

  function ObjOf(fpr: nat): Obj { Obj(fpr, ObjectType.Keystore, "identity-keystore") }

  // ----- wrapping and unlocking -----

  function Unwrap(kek: Kek, nonce: seq<byte>, aad: WrapAad, wrapped: Wrapped): Result<Dek>
  {
    match Open(kek, nonce, aad, wrapped)
    case None => Err(Auth)
    case Some(m) => if |m| == 1 then Ok(m[0]) else Err(Format)
  }

  /** A wrap made under one key opens under no other. */
  lemma OpenOnly(kek: Kek, nonce: seq<byte>, aad: WrapAad, msg: seq<Dek>, x: Kek)
    ensures Open(x, nonce, aad, Seal(kek, nonce, aad, msg)) == if x == kek then Some(msg) else None
  {
    var w := Seal(kek, nonce, aad, msg);
    OpenIffSealed(kek, nonce, aad, w, msg);
    if Open(x, nonce, aad, w).Some? {
      var m := Open(x, nonce, aad, w).value;
      OpenIffSealed(x, nonce, aad, w, m);
      var t: Wrapped := Seal(x, nonce, aad, m);
      assert w[|w| - 1] == Tag(kek, nonce, aad, msg, 15) && t[|w| - 1] == Tag(x, nonce, aad, m, 15);
    }
  }

  function PassAad(s: PassphraseSlot): WrapAad { PassphraseAad(s.salt, s.cost) }
  function KeyAad(s: PasskeySlot): WrapAad { PasskeyAad(s.credential, s.rp, s.hmacSalt, s.title, s.addedAt) }

  function DekByPassphrase(b: Body, pass: Secret): Result<Dek>
  {
    Unwrap(FromPassphrase(pass, b.passphrase.salt, b.passphrase.cost), b.passphrase.nonce, PassAad(b.passphrase),
           b.passphrase.wrapped)
  }

  function DekByPasskey(b: Body, index: nat, hmac: Secret): Result<Dek>
  {
    if index >= |b.passkeys| then Err(Format)
    else
      var s := b.passkeys[index];
      Unwrap(FromPasskey(hmac), s.nonce, KeyAad(s), s.wrapped)
  }

  function DekByDevice(b: Body, token: Secret): Result<Dek>
  {
    if b.device.None? then Err(Format)
    else Unwrap(FromDevice(token), b.device.value.nonce, DeviceAad, b.device.value.wrapped)
  }

  function OpenBundle(b: Body, dek: Dek): Result<Identity>
  {
    match Open(dek, b.bundleNonce, BundleAad, b.bundle)
    case None => Err(Auth)
    case Some(m) => if |m| == 1 then Ok(m[0]) else Err(Format)
  }

  function UnlockWith(b: Body, dek: Result<Dek>): Result<Identity>
  {
    match dek case Ok(k) => OpenBundle(b, k) case Err(e) => Err(e)
  }

  // ----- the signed state -----

  function Build(body: Body, identity: Identity, previous: Option<Anchor<Body>>): Result<File>
  {
    match Next(ObjOf(identity.fpr), 0, previous, body)
    case Err(e) => Err(e)
    case Ok(state) => Ok(File(state, identity, body, Sig(identity.sign, state)))
  }

  predicate Verify(f: File)
  {
    && f.state.obj == ObjOf(f.public.fpr) && f.state.suite == 0
    && VerifyPayload(f.state, f.body)
    && f.signature == Sig(f.public.sign, f.state)
  }

  /** The body is already changed when `advance` refuses. */
  function Advance(f: File, signer: Identity): (File, Result<()>)
  {
    if signer.fpr != f.state.obj.fingerprint then (f, Err(Invalid))
    else
      match Next(ObjOf(signer.fpr), 0, Some(AnchorOf(f.state)), f.body)
      case Err(e) => (f, Err(e))
      case Ok(state) => (f.(state := state, signature := Sig(signer.sign, state)), Ok(()))
  }

  // ----- the edits -----

  datatype Enrollment = Enrollment(credential: nat, rp: nat, hmacSalt: nat, title: nat, addedAt: int, hmac: Secret)

  function NewPasskey(dek: Dek, e: Enrollment, nonce: seq<byte>): PasskeySlot
  {
    PasskeySlot(e.credential, e.rp, e.hmacSalt, e.title, e.addedAt, nonce,
                Seal(FromPasskey(e.hmac), nonce, PasskeyAad(e.credential, e.rp, e.hmacSalt, e.title, e.addedAt), [dek]))
  }

  datatype Edit =
    | AddPasskey(pass: Secret, e: Enrollment, nonce: seq<byte>)
    | RemovePasskey(index: nat, signer: Identity)
    | SetDevice(pass: Secret, token: Secret, nonce: seq<byte>)
    | RemoveDevice(signer: Identity)
    | Continue(pass: Secret, current: Identity, successor: Identity, nonce: seq<byte>)

  function Apply(f: File, edit: Edit): (File, Result<()>)
  {
    match edit
    case AddPasskey(pass, e, nonce) =>
      var dek := DekByPassphrase(f.body, pass);
      var signer := UnlockWith(f.body, dek);
      if dek.Err? then (f, Err(dek.error))
      else if signer.Err? then (f, Err(signer.error))
      else Advance(f.(body := f.body.(passkeys := f.body.passkeys + [NewPasskey(dek.value, e, nonce)])), signer.value)
    case RemovePasskey(index, signer) =>
      if index >= |f.body.passkeys| then (f, Err(Format))
      else Advance(f.(body := f.body.(passkeys := f.body.passkeys[..index] + f.body.passkeys[index + 1..])), signer)
    case SetDevice(pass, token, nonce) =>
      var dek := DekByPassphrase(f.body, pass);
      var signer := UnlockWith(f.body, dek);
      if dek.Err? then (f, Err(dek.error))
      else if signer.Err? then (f, Err(signer.error))
      else
        var slot := DeviceSlot(nonce, Seal(FromDevice(token), nonce, DeviceAad, [dek.value]));
        Advance(f.(body := f.body.(device := Some(slot))), signer.value)
    case RemoveDevice(signer) =>
      if f.body.device.None? then (f, Ok(())) else Advance(f.(body := f.body.(device := None)), signer)
    case Continue(pass, current, successor, nonce) =>
      var dek := DekByPassphrase(f.body, pass);
      var stored := UnlockWith(f.body, dek);
      if dek.Err? then (f, Err(dek.error))
      else if stored.Err? then (f, Err(stored.error))
      else if stored.value.fpr != current.fpr || f.state.obj.fingerprint != current.fpr then (f, Err(Invalid))
      else if successor.sign != stored.value.sign || successor.kem != stored.value.kem then (f, Err(Invalid))
      else
        var body := f.body.(bundleNonce := nonce, bundle := Seal(dek.value, nonce, BundleAad, [successor]));
        match Build(body, successor, None) case Ok(g) => (g, Ok(())) case Err(e) => (f, Err(e))
  }

  // ----- the simple model -----

  /** What a keystore stands for: its data key, its identity, and who can open it. */
  datatype Access = Access(dek: Dek, identity: Identity, pass: Secret, hmacs: seq<Secret>, token: Option<Secret>)

  /** Each method opens the body exactly with its secret, all to the same data key, which
      opens the bundle to the identity. */
  ghost predicate Grants(b: Body, a: Access)
  {
    && (forall x :: DekByPassphrase(b, x) == if x == a.pass then Ok(a.dek) else Err(Auth))
    && |b.passkeys| == |a.hmacs|
    && (forall i, x :: 0 <= i < |a.hmacs| ==> DekByPasskey(b, i, x) == if x == a.hmacs[i] then Ok(a.dek) else Err(Auth))
    && (a.token.Some? <==> b.device.Some?)
    && (a.token.Some? ==> forall x :: DekByDevice(b, x) == if x == a.token.value then Ok(a.dek) else Err(Auth))
    && OpenBundle(b, a.dek) == Ok(a.identity)
  }

  /** The state is a signed one for the identity, whether or not it is this body's. */
  predicate Signed(f: File)
  {
    && f.state.obj == ObjOf(f.public.fpr) && f.state.suite == 0 && f.state.epoch != 0
    && f.state.current.H? && f.state.current ==
       H(f.state.obj, 0, f.state.epoch, f.state.previous, f.state.current.payload)
    && f.signature == Sig(f.public.sign, f.state)
  }

  ghost predicate Holds(f: File, a: Access)
  {
    Grants(f.body, a) && Signed(f) && f.public == a.identity
  }

  /** A file verifies, and so can be written or read back, exactly when its body is the one
      that was signed. */
  lemma VerifiesIffSigned(f: File)
    requires Signed(f)
    ensures Verify(f) <==> f.state.current.payload == f.body
  {
  }

  /** A signing identity: fingerprints are collision-free. */
  predicate SameIdentity(x: Identity, y: Identity) { x.fpr == y.fpr ==> x == y }

  ghost predicate Fair(a: Access, edit: Edit)
  {
    match edit
    case RemovePasskey(_, s) => SameIdentity(s, a.identity)
    case RemoveDevice(s) => SameIdentity(s, a.identity)
    case _ => true
  }

  /** The edit on the simple model; `room` is whether the epoch can still grow. A removal by
      the wrong signer fails, yet the slot is gone from the body in memory. */
  function Expect(a: Access, edit: Edit, room: bool): (Access, bool)
  {
    match edit
    case AddPasskey(pass, e, _) =>
      if pass != a.pass then (a, false) else (a.(hmacs := a.hmacs + [e.hmac]), room)
    case RemovePasskey(index, s) =>
      if index >= |a.hmacs| then (a, false)
      else (a.(hmacs := a.hmacs[..index] + a.hmacs[index + 1..]), room && s == a.identity)
    case SetDevice(pass, token, _) =>
      if pass != a.pass then (a, false) else (a.(token := Some(token)), room)
    case RemoveDevice(s) =>
      if a.token.None? then (a, true) else (a.(token := None), room && s == a.identity)
    case Continue(pass, current, next, _) =>
      if pass != a.pass || current.fpr != a.identity.fpr || next.sign != a.identity.sign ||
         next.kem != a.identity.kem
      then (a, false)
      else (a.(identity := next), true)
  }

  predicate Room(f: File) { f.state.epoch < U64_MAX }

  // ----- single slots -----

  lemma SealOpens(kek: Kek, nonce: seq<byte>, aad: WrapAad, dek: Dek, x: Kek)
    ensures Unwrap(x, nonce, aad, Seal(kek, nonce, aad, [dek])) == if x == kek then Ok(dek) else Err(Auth)
  {
    OpenOnly(kek, nonce, aad, [dek], x);
    hide Open, Seal;
  }

  lemma BundleOpens(dek: Dek, nonce: seq<byte>, identity: Identity)
    ensures Open(dek, nonce, BundleAad, Seal(dek, nonce, BundleAad, [identity])) == Some([identity])
  {
    OpenIffSealed(dek, nonce, BundleAad, Seal(dek, nonce, BundleAad, [identity]), [identity]);
  }

  lemma AddedGrants(b: Body, a: Access, e: Enrollment, nonce: seq<byte>)
    requires Grants(b, a)
    ensures Grants(b.(passkeys := b.passkeys + [NewPasskey(a.dek, e, nonce)]), a.(hmacs := a.hmacs + [e.hmac]))
  {
    var slot := NewPasskey(a.dek, e, nonce);
    var c := b.(passkeys := b.passkeys + [slot]);
    forall x
      ensures Unwrap(FromPasskey(x), slot.nonce, KeyAad(slot), slot.wrapped) ==
              if x == e.hmac then Ok(a.dek) else Err(Auth)
    {
      SealOpens(FromPasskey(e.hmac), nonce, KeyAad(slot), a.dek, FromPasskey(x));
    }
    hide NewPasskey, Unwrap, Open;
    forall i, x | 0 <= i < |a.hmacs| + 1
      ensures DekByPasskey(c, i, x) == if x == (a.hmacs + [e.hmac])[i] then Ok(a.dek) else Err(Auth)
    {
      if i < |a.hmacs| {
        assert DekByPasskey(c, i, x) == DekByPasskey(b, i, x);
      }
    }
    assert forall x :: DekByPassphrase(c, x) == DekByPassphrase(b, x) && DekByDevice(c, x) == DekByDevice(b, x);
  }

  lemma RemovedGrants(b: Body, a: Access, index: nat)
    requires Grants(b, a) && index < |a.hmacs|
    ensures Grants(b.(passkeys := b.passkeys[..index] + b.passkeys[index + 1..]),
                   a.(hmacs := a.hmacs[..index] + a.hmacs[index + 1..]))
  {
    var c := b.(passkeys := b.passkeys[..index] + b.passkeys[index + 1..]);
    var hmacs := a.hmacs[..index] + a.hmacs[index + 1..];
    hide Unwrap, Open;
    forall i, x | 0 <= i < |hmacs|
      ensures DekByPasskey(c, i, x) == if x == hmacs[i] then Ok(a.dek) else Err(Auth)
    {
      var j := if i < index then i else i + 1;
      assert c.passkeys[i] == b.passkeys[j] && hmacs[i] == a.hmacs[j];
      assert DekByPasskey(c, i, x) == DekByPasskey(b, j, x);
    }
    assert forall x :: DekByPassphrase(c, x) == DekByPassphrase(b, x) && DekByDevice(c, x) == DekByDevice(b, x);
  }

  lemma DeviceGrants(b: Body, a: Access, token: Secret, nonce: seq<byte>)
    requires Grants(b, a)
    ensures Grants(b.(device := Some(DeviceSlot(nonce, Seal(FromDevice(token), nonce, DeviceAad, [a.dek])))),
                   a.(token := Some(token)))
    ensures Grants(b.(device := None), a.(token := None))
  {
    var c := b.(device := Some(DeviceSlot(nonce, Seal(FromDevice(token), nonce, DeviceAad, [a.dek]))));
    forall x
      ensures DekByDevice(c, x) == if x == token then Ok(a.dek) else Err(Auth)
    {
      SealOpens(FromDevice(token), nonce, DeviceAad, a.dek, FromDevice(x));
    }
    hide Unwrap, Open, Seal;
    SameSlots(b, c);
    SameSlots(b, b.(device := None));
  }

  /** Only the passphrase and passkey slots decide what those secrets open. */
  lemma SameSlots(b: Body, c: Body)
    requires c.passphrase == b.passphrase && c.passkeys == b.passkeys
    ensures forall x :: DekByPassphrase(c, x) == DekByPassphrase(b, x)
    ensures forall i: nat, x :: DekByPasskey(c, i, x) == DekByPasskey(b, i, x)
  {
    hide Unwrap;
  }

  lemma ContinuedGrants(b: Body, a: Access, next: Identity, nonce: seq<byte>)
    requires Grants(b, a)
    ensures Grants(b.(bundleNonce := nonce, bundle := Seal(a.dek, nonce, BundleAad, [next])), a.(identity := next))
  {
    var c := b.(bundleNonce := nonce, bundle := Seal(a.dek, nonce, BundleAad, [next]));
    BundleOpens(a.dek, nonce, next);
    assert OpenBundle(c, a.dek) == Ok(next);
    hide Unwrap, Open, Seal;
    SameSlots(b, c);
    assert forall x :: DekByDevice(c, x) == DekByDevice(b, x);
  }

  // ----- whole edits -----

  /** What `advance` does after a change of the body: it signs the successor of the last
      state, or leaves state and signature as they were. */
  lemma AdvanceSigns(f: File, signer: Identity)
    requires Signed(f) && SameIdentity(signer, f.public)
    ensures var (g, r) := Advance(f, signer);
            && g.body == f.body && g.public == f.public && Signed(g)
            && (r.Ok? <==> signer == f.public && Room(f))
            && (r.Ok? ==>
                  && Verify(g) && g.state.epoch == f.state.epoch + 1
                  && CheckCandidate(AnchorOf(f.state), g.state) == Ok(true))
            && (r.Err? ==> g == f)
  {
  }

  /** What every edit does. A change that is signed is the one successor the anchor of the
      old state accepts, except a continuation, which starts a new chain; any other
      outcome leaves state and signature alone. */
  ghost predicate Stepped(f: File, edit: Edit, g: File, ok: bool)
  {
    && (ok && edit.Continue? ==> Verify(g) && g.state.epoch == 1 && g.state.previous.Genesis?)
    && (ok && !edit.Continue? && g.body != f.body ==>
          Verify(g) && g.state.epoch == f.state.epoch + 1 && CheckCandidate(AnchorOf(f.state), g.state) == Ok(true))
    && (ok && edit.RemoveDevice? && f.body.device.None? ==> g == f)
    && (!ok ==> g.state == f.state && g.signature == f.signature && g.public == f.public)
    && (!edit.Continue? ==> g.body.bundle == f.body.bundle && g.body.bundleNonce == f.body.bundleNonce)
    && g.body.passphrase == f.body.passphrase
  }

  lemma ByPassphrase(f: File, a: Access, pass: Secret)
    requires Holds(f, a)
    ensures var dek := DekByPassphrase(f.body, pass);
            dek == (if pass == a.pass then Ok(a.dek) else Err(Auth)) &&
                (pass == a.pass ==> UnlockWith(f.body, dek) == Ok(a.identity))
  {
    hide DekByPassphrase, OpenBundle;
  }

  /** A changed body, advanced. */
  lemma AdvanceStep(f: File, a: Access, body: Body, b: Access, edit: Edit, signer: Identity)
    requires Holds(f, a) && Grants(body, b) && b.identity == a.identity && SameIdentity(signer, a.identity) &&
             !edit.Continue?
    requires body.bundle == f.body.bundle && body.bundleNonce == f.body.bundleNonce &&
             body.passphrase == f.body.passphrase
    requires edit.RemoveDevice? ==> f.body.device.Some?
    ensures var (g, r) := Advance(f.(body := body), signer);
            Holds(g, b) && r.Ok? == (Room(f) && signer == a.identity) && Stepped(f, edit, g, r.Ok?)
  {
    var c := f.(body := body);
    hide Grants, Signed, Advance, Verify, Room;
    SignedBody(f, c);
    AdvanceSigns(c, signer);
    var (g, r) := Advance(c, signer);
    assert r.Ok? ==> CheckCandidate(AnchorOf(f.state), g.state) == Ok(true);
    assert r.Ok? ==> Verify(g) && g.state.epoch == f.state.epoch + 1;
    assert !r.Ok? ==> g == c;
    assert g.body == body;
  }

  lemma ApplyHolds(f: File, a: Access, edit: Edit)
    requires Holds(f, a) && Fair(a, edit)
    ensures var (g, r) := Apply(f, edit);
            var (b, ok) := Expect(a, edit, Room(f));
            Holds(g, b) && r.Ok? == ok && Stepped(f, edit, g, ok)
  {
    SlotCount(f.body, a);
    if edit.Continue? {
      ContinueHolds(f, a, edit);
    } else {
      hide Grants, DekByPassphrase, UnlockWith, Signed, Advance, Verify, CheckCandidate, NewPasskey, Seal, Room;
      match edit
      case AddPasskey(pass, e, nonce) =>
        ByPassphrase(f, a, pass);
        if pass == a.pass {
          AddedGrants(f.body, a, e, nonce);
          AdvanceStep(f, a, f.body.(passkeys := f.body.passkeys + [NewPasskey(a.dek, e, nonce)]),
                      a.(hmacs := a.hmacs + [e.hmac]), edit, a.identity);
        }
      case RemovePasskey(index, signer) =>
        if index < |a.hmacs| {
          RemovedGrants(f.body, a, index);
          AdvanceStep(f, a, f.body.(passkeys := f.body.passkeys[..index] + f.body.passkeys[index + 1..]),
                      a.(hmacs := a.hmacs[..index] + a.hmacs[index + 1..]), edit, signer);
        }
      case SetDevice(pass, token, nonce) =>
        ByPassphrase(f, a, pass);
        if pass == a.pass {
          DeviceGrants(f.body, a, token, nonce);
          var slot := DeviceSlot(nonce, Seal(FromDevice(token), nonce, DeviceAad, [a.dek]));
          AdvanceStep(f, a, f.body.(device := Some(slot)),
                      a.(token := Some(token)), edit, a.identity);
        }
      case RemoveDevice(signer) =>
        if a.token.Some? {
          DeviceGrants(f.body, a, 0, []);
          AdvanceStep(f, a, f.body.(device := None), a.(token := None), edit, signer);
        }
    }
  }

  lemma ContinueHolds(f: File, a: Access, edit: Edit)
    requires Holds(f, a) && edit.Continue?
    ensures var (g, r) := Apply(f, edit);
            var (b, ok) := Expect(a, edit, Room(f));
            Holds(g, b) && r.Ok? == ok && Stepped(f, edit, g, ok)
  {
    hide Grants, DekByPassphrase, UnlockWith, Signed, Verify, CheckCandidate, Seal, Room;
    ByPassphrase(f, a, edit.pass);
    StateNames(f);
    if edit.pass == a.pass {
      ContinuedGrants(f.body, a, edit.successor, edit.nonce);
      BuildSigns(f.body.(bundleNonce := edit.nonce, bundle := Seal(a.dek, edit.nonce, BundleAad, [edit.successor])),
                 edit.successor);
    }
  }

  lemma SlotCount(b: Body, a: Access)
    requires Grants(b, a)
    ensures |b.passkeys| == |a.hmacs| && (a.token.Some? <==> b.device.Some?)
  {
  }

  lemma SignedBody(f: File, g: File)
    requires Signed(f) && g == f.(body := g.body)
    ensures Signed(g) && (Room(g) <==> Room(f)) && AnchorOf(g.state) == AnchorOf(f.state)
  {
  }

  lemma StateNames(f: File)
    requires Signed(f)
    ensures f.state.obj.fingerprint == f.public.fpr
  {
  }

  lemma BuildSigns(body: Body, identity: Identity)
    ensures var f := Build(body, identity, None);
            f.Ok? && f.value.body == body && f.value.public == identity && Signed(f.value) && Verify(f.value) &&
            f.value.state.epoch == 1 && f.value.state.previous.Genesis?
  {
  }

  /** A new keystore: the passphrase slot alone. */
  function NewBody(identity: Identity, dek: Dek, pass: Secret, salt: nat, cost: nat, nonce: seq<byte>,
                   bundleNonce: seq<byte>): Body
  {
    Body(bundleNonce, Seal(dek, bundleNonce, BundleAad, [identity]),
         PassphraseSlot(cost, salt, nonce,
                        Seal(FromPassphrase(pass, salt, cost), nonce, PassphraseAad(salt, cost), [dek])),
         [], None)
  }

  lemma CreatedHolds(identity: Identity, dek: Dek, pass: Secret, salt: nat, cost: nat, nonce: seq<byte>,
                     bundleNonce: seq<byte>)
    ensures var f := Build(NewBody(identity, dek, pass, salt, cost, nonce, bundleNonce), identity, None);
            f.Ok? && Holds(f.value, Access(dek, identity, pass, [], None)) && Verify(f.value)
  {
    var b := NewBody(identity, dek, pass, salt, cost, nonce, bundleNonce);
    BundleOpens(dek, bundleNonce, identity);
    forall x
      ensures DekByPassphrase(b, x) == if x == pass then Ok(dek) else Err(Auth)
    {
      SealOpens(FromPassphrase(pass, salt, cost), nonce, PassphraseAad(salt, cost), dek, FromPassphrase(x, salt, cost));
    }
    hide Unwrap, Open, Seal;
    BuildSigns(b, identity);
  }

  // ----- histories -----

  function Run(f: File, edits: seq<Edit>): File
    decreases |edits|
  {
    if edits == [] then f else Run(Apply(f, edits[0]).0, edits[1..])
  }

  ghost function ExpectRun(f: File, a: Access, edits: seq<Edit>): Access
    decreases |edits|
  {
    if edits == [] then a else ExpectRun(Apply(f, edits[0]).0, Expect(a, edits[0], Room(f)).0, edits[1..])
  }

  ghost predicate FairRun(f: File, a: Access, edits: seq<Edit>)
    decreases |edits|
  {
    edits != [] ==> Fair(a, edits[0]) && FairRun(Apply(f, edits[0]).0, Expect(a, edits[0], Room(f)).0, edits[1..])
  }

  /** After any history of edits, failed ones included, the passphrase and every enrolled
      method open to the same data key and identity, no other secret opens anything, the
      data key and the passphrase never changed, and the file can be written exactly
      when its body is the last signed one. */
  lemma {:induction false} HistoryHolds(f: File, a: Access, edits: seq<Edit>)
    requires Holds(f, a) && FairRun(f, a, edits)
    ensures var g, b := Run(f, edits), ExpectRun(f, a, edits);
            && Holds(g, b) && b.dek == a.dek && b.pass == a.pass
            && (Verify(g) <==> g.state.current.payload == g.body)
    decreases |edits|
  {
    hide Holds, Apply, Fair;
    if edits != [] {
      ApplyHolds(f, a, edits[0]);
      HistoryHolds(Apply(f, edits[0]).0, Expect(a, edits[0], Room(f)).0, edits[1..]);
    } else {
      HoldsSigned(f, a);
      VerifiesIffSigned(f);
    }
  }

  lemma HoldsSigned(f: File, a: Access)
    requires Holds(f, a)
    ensures Signed(f)
  {
  }

  /** A removed slot is gone: its secret opens no slot, unless another slot has it too. */
  lemma RemovedIsGone(f: File, a: Access, index: nat, signer: Identity, hmac: Secret, i: nat)
    requires Holds(f, a) && Fair(a, RemovePasskey(index, signer)) && index < |a.hmacs|
    requires hmac !in a.hmacs[..index] + a.hmacs[index + 1..]
    ensures DekByPasskey(Apply(f, RemovePasskey(index, signer)).0.body, i, hmac).Err?
  {
    ApplyHolds(f, a, RemovePasskey(index, signer));
    hide Apply, DekByPasskey;
    var g := Apply(f, RemovePasskey(index, signer)).0;
    var b := Expect(a, RemovePasskey(index, signer), Room(f)).0;
    if i < |b.hmacs| {
      assert b.hmacs[i] in b.hmacs;
      assert DekByPasskey(g.body, i, hmac) == Err(Auth);
    } else {
      PastLast(g.body, i, hmac);
    }
  }

  lemma PastLast(b: Body, i: nat, hmac: Secret)
    requires i >= |b.passkeys|
    ensures DekByPasskey(b, i, hmac).Err?
  {
  }

  /** A removal with the wrong signer fails and leaves a file that cannot be written; the
      next change that succeeds signs the removal along with it. */
  lemma FailedRemovalLingers(f: File, a: Access, index: nat, wrong: Identity, e: Enrollment, nonce: seq<byte>)
    requires Holds(f, a) && Verify(f) && Room(f) && index < |a.hmacs| && wrong.fpr != a.identity.fpr
    ensures var (g, r) := Apply(f, RemovePasskey(index, wrong));
            var (h, s) := Apply(g, AddPasskey(a.pass, e, nonce));
            && r.Err? && !Verify(g)
            && s.Ok? && Verify(h) && Holds(h, a.(hmacs := a.hmacs[..index] + a.hmacs[index + 1..] + [e.hmac]))
  {
    ApplyHolds(f, a, RemovePasskey(index, wrong));
    var (g, r) := Apply(f, RemovePasskey(index, wrong));
    SlotCount(f.body, a);
    assert |g.body.passkeys| == |f.body.passkeys| - 1 && g.state == f.state;
    var b := Expect(a, RemovePasskey(index, wrong), Room(f)).0;
    ApplyHolds(g, b, AddPasskey(a.pass, e, nonce));
    var (h, s) := Apply(g, AddPasskey(a.pass, e, nonce));
    VerifiesIffSigned(f);
    VerifiesIffSigned(g);
    SlotCount(g.body, b);
    hide Apply, Grants, Signed;
    SlotCount(h.body, b.(hmacs := b.hmacs + [e.hmac]));
  }

  // ----- the object in memory -----

  class KeystoreV3 {
    var state: State<Body>
    var public: Identity
    var body: Body
    var signature: Signature

    constructor (f: File)
      ensures View() == f
    {
      state, public, body, signature := f.state, f.public, f.body, f.signature;
    }

    ghost function View(): File
      reads this
    {
      File(state, public, body, signature)
    }

    method Sign(signer: Identity) returns (r: Result<()>)
      modifies this`state, this`signature
      ensures (View(), r) == Advance(old(View()), signer)
    {
      if signer.fpr != state.obj.fingerprint {
        return Err(Invalid);
      }
      var next := Next(ObjOf(signer.fpr), 0, Some(AnchorOf(state)), body);
      if next.Err? {
        return Err(next.error);
      }
      state := next.value;
      signature := Sig(signer.sign, state);
      r := Ok(());
    }

    method EnrolPasskey(pass: Secret, e: Enrollment, nonce: seq<byte>) returns (r: Result<()>)
      modifies this
      ensures (View(), r) == Apply(old(View()), AddPasskey(pass, e, nonce))
    {
      var dek := DekByPassphrase(body, pass);
      if dek.Err? {
        return Err(dek.error);
      }
      var signer := OpenBundle(body, dek.value);
      if signer.Err? {
        return Err(signer.error);
      }
      body := body.(passkeys := body.passkeys + [NewPasskey(dek.value, e, nonce)]);
      r := Sign(signer.value);
    }

    method ForgetPasskey(index: nat, signer: Identity) returns (r: Result<()>)
      modifies this
      ensures (View(), r) == Apply(old(View()), RemovePasskey(index, signer))
    {
      if index >= |body.passkeys| {
        return Err(Format);
      }
      body := body.(passkeys := body.passkeys[..index] + body.passkeys[index + 1..]);
      r := Sign(signer);
    }

    method SetDeviceToken(pass: Secret, token: Secret, nonce: seq<byte>) returns (r: Result<()>)
      modifies this
      ensures (View(), r) == Apply(old(View()), SetDevice(pass, token, nonce))
    {
      var dek := DekByPassphrase(body, pass);
      if dek.Err? {
        return Err(dek.error);
      }
      var signer := OpenBundle(body, dek.value);
      if signer.Err? {
        return Err(signer.error);
      }
      body := body.(device := Some(DeviceSlot(nonce, Seal(FromDevice(token), nonce, DeviceAad, [dek.value]))));
      r := Sign(signer.value);
    }

    method RemoveDeviceToken(signer: Identity) returns (r: Result<()>)
      modifies this
      ensures (View(), r) == Apply(old(View()), RemoveDevice(signer))
    {
      if body.device.None? {
        return Ok(());
      }
      body := body.(device := None);
      r := Sign(signer);
    }
  }
}
