/** The transfer handshake (SIGMA-I with a transfer-secret gate) against an active
    network. Hashes, MACs, signatures and key agreement are injective terms. */
module Handshake {
  import opened Base
  import opened Aead

  const MAGIC: nat := 2            // the format tag of the transfer-secret protocol
  const PROTO_VERSION: nat := 2
  const SUITE_CLASSIC: nat := 1

  /** A public identity; `pq` stands for its optional post-quantum keys. */
  datatype Public = Public(sign: nat, kem: nat, pq: nat)
  datatype Fingerprint = Fpr(of: Public)

  /** The keyed proof in a `Hello`: a MAC under the key derived from the secret. */
  datatype Proof = Mac(secret: nat, version: nat, suite: nat, eph: nat, nonce: nat) | Junk(n: nat)

  datatype Transcript = Transcript(version: nat, suite: nat, iEph: nat, iNonce: nat, rEph: nat, rNonce: nat,
                                   rFpr: Fingerprint, secret: nat)

  datatype SigMsg =
    | ResponderAuth(th: Transcript, rSign: nat, rKem: nat)
    | InitiatorAuth(th: Transcript, rSign: nat, rKem: nat, iSign: nat, iKem: nat)
    | Other(n: nat)   // containers, keystores: other domains

  datatype Signature = Sig(signer: nat, msg: SigMsg) | BadSig

  datatype Shared = Dh(lo: nat, hi: nat)
  datatype SessionKey = SessionKey(i2r: bool, dh: Shared, th: Transcript)

  /** A low-order public point makes the agreement non-contributory. */
  const LOW_ORDER: nat := 0

  function Agree(own: nat, peer: nat): Result<Shared>
  {
    if peer == LOW_ORDER || own == LOW_ORDER then Err(Invalid)
    else Ok(if own <= peer then Dh(own, peer) else Dh(peer, own))
  }

  lemma AgreeSymmetric(a: nat, b: nat)
    ensures Agree(a, b) == Agree(b, a)
  {
  }

  // ----- messages -----

  datatype Hello = Hello(magic: nat, version: nat, suite: nat, eph: nat, nonce: nat, proof: Proof)
  datatype AuthMsg = AuthMsg(eph: nat, nonce: nat, identity: Public, sig: Signature)
  datatype Inner = Inner(identity: Public, sig: Signature)
  datatype Aad = Aad(th: Transcript, recordType: nat, counter: nat)
  type Confirm = seq<Sym<SessionKey, Aad, Inner>>

  /** `direction ‖ 0…0 ‖ counter_be64`, 24 bytes. */
  function RecordNonce(direction: byte, counter: nat): (n: seq<byte>)
    ensures |n| == 24
  {
    [direction] + seq(15, _ => 0) + BigEndian(counter, 8)
  }

  const DIR_I2R: byte := 1
  const DIR_R2I: byte := 2
  const CONFIRM_CTR: nat := 0
  const CONFIRM_TYPE: nat := 0

  // ----- the two roles -----

  datatype Initiator = Initiator(me: Public, eph: nat, nonce: nat, expected: Fingerprint, secret: nat)
  datatype Responder = Responder(me: Public, eph: nat, nonce: nat, secret: nat, expected: Option<Fingerprint>)

  /** An open session as one side sees it. */
  datatype Session = Session(th: Transcript, i2r: SessionKey, r2i: SessionKey)

  function SessionOf(dh: Shared, th: Transcript): Session
  {
    Session(th, SessionKey(true, dh, th), SessionKey(false, dh, th))
  }

  function HelloOf(i: Initiator): Hello
  {
    Hello(MAGIC, PROTO_VERSION, SUITE_CLASSIC, i.eph, i.nonce,
          Mac(i.secret, PROTO_VERSION, SUITE_CLASSIC, i.eph, i.nonce))
  }

  function ResponderTranscript(r: Responder, h: Hello): Transcript
  {
    Transcript(PROTO_VERSION, SUITE_CLASSIC, h.eph, h.nonce, r.eph, r.nonce, Fpr(r.me), r.secret)
  }

  function InitiatorTranscript(i: Initiator, a: AuthMsg): Transcript
  {
    Transcript(PROTO_VERSION, SUITE_CLASSIC, i.eph, i.nonce, a.eph, a.nonce, i.expected, i.secret)
  }

  /** `read_hello_write_auth` up to the replay cache: nothing is computed for a Hello
      that does not prove the secret. */
  predicate HelloProves(r: Responder, h: Hello)
  {
    h.magic == MAGIC && h.version == PROTO_VERSION && h.suite == SUITE_CLASSIC &&
    h.proof == Mac(r.secret, h.version, h.suite, h.eph, h.nonce)
  }

  function Answer(r: Responder, h: Hello): Result<(AuthMsg, Session)>
  {
    var th := ResponderTranscript(r, h);
    match Agree(r.eph, h.eph)
    case Err(e) => Err(e)
    case Ok(dh) => Ok((AuthMsg(r.eph, r.nonce, r.me, Sig(r.me.sign, ResponderAuth(th, r.me.sign, r.me.kem))),
                       SessionOf(dh, th)))
  }

  predicate Verifies(signer: nat, msg: SigMsg, sig: Signature) { sig == Sig(signer, msg) }

  function ReadAuthWriteConfirm(i: Initiator, a: AuthMsg): Result<(Confirm, Session, Signature)>
  {
    var th := InitiatorTranscript(i, a);
    if Fpr(a.identity) != i.expected then Err(Invalid)
    else if !Verifies(a.identity.sign, ResponderAuth(th, a.identity.sign, a.identity.kem), a.sig) then Err(Auth)
    else
      match Agree(i.eph, a.eph)
      case Err(e) => Err(e)
      case Ok(dh) =>
        var s := SessionOf(dh, th);
        var sig := Sig(i.me.sign, InitiatorAuth(th, a.identity.sign, a.identity.kem, i.me.sign, i.me.kem));
        var sealed := Seal(s.i2r, RecordNonce(DIR_I2R, CONFIRM_CTR), Aad(th, CONFIRM_TYPE, CONFIRM_CTR),
                           [Inner(i.me, sig)]);
        Ok((sealed, s, sig))
  }

  /** `read_confirm`: the peer as authenticated. */
  function ReadConfirm(r: Responder, s: Session, c: Confirm): Result<Public>
  {
    match Open(s.i2r, RecordNonce(DIR_I2R, CONFIRM_CTR), Aad(s.th, CONFIRM_TYPE, CONFIRM_CTR), c)
    case None => Err(Auth)
    case Some(m) =>
      if |m| != 1 then Err(Format)
      else if !Verifies(m[0].identity.sign,
                        InitiatorAuth(s.th, r.me.sign, r.me.kem, m[0].identity.sign, m[0].identity.kem), m[0].sig)
                then Err(Auth)
      else if r.expected.Some? && Fpr(m[0].identity) != r.expected.value then Err(Invalid)
      else Ok(m[0].identity)
  }

  // ----- the parts that keep state -----

  /** Proofs a listener has answered under its current secret. */
  class HelloReplayCache {
    var seen: set<Proof>
    const capacity: nat

    constructor (capacity: nat)
      ensures seen == {} && this.capacity == capacity
    {
      seen, this.capacity := {}, capacity;
    }

    method Admit(proof: Proof) returns (ok: bool)
      modifies this
      ensures ok == CacheAdmits(old(seen), capacity, proof)
      ensures seen == if ok then old(seen) + {proof} else old(seen)
    {
      if proof in seen {
        return false;
      }
      if |seen| >= capacity {
        return false;
      }
      seen := seen + {proof};
      ok := true;
    }
  }

  predicate CacheAdmits(seen: set<Proof>, capacity: nat, proof: Proof)
  {
    proof !in seen && |seen| < capacity
  }

  class ResponderSide {
    const r: Responder
    const cache: HelloReplayCache
    var pending: Option<Session>

    constructor (r: Responder, cache: HelloReplayCache)
      ensures this.r == r && this.cache == cache && pending == None
    {
      this.r, this.cache, pending := r, cache, None;
    }

    /** An `Auth` comes out only after the proof verified and was not seen before. */
    method ReadHelloWriteAuth(h: Hello) returns (out: Result<AuthMsg>)
      modifies this, cache
      ensures out.Ok? <==>
              HelloProves(r, h) && CacheAdmits(old(cache.seen), cache.capacity, h.proof) && Answer(r, h).Ok?
      ensures out.Ok? ==> out.value == Answer(r, h).value.0 && pending == Some(Answer(r, h).value.1)
      ensures out.Err? ==> pending == old(pending)
      ensures cache.seen == if HelloProves(r, h) && CacheAdmits(old(cache.seen), cache.capacity, h.proof)
                            then old(cache.seen) + {h.proof} else old(cache.seen)
    {
      if h.magic != MAGIC || h.version != PROTO_VERSION || h.suite != SUITE_CLASSIC {
        return Err(Format);
      }
      if h.proof != Mac(r.secret, h.version, h.suite, h.eph, h.nonce) {
        return Err(Auth);
      }
      var isNew := cache.Admit(h.proof);
      if !isNew {
        return Err(Invalid);
      }
      var answer := Answer(r, h);
      if answer.Err? {
        return Err(answer.error);
      }
      pending := Some(answer.value.1);
      out := Ok(answer.value.0);
    }
  }

  // ----- the network -----

  datatype IDone = IDone(i: Initiator, peer: Public, session: Session)
  datatype RDone = RDone(r: Responder, peer: Public, session: Session)

  /** `signed` are the signatures honest parties made, `proofs` the Hello proofs honest
      initiators sent, `answered` the proofs answered, in order, and `ephs` the
      ephemerals drawn. */
  datatype Net = Net(honest: set<Public>, secrets: set<nat>, ephs: set<nat>,
                     inits: set<Initiator>, resps: set<Responder>, pending: map<Responder, Session>,
                     signed: set<Signature>, proofs: set<Proof>,
                     seen: set<Proof>, capacity: nat, answered: seq<Proof>,
                     iDone: set<IDone>, rDone: set<RDone>)

  datatype Event =
    | Dial(i: Initiator)
    | Listen(r: Responder)
    | DeliverHello(r: Responder, h: Hello)
    | DeliverAuth(i: Initiator, a: AuthMsg)
    | DeliverConfirm(r: Responder, c: Confirm)
    | SignElsewhere(p: Public, n: nat)

  /** The network may deliver anything built from what it saw: it cannot sign for an
      honest party nor prove a secret it does not have. Fresh ephemerals are distinct. */
  ghost predicate Legal(w: Net, e: Event)
  {
    match e
    case Dial(i) => i.me in w.honest && i.eph !in w.ephs
    case Listen(r) => r.me in w.honest && r.eph !in w.ephs
    case DeliverHello(r, h) =>
      r in w.resps && r !in w.pending && (h.proof.Mac? && h.proof.secret in w.secrets ==> h.proof in w.proofs)
    case DeliverAuth(i, a) => i in w.inits && (forall d :: d in w.iDone ==> d.i != i) && SigHonest(w, a.sig)
    case DeliverConfirm(r, c) =>
      r in w.pending && (forall d :: d in w.rDone ==> d.r != r) &&
      (forall x :: x in c && x.Raw? ==> SigHonest(w, x.m.sig))
    case SignElsewhere(p, _) => p in w.honest
  }

  ghost predicate HonestKey(w: Net, sign: nat) { exists p :: p in w.honest && p.sign == sign }

  ghost predicate SigHonest(w: Net, sig: Signature)
  {
    sig.Sig? && HonestKey(w, sig.signer) ==> sig in w.signed
  }

  function Exec(w: Net, e: Event): Net
  {
    match e
    case Dial(i) => w.(inits := w.inits + {i}, ephs := w.ephs + {i.eph}, proofs := w.proofs + {HelloOf(i).proof})
    case Listen(r) => w.(resps := w.resps + {r}, ephs := w.ephs + {r.eph})
    case DeliverHello(r, h) =>
      if !HelloProves(r, h) || !CacheAdmits(w.seen, w.capacity, h.proof) then w
      else
        var w1 := w.(seen := w.seen + {h.proof});
        var a := Answer(r, h);
        if a.Err? then w1
        else
          w1.(signed := w.signed + {a.value.0.sig}, pending := w.pending[r := a.value.1],
              answered := w.answered + [h.proof])
    case DeliverAuth(i, a) =>
      var out := ReadAuthWriteConfirm(i, a);
      if out.Err? then w
      else w.(signed := w.signed + {out.value.2}, iDone := w.iDone + {IDone(i, a.identity, out.value.1)})
    case DeliverConfirm(r, c) =>
      if r !in w.pending then w
      else
        var out := ReadConfirm(r, w.pending[r], c);
        if out.Err? then w else w.(rDone := w.rDone + {RDone(r, out.value, w.pending[r])})
    case SignElsewhere(p, n) => w.(signed := w.signed + {Sig(p.sign, Other(n))})
  }

  // ----- the invariant -----

  /** The session keys are the agreement of the two ephemerals in the transcript. */
  predicate SessionFits(s: Session)
  {
    var dh := Agree(s.th.iEph, s.th.rEph);
    dh.Ok? && s == SessionOf(dh.value, s.th)
  }

  ghost predicate SignedBy(w: Net, sig: Signature)
  {
    sig.Sig? &&
    match sig.msg
    case Other(_) => true
    case ResponderAuth(th, rSign, rKem) =>
      exists r :: r in w.pending && w.pending[r].th == th && r.me.sign == rSign == sig.signer && r.me.kem == rKem
    case InitiatorAuth(th, rSign, rKem, iSign, iKem) =>
      exists d :: d in w.iDone && d.session.th == th && d.peer.sign == rSign && d.peer.kem == rKem &&
                  d.i.me.sign == iSign == sig.signer && d.i.me.kem == iKem
  }

  ghost predicate SigsMade(w: Net)
  {
    forall s :: s in w.signed ==> SignedBy(w, s)
  }

  ghost predicate Dialled(w: Net)
  {
    && (forall p :: p in w.proofs ==> exists i :: i in w.inits && HelloOf(i).proof == p)
    && (forall r, q :: r in w.resps && q in w.resps && r.eph == q.eph ==> r == q)
    && (forall i, j :: i in w.inits && j in w.inits && i.eph == j.eph ==> i == j)
    && (forall r :: r in w.resps ==> r.eph in w.ephs) && (forall i :: i in w.inits ==> i.eph in w.ephs)
  }

  ghost predicate Sessions(w: Net)
  {
    && (forall r :: r in w.pending ==> r in w.resps && SessionFits(w.pending[r]) && w.pending[r].th.rEph == r.eph &&
                                       w.pending[r].th.rFpr == Fpr(r.me) && w.pending[r].th.secret == r.secret)
    && (forall d :: d in w.iDone ==> d.i in w.inits && SessionFits(d.session) && d.session.th.iEph == d.i.eph &&
                                     d.session.th.rFpr == Fpr(d.peer) == d.i.expected &&
                                     d.session.th.secret == d.i.secret)
    && (forall d :: d in w.rDone ==> d.r in w.pending && d.session == w.pending[d.r])
  }

  /** Whoever finished with an honest party's key holds that party's signature. */
  ghost predicate Backed(w: Net)
  {
    && (forall d :: d in w.rDone && HonestKey(w, d.peer.sign) ==>
          Sig(d.peer.sign, InitiatorAuth(d.session.th, d.r.me.sign, d.r.me.kem, d.peer.sign, d.peer.kem)) in w.signed)
    && (forall d :: d in w.iDone && HonestKey(w, d.peer.sign) ==>
          Sig(d.peer.sign, ResponderAuth(d.session.th, d.peer.sign, d.peer.kem)) in w.signed)
  }

  ghost predicate Inv(w: Net)
  {
    SigsMade(w) && Dialled(w) && Sessions(w) && Backed(w)
  }

  lemma HonestStays(w: Net, v: Net)
    requires v.honest == w.honest
    ensures forall k :: HonestKey(v, k) == HonestKey(w, k)
  {
  }

  lemma SignedGrows(w: Net, v: Net)
    requires forall r :: r in w.pending ==> r in v.pending && v.pending[r] == w.pending[r]
    requires w.iDone <= v.iDone
    ensures forall s :: SignedBy(w, s) ==> SignedBy(v, s)
  {
    forall s | SignedBy(w, s)
      ensures SignedBy(v, s)
    {
      match s.msg
      case Other(_) =>
      case ResponderAuth(th, rSign, rKem) =>
        var r :| r in w.pending && w.pending[r].th == th && r.me.sign == rSign == s.signer && r.me.kem == rKem;
        assert r in v.pending;
      case InitiatorAuth(th, rSign, rKem, iSign, iKem) =>
        var d :| d in w.iDone && d.session.th == th && d.peer.sign == rSign && d.peer.kem == rKem &&
                 d.i.me.sign == iSign == s.signer && d.i.me.kem == iKem;
        assert d in v.iDone;
    }
  }

  lemma DialKeeps(w: Net, i: Initiator)
    requires Inv(w) && Legal(w, Dial(i))
    ensures Inv(Exec(w, Dial(i)))
  {
    var v := Exec(w, Dial(i));
    SignedGrows(w, v);
    HonestStays(w, v);
    hide SignedBy, SessionFits, HonestKey;
    forall p | p in v.proofs
      ensures exists j :: j in v.inits && HelloOf(j).proof == p
    {
      if p in w.proofs {
        var j :| j in w.inits && HelloOf(j).proof == p;
        assert j in v.inits;
      } else {
        assert i in v.inits && HelloOf(i).proof == p;
      }
    }
  }

  lemma ListenKeeps(w: Net, r: Responder)
    requires Inv(w) && Legal(w, Listen(r))
    ensures Inv(Exec(w, Listen(r)))
  {
    SignedGrows(w, Exec(w, Listen(r)));
    HonestStays(w, Exec(w, Listen(r)));
    hide SignedBy, SessionFits, HonestKey;
  }

  lemma HelloKeeps(w: Net, r: Responder, h: Hello)
    requires Inv(w) && Legal(w, DeliverHello(r, h))
    ensures Inv(Exec(w, DeliverHello(r, h)))
  {
    var v := Exec(w, DeliverHello(r, h));
    if v.answered == w.answered {
      hide Answer, SignedBy, SessionFits;
      assert v == w.(seen := v.seen);
      SignedGrows(w, v);
    } else {
      AgreeSymmetric(r.eph, h.eph);
      var a := Answer(r, h).value;
      assert SessionFits(a.1);
      assert r in w.resps && r !in w.pending;
      hide Answer, HelloProves, CacheAdmits, SessionFits, Agree;
      AnswerKeeps(w, r, a.0.sig, a.1, w.seen + {h.proof}, w.answered + [h.proof]);
    }
  }

  lemma AnswerKeeps(w: Net, r: Responder, sig: Signature, s: Session, seen: set<Proof>, answered: seq<Proof>)
    requires Inv(w) && r in w.resps && r !in w.pending && SessionFits(s)
    requires s.th.rEph == r.eph && s.th.rFpr == Fpr(r.me) && s.th.secret == r.secret
    requires sig == Sig(r.me.sign, ResponderAuth(s.th, r.me.sign, r.me.kem))
    ensures Inv(w.(seen := seen, signed := w.signed + {sig}, pending := w.pending[r := s], answered := answered))
  {
    var v := w.(seen := seen, signed := w.signed + {sig}, pending := w.pending[r := s], answered := answered);
    assert SignedBy(v, sig) by { assert r in v.pending && v.pending[r] == s; }
    SignedGrows(w, v);
    HonestStays(w, v);
    hide SignedBy, SessionFits, HonestKey;
  }

  lemma AuthKeeps(w: Net, i: Initiator, a: AuthMsg)
    requires Inv(w) && Legal(w, DeliverAuth(i, a))
    ensures Inv(Exec(w, DeliverAuth(i, a)))
  {
    var out := ReadAuthWriteConfirm(i, a);
    if out.Ok? {
      var d := IDone(i, a.identity, out.value.1);
      assert SessionFits(d.session);
      hide SessionFits, Agree, SessionOf, Seal, RecordNonce;
      assert HonestKey(w, a.identity.sign) ==> a.sig in w.signed;
      ConfirmedKeeps(w, d, out.value.2);
    }
  }

  lemma ConfirmedKeeps(w: Net, d: IDone, sig: Signature)
    requires Inv(w) && d.i in w.inits && SessionFits(d.session) && d.session.th.iEph == d.i.eph
    requires d.session.th.rFpr == Fpr(d.peer) == d.i.expected && d.session.th.secret == d.i.secret
    requires sig == Sig(d.i.me.sign, InitiatorAuth(d.session.th, d.peer.sign, d.peer.kem, d.i.me.sign, d.i.me.kem))
    requires HonestKey(w, d.peer.sign) ==>
             Sig(d.peer.sign, ResponderAuth(d.session.th, d.peer.sign, d.peer.kem)) in w.signed
    ensures Inv(w.(signed := w.signed + {sig}, iDone := w.iDone + {d}))
  {
    var v := w.(signed := w.signed + {sig}, iDone := w.iDone + {d});
    assert SignedBy(v, sig) by { assert d in v.iDone; }
    SignedGrows(w, v);
    HonestStays(w, v);
    hide SignedBy, SessionFits, HonestKey;
  }

  lemma ConfirmKeeps(w: Net, r: Responder, c: Confirm)
    requires Inv(w) && Legal(w, DeliverConfirm(r, c))
    ensures Inv(Exec(w, DeliverConfirm(r, c)))
  {
    var s := w.pending[r];
    var out := ReadConfirm(r, s, c);
    if out.Ok? {
      var m := Open(s.i2r, RecordNonce(DIR_I2R, CONFIRM_CTR), Aad(s.th, CONFIRM_TYPE, CONFIRM_CTR), c).value;
      OpenIffSealed(s.i2r, RecordNonce(DIR_I2R, CONFIRM_CTR), Aad(s.th, CONFIRM_TYPE, CONFIRM_CTR), c, m);
      assert c[0] == Raw(m[0]);
      assert SigHonest(w, m[0].sig);
      hide Open, RecordNonce;
      PeerKeeps(w, RDone(r, out.value, s));
    }
  }

  lemma PeerKeeps(w: Net, d: RDone)
    requires Inv(w) && d.r in w.pending && d.session == w.pending[d.r]
    requires HonestKey(w, d.peer.sign) ==>
               Sig(d.peer.sign,
                   InitiatorAuth(d.session.th, d.r.me.sign, d.r.me.kem, d.peer.sign, d.peer.kem)) in w.signed
    ensures Inv(w.(rDone := w.rDone + {d}))
  {
    var v := w.(rDone := w.rDone + {d});
    SignedGrows(w, v);
    HonestStays(w, v);
    hide SignedBy, SessionFits, HonestKey;
  }

  lemma ElsewhereKeeps(w: Net, p: Public, n: nat)
    requires Inv(w)
    ensures Inv(Exec(w, SignElsewhere(p, n)))
  {
    SignedGrows(w, Exec(w, SignElsewhere(p, n)));
    HonestStays(w, Exec(w, SignElsewhere(p, n)));
    assert SignedBy(Exec(w, SignElsewhere(p, n)), Sig(p.sign, Other(n)));
    hide SignedBy, SessionFits, HonestKey;
  }

  lemma ExecKeeps(w: Net, e: Event)
    requires Inv(w) && Legal(w, e)
    ensures Inv(Exec(w, e))
  {
    hide Inv, Exec, Legal;
    match e
    case Dial(i) => DialKeeps(w, i);
    case Listen(r) => ListenKeeps(w, r);
    case DeliverHello(r, h) => HelloKeeps(w, r, h);
    case DeliverAuth(i, a) => AuthKeeps(w, i, a);
    case DeliverConfirm(r, c) => ConfirmKeeps(w, r, c);
    case SignElsewhere(p, n) => ElsewhereKeeps(w, p, n);
  }

  ghost predicate LegalRun(w: Net, events: seq<Event>)
    decreases |events|
  {
    events != [] ==> Legal(w, events[0]) && LegalRun(Exec(w, events[0]), events[1..])
  }

  function Run(w: Net, events: seq<Event>): Net
    decreases |events|
  {
    if events == [] then w else Run(Exec(w, events[0]), events[1..])
  }

  /** Which Hellos were answered. */
  ghost predicate Gate(w: Net)
  {
    && (forall k :: 0 <= k < |w.answered| ==> w.answered[k] in w.seen)
    && (forall j, k :: 0 <= j < k < |w.answered| ==> w.answered[j] != w.answered[k])
    && (forall k :: 0 <= k < |w.answered| ==>
        w.answered[k].Mac? && (w.answered[k].secret in w.secrets ==> w.answered[k] in w.proofs))
    && |w.seen| <= w.capacity
  }

  lemma GateKeeps(w: Net, e: Event)
    requires Gate(w) && Legal(w, e)
    ensures Gate(Exec(w, e))
  {
    if e.DeliverHello? && HelloProves(e.r, e.h) && CacheAdmits(w.seen, w.capacity, e.h.proof) {
      hide Answer;
      assert |w.seen + {e.h.proof}| == |w.seen| + 1;
    }
    hide Answer, ReadAuthWriteConfirm, ReadConfirm;
  }

  lemma {:induction false} RunKeeps(w: Net, events: seq<Event>)
    requires Inv(w) && Gate(w) && LegalRun(w, events)
    ensures Inv(Run(w, events)) && Gate(Run(w, events))
    decreases |events|
  {
    hide Inv, Gate, Exec, Legal;
    if events != [] {
      ExecKeeps(w, events[0]);
      GateKeeps(w, events[0]);
      RunKeeps(Exec(w, events[0]), events[1..]);
    }
  }

  /** Nothing has happened yet. `secrets` are the codes only honest parties know. */
  function Start(honest: set<Public>, secrets: set<nat>, capacity: nat): Net
  {
    Net(honest, secrets, {}, {}, {}, map[], {}, {}, {}, capacity, [], {}, {})
  }

  lemma StartKeeps(honest: set<Public>, secrets: set<nat>, capacity: nat)
    ensures Inv(Start(honest, secrets, capacity)) && Gate(Start(honest, secrets, capacity))
  {
  }

  // ----- agreement -----

  /** If the responder finishes with an honest party's signing key, that party ran an
      initiator with this very session (transcript and both keys), for the same two
      identities' signing and agreement keys; no other initiator and no other responder
      shares it. */
  lemma ResponderAgreement(honest: set<Public>, secrets: set<nat>, capacity: nat, events: seq<Event>, d: RDone)
    requires LegalRun(Start(honest, secrets, capacity), events)
    requires var w := Run(Start(honest, secrets, capacity), events); d in w.rDone && HonestKey(w, d.peer.sign)
    ensures var w := Run(Start(honest, secrets, capacity), events);
            && (exists e :: e in w.iDone && e.session == d.session &&
                            e.i.me.sign == d.peer.sign && e.i.me.kem == d.peer.kem &&
                            e.peer.sign == d.r.me.sign && e.peer.kem == d.r.me.kem)
            && (forall e, f :: e in w.iDone && f in w.iDone && e.session == d.session && f.session == d.session ==>
                e.i == f.i)
            && (forall f :: f in w.rDone && f.session == d.session ==> f.r == d.r)
  {
    StartKeeps(honest, secrets, capacity);
    RunKeeps(Start(honest, secrets, capacity), events);
    hide Run, LegalRun, Gate;
    var w := Run(Start(honest, secrets, capacity), events);
    ResponderMatched(w, d);
  }

  lemma ResponderMatched(w: Net, d: RDone)
    requires Inv(w) && d in w.rDone && HonestKey(w, d.peer.sign)
    ensures exists e :: e in w.iDone && e.session == d.session &&
                        e.i.me.sign == d.peer.sign && e.i.me.kem == d.peer.kem &&
                        e.peer.sign == d.r.me.sign && e.peer.kem == d.r.me.kem
    ensures forall e, f :: e in w.iDone && f in w.iDone && e.session == d.session && f.session == d.session ==>
            e.i == f.i
    ensures forall f :: f in w.rDone && f.session == d.session ==> f.r == d.r
  {
    var sig := Sig(d.peer.sign, InitiatorAuth(d.session.th, d.r.me.sign, d.r.me.kem, d.peer.sign, d.peer.kem));
    assert sig in w.signed && SignedBy(w, sig);
    var e :| e in w.iDone && e.session.th == d.session.th && e.peer.sign == d.r.me.sign && e.peer.kem == d.r.me.kem &&
             e.i.me.sign == d.peer.sign && e.i.me.kem == d.peer.kem;
    assert SessionFits(e.session) && SessionFits(d.session);
    hide SignedBy;
    forall e, f | e in w.iDone && f in w.iDone && e.session == d.session && f.session == d.session
      ensures e.i == f.i
    {
      assert e.i.eph == f.i.eph;
    }
    forall f | f in w.rDone && f.session == d.session
      ensures f.r == d.r
    {
      assert f.r.eph == d.r.eph;
    }
  }

  /** Symmetrically: an initiator that finishes with an honest contact reached exactly
      that contact's responder, with this session, and no other initiator shares it. */
  lemma InitiatorAgreement(honest: set<Public>, secrets: set<nat>, capacity: nat, events: seq<Event>, d: IDone)
    requires LegalRun(Start(honest, secrets, capacity), events)
    requires var w := Run(Start(honest, secrets, capacity), events); d in w.iDone && HonestKey(w, d.peer.sign)
    ensures var w := Run(Start(honest, secrets, capacity), events);
            && Fpr(d.peer) == d.i.expected
            && (exists r :: r in w.pending && w.pending[r] == d.session && r.me == d.peer && r.secret == d.i.secret)
            && (forall f :: f in w.iDone && f.session == d.session ==> f.i == d.i)
  {
    StartKeeps(honest, secrets, capacity);
    RunKeeps(Start(honest, secrets, capacity), events);
    hide Run, LegalRun, Gate;
    InitiatorMatched(Run(Start(honest, secrets, capacity), events), d);
  }

  lemma InitiatorMatched(w: Net, d: IDone)
    requires Inv(w) && d in w.iDone && HonestKey(w, d.peer.sign)
    ensures Fpr(d.peer) == d.i.expected
    ensures exists r :: r in w.pending && w.pending[r] == d.session && r.me == d.peer && r.secret == d.i.secret
    ensures forall f :: f in w.iDone && f.session == d.session ==> f.i == d.i
  {
    var sig := Sig(d.peer.sign, ResponderAuth(d.session.th, d.peer.sign, d.peer.kem));
    assert sig in w.signed && SignedBy(w, sig);
    var r :| r in w.pending && w.pending[r].th == d.session.th && r.me.sign == d.peer.sign && r.me.kem == d.peer.kem;
    assert SessionFits(w.pending[r]) && SessionFits(d.session);
    hide SignedBy;
    forall f | f in w.iDone && f.session == d.session
      ensures f.i == d.i
    {
      assert f.i.eph == d.i.eph;
    }
  }

  // ----- completion -----

  /** What the two ends do with each other's messages when nobody interferes: the session each
      opens and whom the responder authenticated, or the first refusal. */
  function Undisturbed(i: Initiator, r: Responder): Result<(Confirm, Session, Session, Public)>
  {
    var h := HelloOf(i);
    if !HelloProves(r, h) then Err(Auth)
    else
      match Answer(r, h)
      case Err(e) => Err(e)
      case Ok((a, rs)) =>
        match ReadAuthWriteConfirm(i, a)
        case Err(e) => Err(e)
        case Ok((c, iSes, _)) =>
          match ReadConfirm(r, rs, c)
          case Err(e) => Err(e)
          case Ok(peer) => Ok((c, iSes, rs, peer))
  }

  /** What the two users have to get right: one secret, and each other's fingerprint; and what
      the ephemerals must be. */
  predicate Compatible(i: Initiator, r: Responder)
  {
    && i.secret == r.secret && i.expected == Fpr(r.me) && (r.expected.Some? ==> r.expected.value == Fpr(i.me))
    && i.eph != LOW_ORDER && r.eph != LOW_ORDER
  }

  /** An undisturbed handshake completes exactly between compatible ends, and then both hold the
      same session and each has the other's identity. */
  lemma CompletesIff(i: Initiator, r: Responder)
    ensures Undisturbed(i, r).Ok? <==> Compatible(i, r)
    ensures Undisturbed(i, r).Ok? ==>
              var (c, iSes, rs, peer) := Undisturbed(i, r).value;
              && iSes == rs && peer == i.me && iSes.th.iEph == i.eph && iSes.th.rEph == r.eph
              && iSes.th.iNonce == i.nonce && iSes.th.rNonce == r.nonce && iSes.th.rFpr == Fpr(r.me)
  {
    var h := HelloOf(i);
    AgreeSymmetric(i.eph, r.eph);
    if HelloProves(r, h) && Answer(r, h).Ok? && i.expected == Fpr(r.me) {
      var (a, rs) := Answer(r, h).value;
      assert InitiatorTranscript(i, a) == ResponderTranscript(r, h);
      var (c, iSes, sig) := ReadAuthWriteConfirm(i, a).value;
      ConfirmOpens(i, r, iSes, sig, c);
      hide ReadConfirm;
    }
  }

  lemma ConfirmOpens(i: Initiator, r: Responder, s: Session, sig: Signature, c: Confirm)
    requires sig == Sig(i.me.sign, InitiatorAuth(s.th, r.me.sign, r.me.kem, i.me.sign, i.me.kem))
    requires c == Seal(s.i2r, RecordNonce(DIR_I2R, CONFIRM_CTR), Aad(s.th, CONFIRM_TYPE, CONFIRM_CTR),
                       [Inner(i.me, sig)])
    ensures ReadConfirm(r, s, c).Ok? <==> (r.expected.Some? ==> r.expected.value == Fpr(i.me))
    ensures ReadConfirm(r, s, c).Ok? ==> ReadConfirm(r, s, c).value == i.me
  {
    OpenIffSealed(s.i2r, RecordNonce(DIR_I2R, CONFIRM_CTR), Aad(s.th, CONFIRM_TYPE, CONFIRM_CTR), c,
                  [Inner(i.me, sig)]);
  }

  /** The network lets it happen. */
  function Exchange(i: Initiator, r: Responder): seq<Event>
    requires Undisturbed(i, r).Ok?
  {
    var (a, _) := Answer(r, HelloOf(i)).value;
    [Dial(i)] + ([Listen(r)] + ([DeliverHello(r, HelloOf(i))] + ([DeliverAuth(i, a)] +
    ([DeliverConfirm(r, Undisturbed(i, r).value.0)] + []))))
  }

  lemma RunCons(w: Net, e: Event, rest: seq<Event>)
    requires Legal(w, e) && LegalRun(Exec(w, e), rest)
    ensures LegalRun(w, [e] + rest) && Run(w, [e] + rest) == Run(Exec(w, e), rest)
  {
    assert ([e] + rest)[1..] == rest;
    hide Legal, Exec;
  }

  lemma HelloStep(w: Net, i: Initiator, r: Responder)
    requires HelloProves(r, HelloOf(i)) && Answer(r, HelloOf(i)).Ok?
    requires r in w.resps && r !in w.pending && HelloOf(i).proof in w.proofs
    requires CacheAdmits(w.seen, w.capacity, HelloOf(i).proof)
    ensures var (a, s) := Answer(r, HelloOf(i)).value;
            var v := Exec(w, DeliverHello(r, HelloOf(i)));
            && Legal(w, DeliverHello(r, HelloOf(i)))
            && v.pending == w.pending[r := s] && v.signed == w.signed + {a.sig}
            && v.inits == w.inits && v.iDone == w.iDone && v.rDone == w.rDone
  {
    hide HelloProves, Answer;
  }

  lemma AuthStep(w: Net, i: Initiator, a: AuthMsg)
    requires ReadAuthWriteConfirm(i, a).Ok? && i in w.inits && a.sig in w.signed
    requires forall d :: d in w.iDone ==> d.i != i
    ensures var (c, s, sig) := ReadAuthWriteConfirm(i, a).value;
            && Legal(w, DeliverAuth(i, a))
            && Exec(w, DeliverAuth(i, a)) ==
               w.(signed := w.signed + {sig}, iDone := w.iDone + {IDone(i, a.identity, s)})
            && forall x :: x in c && x.Raw? ==> x.m.sig == sig
  {
  }

  lemma ConfirmStep(w: Net, r: Responder, c: Confirm)
    requires r in w.pending && ReadConfirm(r, w.pending[r], c).Ok? && forall d :: d in w.rDone ==> d.r != r
    requires forall x :: x in c && x.Raw? ==> x.m.sig in w.signed
    ensures Legal(w, DeliverConfirm(r, c))
    ensures Exec(w, DeliverConfirm(r, c)) ==
            w.(rDone := w.rDone + {RDone(r, ReadConfirm(r, w.pending[r], c).value, w.pending[r])})
  {
    hide ReadConfirm;
  }

  /** Who is new has done nothing yet. */
  lemma NothingYet(w: Net, i: Initiator, r: Responder)
    requires Inv(w) && i.eph !in w.ephs && r.eph !in w.ephs
    ensures r !in w.pending && (forall d :: d in w.iDone ==> d.i != i) && (forall d :: d in w.rDone ==> d.r != r)
  {
    hide SigsMade, Backed;
  }

  /** Whatever went on before, two new compatible honest ends can finish with one session,
      unless the listener's cache is full or has seen the proof. */
  lemma NetworkCompletes(w: Net, i: Initiator, r: Responder)
    requires Inv(w) && Compatible(i, r) && i.me in w.honest && r.me in w.honest
    requires i.eph !in w.ephs && r.eph !in w.ephs && i.eph != r.eph
    requires HelloOf(i).proof !in w.seen && |w.seen| < w.capacity
    ensures Undisturbed(i, r).Ok? && LegalRun(w, Exchange(i, r))
    ensures var s, z := Undisturbed(i, r).value.1, Run(w, Exchange(i, r));
            IDone(i, r.me, s) in z.iDone && RDone(r, i.me, s) in z.rDone
  {
    CompletesIff(i, r);
    NothingYet(w, i, r);
    var h := HelloOf(i);
    assert Answer(r, h).value.0.identity == r.me;
    hide Inv, HelloProves, Answer, ReadAuthWriteConfirm, ReadConfirm, Compatible, CacheAdmits, HelloOf;
    var a := Answer(r, h).value.0;
    var c := ReadAuthWriteConfirm(i, a).value.0;
    var w1 := Exec(w, Dial(i));
    var w2 := Exec(w1, Listen(r));
    assert Legal(w, Dial(i)) && Legal(w1, Listen(r));
    HelloStep(w2, i, r);
    var w3 := Exec(w2, DeliverHello(r, h));
    assert i in w3.inits && w3.iDone == w.iDone && w3.rDone == w.rDone && r in w3.pending;
    hide Exec, Legal;
    AuthStep(w3, i, a);
    var w4 := Exec(w3, DeliverAuth(i, a));
    ConfirmStep(w4, r, c);
    RunCons(w4, DeliverConfirm(r, c), []);
    RunCons(w3, DeliverAuth(i, a), [DeliverConfirm(r, c)] + []);
    RunCons(w2, DeliverHello(r, h), [DeliverAuth(i, a)] + ([DeliverConfirm(r, c)] + []));
    RunCons(w1, Listen(r), [DeliverHello(r, h)] + ([DeliverAuth(i, a)] + ([DeliverConfirm(r, c)] + [])));
    RunCons(w, Dial(i), [Listen(r)] + ([DeliverHello(r, h)] + ([DeliverAuth(i, a)] + ([DeliverConfirm(r, c)] + []))));
  }

  /** No `Auth` without the secret, and none twice: every answered Hello carries the proof
      of a secret, an honest party's if only honest parties know the secret, and no
      proof is answered again. */
  lemma SecretGate(honest: set<Public>, secrets: set<nat>, capacity: nat, events: seq<Event>, k: nat)
    requires LegalRun(Start(honest, secrets, capacity), events)
    requires k < |Run(Start(honest, secrets, capacity), events).answered|
    ensures var w := Run(Start(honest, secrets, capacity), events);
            && w.answered[k].Mac?
            && (w.answered[k].secret in w.secrets ==>
                  exists i :: i in w.inits && i.secret == w.answered[k].secret && HelloOf(i).proof == w.answered[k])
            && (forall j :: 0 <= j < |w.answered| && j != k ==> w.answered[j] != w.answered[k])
            && |w.seen| <= w.capacity
  {
    StartKeeps(honest, secrets, capacity);
    RunKeeps(Start(honest, secrets, capacity), events);
    hide Run, LegalRun, SignedBy, SessionFits;
  }
}
