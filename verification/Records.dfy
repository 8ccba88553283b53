/** The record layer of an open transfer session: implicit per-direction counters over
    a network that may drop, repeat, reorder, reflect and inject frames. */
module Records {
  import opened Base
  import opened Aead
  import opened Handshake

  const FIRST_RECORD_CTR: nat := 1

  datatype RecordType = Offer | OfferDecision | Data | Done

  function ToByte(t: RecordType): byte
  {
    match t
    case Offer => 1
    case OfferDecision => 2
    case Data => 3
    case Done => 4
  }

  function FromByte(b: byte): (t: Option<RecordType>)
    ensures t.Some? ==> ToByte(t.value) == b
    ensures t.None? ==> forall u :: ToByte(u) != b
  {
    if b == 1 then Some(Offer)
    else if b == 2 then Some(OfferDecision)
    else if b == 3 then Some(Data)
    else if b == 4 then Some(Done)
    else None
  }

  datatype Rec = Rec(kind: RecordType, body: seq<byte>)

  type Wire = Sym<SessionKey, Aad, byte>
  type Frame = seq<Wire>

  /** One end of a session. `sealed` and `accepted` log the records that came out of
      `seal_record` and `open_record`. */
  datatype Side = Side(sendKey: SessionKey, recvKey: SessionKey, sendDir: byte, recvDir: byte,
                       sendCtr: nat, recvCtr: nat, th: Transcript,
                       sealed: seq<Rec>, accepted: seq<Rec>)

  function ForInitiator(s: Handshake.Session): Side
  {
    Side(s.i2r, s.r2i, DIR_I2R, DIR_R2I, FIRST_RECORD_CTR, FIRST_RECORD_CTR, s.th, [], [])
  }

  function ForResponder(s: Handshake.Session): Side
  {
    Side(s.r2i, s.i2r, DIR_R2I, DIR_I2R, FIRST_RECORD_CTR, FIRST_RECORD_CTR, s.th, [], [])
  }

  function FrameOf(key: SessionKey, dir: byte, th: Transcript, ctr: nat, rec: Rec): Frame
  {
    [Raw(ToByte(rec.kind))] + Seal(key, RecordNonce(dir, ctr), Aad(th, ToByte(rec.kind) as nat, ctr), rec.body)
  }

  /** The counter never wraps: at the last value nothing is emitted. */
  function SealRecord(s: Side, rec: Rec): (Side, Result<Frame>)
  {
    if s.sendCtr >= U64_MAX then (s, Err(Format))
    else (s.(sendCtr := s.sendCtr + 1, sealed := s.sealed + [rec]),
          Ok(FrameOf(s.sendKey, s.sendDir, s.th, s.sendCtr, rec)))
  }

  /** A refused frame leaves the side as it was. */
  function OpenRecord(s: Side, frame: Frame): (Side, Result<Rec>)
  {
    if frame == [] || !frame[0].Raw? then (s, Err(Format))
    else
      match FromByte(frame[0].m)
      case None => (s, Err(Format))
      case Some(t) =>
        match Open(s.recvKey, RecordNonce(s.recvDir, s.recvCtr), Aad(s.th, ToByte(t) as nat, s.recvCtr), frame[1..])
        case None => (s, Err(Auth))
        case Some(body) =>
          if s.recvCtr >= U64_MAX then (s, Err(Format))
          else (s.(recvCtr := s.recvCtr + 1, accepted := s.accepted + [Rec(t, body)]), Ok(Rec(t, body)))
  }

  /** The session object the two ends hold. */
  class RecordSession {
    const sendKey: SessionKey
    const recvKey: SessionKey
    const sendDir: byte
    const recvDir: byte
    const th: Transcript
    var sendCtr: nat
    var recvCtr: nat
    ghost var sealed: seq<Rec>
    ghost var accepted: seq<Rec>

    constructor (side: Side)
      ensures View() == side
    {
      sendKey, recvKey, sendDir, recvDir, th := side.sendKey, side.recvKey, side.sendDir, side.recvDir, side.th;
      sendCtr, recvCtr, sealed, accepted := side.sendCtr, side.recvCtr, side.sealed, side.accepted;
    }

    ghost function View(): Side
      reads this
    {
      Side(sendKey, recvKey, sendDir, recvDir, sendCtr, recvCtr, th, sealed, accepted)
    }

    method Seal(kind: RecordType, body: seq<byte>) returns (out: Result<Frame>)
      modifies this
      ensures (View(), out) == SealRecord(old(View()), Rec(kind, body))
    {
      var counter := sendCtr;
      var ct := Aead.Seal(sendKey, RecordNonce(sendDir, counter), Aad(th, ToByte(kind) as nat, counter), body);
      if sendCtr >= U64_MAX {
        return Err(Format);
      }
      sendCtr := sendCtr + 1;
      sealed := sealed + [Rec(kind, body)];
      out := Ok([Raw(ToByte(kind))] + ct);
    }

    method Open(frame: Frame) returns (out: Result<Rec>)
      modifies this
      ensures (View(), out) == OpenRecord(old(View()), frame)
    {
      if frame == [] || !frame[0].Raw? {
        return Err(Format);
      }
      var kind := FromByte(frame[0].m);
      if kind.None? {
        return Err(Format);
      }
      var counter := recvCtr;
      var body := Aead.Open(recvKey, RecordNonce(recvDir, counter), Aad(th, ToByte(kind.value) as nat, counter),
                            frame[1..]);
      if body.None? {
        return Err(Auth);
      }
      if recvCtr >= U64_MAX {
        return Err(Format);
      }
      recvCtr := recvCtr + 1;
      accepted := accepted + [Rec(kind.value, body.value)];
      out := Ok(Rec(kind.value, body.value));
    }
  }

  // ----- nonces -----

  /** The 24-byte layout keeps direction and counter apart. */
  lemma RecordNonceInjective(d: byte, c: nat, e: byte, k: nat)
    requires c <= U64_MAX && k <= U64_MAX
    requires RecordNonce(d, c) == RecordNonce(e, k)
    ensures d == e && c == k
  {
    var a, b := RecordNonce(d, c), RecordNonce(e, k);
    assert a[0] == d && b[0] == e;
    assert a[16..] == BigEndian(c, 8) && b[16..] == BigEndian(k, 8);
    assert Pow256(8) == U64_MAX + 1 by {
      assert Pow256(1) == 256 && Pow256(2) == 0x1_0000 && Pow256(4) == 0x1_0000_0000;
    }
    hide RecordNonce;
    BigEndianInjective(c, k, 8);
  }

  // ----- the network -----

  /** Both ends and the (key, nonce) of every ciphertext emitted, oldest first; the
      first is the handshake's Confirm. */
  datatype Chan = Chan(i: Side, r: Side, emitted: seq<(SessionKey, seq<byte>)>)

  function Opened(s: Handshake.Session): Chan
  {
    Chan(ForInitiator(s), ForResponder(s), [(s.i2r, RecordNonce(DIR_I2R, CONFIRM_CTR))])
  }

  datatype Event =
    | Send(initiator: bool, rec: Rec)
    | Deliver(toInitiator: bool, frame: Frame)

  ghost predicate LoggedTag(s: Side, x: Wire)
    requires x.Tag?
  {
    exists k :: 0 <= k < |s.sealed| && TagOf(s, k, x)
  }

  predicate TagOf(s: Side, k: nat, x: Wire)
    requires x.Tag? && k < |s.sealed|
  {
    && x.key == s.sendKey && x.nonce == RecordNonce(s.sendDir, k + FIRST_RECORD_CTR)
    && x.aad == Aad(s.th, ToByte(s.sealed[k].kind) as nat, k + FIRST_RECORD_CTR) && x.msg == s.sealed[k].body
  }

  /** Under the session's keys the network has only the tags the two ends made: those of
      their records, in either direction, and the Confirm's. Everything else is free. */
  ghost predicate Legal(c: Chan, e: Event)
  {
    e.Deliver? ==>
      forall x :: x in e.frame && x.Tag? && (x.key == c.i.sendKey || x.key == c.r.sendKey) ==>
        LoggedTag(c.i, x) || LoggedTag(c.r, x) || (x.key == c.i.sendKey && x.nonce == RecordNonce(DIR_I2R, CONFIRM_CTR))
  }

  function Exec(c: Chan, e: Event): Chan
  {
    match e
    case Send(true, rec) =>
      var (i, out) := SealRecord(c.i, rec);
      if out.Err? then c else c.(i := i, emitted := c.emitted + [(c.i.sendKey, RecordNonce(c.i.sendDir, c.i.sendCtr))])
    case Send(false, rec) =>
      var (r, out) := SealRecord(c.r, rec);
      if out.Err? then c else c.(r := r, emitted := c.emitted + [(c.r.sendKey, RecordNonce(c.r.sendDir, c.r.sendCtr))])
    case Deliver(true, frame) => c.(i := OpenRecord(c.i, frame).0)
    case Deliver(false, frame) => c.(r := OpenRecord(c.r, frame).0)
  }

  predicate Counters(s: Side)
  {
    && s.sendCtr == |s.sealed| + FIRST_RECORD_CTR && s.sendCtr <= U64_MAX
    && s.recvCtr == |s.accepted| + FIRST_RECORD_CTR && s.recvCtr <= U64_MAX
  }

  /** `b` listens to `a`. */
  predicate Paired(a: Side, b: Side)
  {
    && a.th == b.th && b.recvKey == a.sendKey && b.recvDir == a.sendDir && b.sendKey != a.sendKey
    && b.accepted <= a.sealed
  }

  ghost predicate Used(s: Side, nonce: seq<byte>)
  {
    exists k: nat :: k < s.sendCtr && nonce == RecordNonce(s.sendDir, k)
  }

  ghost predicate NoncesOnce(c: Chan)
  {
    && (forall m, n :: 0 <= m < n < |c.emitted| ==> c.emitted[m] != c.emitted[n])
    && (forall n :: 0 <= n < |c.emitted| && c.emitted[n].0 == c.i.sendKey ==> Used(c.i, c.emitted[n].1))
    && (forall n :: 0 <= n < |c.emitted| && c.emitted[n].0 == c.r.sendKey ==> Used(c.r, c.emitted[n].1))
  }

  ghost predicate Inv(c: Chan)
  {
    Counters(c.i) && Counters(c.r) && Paired(c.i, c.r) && Paired(c.r, c.i) && NoncesOnce(c) && c.i.sendDir == DIR_I2R
  }

  /** The one record a side will take next is its peer's next one. */
  lemma OnlyNextOpens(a: Side, b: Side, frame: Frame)
    requires Counters(a) && Counters(b) && Paired(a, b)
    requires forall x :: x in frame && x.Tag? && x.key == a.sendKey ==>
               LoggedTag(a, x) || x.nonce == RecordNonce(DIR_I2R, CONFIRM_CTR)
    requires OpenRecord(b, frame).1.Ok?
    ensures |b.accepted| < |a.sealed| && OpenRecord(b, frame).1.value == a.sealed[|b.accepted|]
  {
    var rec := OpenRecord(b, frame).1.value;
    var nonce, aad := RecordNonce(b.recvDir, b.recvCtr), Aad(b.th, ToByte(rec.kind) as nat, b.recvCtr);
    OpenedCarriesTag(b.recvKey, nonce, aad, frame[1..]);
    var x := Wire.Tag(b.recvKey, nonce, aad, rec.body, 0);
    assert x in frame[1..] && x in frame;
    hide Open, RecordNonce;
    if nonce == RecordNonce(DIR_I2R, CONFIRM_CTR) {
      RecordNonceInjective(b.recvDir, b.recvCtr, DIR_I2R, CONFIRM_CTR);
      assert false;
    }
    var k :| 0 <= k < |a.sealed| && TagOf(a, k, x);
    RecordNonceInjective(b.recvDir, b.recvCtr, a.sendDir, k + FIRST_RECORD_CTR);
    KindOf(rec.kind, a.sealed[k].kind);
  }

  lemma KindOf(t: RecordType, u: RecordType)
    requires ToByte(t) as nat == ToByte(u) as nat
    ensures t == u
  {
  }

  /** In order and untouched, a record arrives. */
  lemma NextFrameOpens(a: Side, b: Side, rec: Rec)
    requires a.th == b.th && b.recvKey == a.sendKey && b.recvDir == a.sendDir && b.recvCtr == a.sendCtr < U64_MAX
    ensures OpenRecord(b, FrameOf(a.sendKey, a.sendDir, a.th, a.sendCtr, rec))
            == (b.(recvCtr := b.recvCtr + 1, accepted := b.accepted + [rec]), Ok(rec))
  {
    var nonce, aad := RecordNonce(b.recvDir, b.recvCtr), Aad(b.th, ToByte(rec.kind) as nat, b.recvCtr);
    var f := FrameOf(a.sendKey, a.sendDir, a.th, b.recvCtr, rec);
    assert f[1..] == Seal(b.recvKey, nonce, aad, rec.body);
    OpenIffSealed(b.recvKey, nonce, aad, f[1..], rec.body);
    hide Open, RecordNonce, Seal;
    KindOf(FromByte(f[0].m).value, rec.kind);
  }

  /** `b` expects next what `a` seals next. */
  predicate InStep(a: Side, b: Side)
  {
    a.th == b.th && b.recvKey == a.sendKey && b.recvDir == a.sendDir && b.recvCtr == a.sendCtr
  }

  /** A record is sealed exactly while a counter is left, and then the peer that is in step opens
      it; at the end nothing is emitted and nothing changes. */
  lemma SealedOpens(a: Side, b: Side, rec: Rec)
    requires InStep(a, b)
    ensures var (a', frame) := SealRecord(a, rec);
            && (frame.Ok? <==> a.sendCtr < U64_MAX) && (frame.Err? ==> a' == a)
            && (frame.Ok? ==>
                  var (b', got) := OpenRecord(b, frame.value);
                  && got == Ok(rec) && InStep(a', b')
                  && a' == a.(sendCtr := a.sendCtr + 1, sealed := a.sealed + [rec])
                  && b' == b.(recvCtr := b.recvCtr + 1, accepted := b.accepted + [rec]))
  {
    if a.sendCtr < U64_MAX {
      NextFrameOpens(a, b, rec);
    }
    hide FrameOf, OpenRecord;
  }

  /** One record after the other, from either end, each delivered before the next is sealed. */
  function Talk(c: Chan, said: seq<(bool, Rec)>): Chan
    decreases |said|
  {
    if said == [] then c
    else
      var (initiator, rec) := said[0];
      var frame := SealRecord(if initiator then c.i else c.r, rec).1;
      var d := Exec(c, Send(initiator, rec));
      Talk(if frame.Ok? then Exec(d, Deliver(!initiator, frame.value)) else d, said[1..])
  }

  /** What the one end said. */
  function Said(said: seq<(bool, Rec)>, initiator: bool): seq<Rec>
  {
    if said == [] then []
    else (if said[0].0 == initiator then [said[0].1] else []) + Said(said[1..], initiator)
  }

  lemma TalkStep(c: Chan, initiator: bool, rec: Rec)
    requires InStep(c.i, c.r) && InStep(c.r, c.i) && (if initiator then c.i else c.r).sendCtr < U64_MAX
    ensures var frame := SealRecord(if initiator then c.i else c.r, rec).1;
            && frame.Ok?
            && var d := Exec(Exec(c, Send(initiator, rec)), Deliver(!initiator, frame.value));
               && InStep(d.i, d.r) && InStep(d.r, d.i)
               && d.i.sealed == c.i.sealed + (if initiator then [rec] else [])
               && d.r.accepted == c.r.accepted + (if initiator then [rec] else [])
               && d.r.sealed == c.r.sealed + (if initiator then [] else [rec])
               && d.i.accepted == c.i.accepted + (if initiator then [] else [rec])
               && d.i.sendCtr == c.i.sendCtr + (if initiator then 1 else 0)
               && d.r.sendCtr == c.r.sendCtr + (if initiator then 0 else 1)
  {
    hide SealRecord, OpenRecord, RecordNonce;
    if initiator {
      SealedOpens(c.i, c.r, rec);
    } else {
      SealedOpens(c.r, c.i, rec);
    }
  }

  /** On a network that does not interfere, everything either end says arrives, in order, as long
      as the counters last. */
  lemma {:induction false} AllSaidArrives(c: Chan, said: seq<(bool, Rec)>)
    requires InStep(c.i, c.r) && InStep(c.r, c.i)
    requires c.i.sendCtr + |Said(said, true)| <= U64_MAX && c.r.sendCtr + |Said(said, false)| <= U64_MAX
    ensures var d := Talk(c, said);
            && d.i.sealed == c.i.sealed + Said(said, true) && d.r.accepted == c.r.accepted + Said(said, true)
            && d.r.sealed == c.r.sealed + Said(said, false) && d.i.accepted == c.i.accepted + Said(said, false)
    decreases |said|
  {
    if said != [] {
      var (initiator, rec) := said[0];
      TalkStep(c, initiator, rec);
      hide InStep, SealRecord, Exec;
      var frame := SealRecord(if initiator then c.i else c.r, rec).1;
      var d := Exec(Exec(c, Send(initiator, rec)), Deliver(!initiator, frame.value));
      AllSaidArrives(d, said[1..]);
      var one, other := if initiator then [rec] else [], if initiator then [] else [rec];
      Regroup(c.i.sealed, one, Said(said[1..], true));
      Regroup(c.r.accepted, one, Said(said[1..], true));
      Regroup(c.r.sealed, other, Said(said[1..], false));
      Regroup(c.i.accepted, other, Said(said[1..], false));
    }
  }

  /** A session as it opens is in step, in both directions. */
  lemma OpenedInStep(s: Handshake.Session, said: seq<(bool, Rec)>)
    requires |Said(said, true)| < U64_MAX && |Said(said, false)| < U64_MAX
    ensures Talk(Opened(s), said).r.accepted == Said(said, true) &&
            Talk(Opened(s), said).i.accepted == Said(said, false)
  {
    hide Talk, Said, RecordNonce;
    AllSaidArrives(Opened(s), said);
  }

  lemma UsedGrows(s: Side, t: Side)
    requires t.sendDir == s.sendDir && s.sendCtr <= t.sendCtr
    ensures forall nonce :: Used(s, nonce) ==> Used(t, nonce)
  {
    forall nonce | Used(s, nonce)
      ensures Used(t, nonce)
    {
      var k: nat :| k < s.sendCtr && nonce == RecordNonce(s.sendDir, k);
      assert k < t.sendCtr;
    }
  }

  lemma FreshNonce(s: Side)
    requires s.sendCtr <= U64_MAX
    ensures !Used(s, RecordNonce(s.sendDir, s.sendCtr))
  {
    hide RecordNonce;
    if Used(s, RecordNonce(s.sendDir, s.sendCtr)) {
      var k: nat :| k < s.sendCtr && RecordNonce(s.sendDir, s.sendCtr) == RecordNonce(s.sendDir, k);
      RecordNonceInjective(s.sendDir, s.sendCtr, s.sendDir, k);
    }
  }

  lemma SendKeeps(c: Chan, initiator: bool, rec: Rec)
    requires Inv(c)
    ensures Inv(Exec(c, Send(initiator, rec)))
  {
    hide RecordNonce, FrameOf, Used;
    var d := Exec(c, Send(initiator, rec));
    UsedGrows(c.i, d.i);
    UsedGrows(c.r, d.r);
    if d != c {
      var s, t := if initiator then c.i else c.r, if initiator then d.i else d.r;
      FreshNonce(s);
      assert Used(t, RecordNonce(s.sendDir, s.sendCtr)) by { StampUsed(t, s.sendCtr); }
    }
  }

  lemma StampUsed(t: Side, k: nat)
    requires k < t.sendCtr
    ensures Used(t, RecordNonce(t.sendDir, k))
  {
  }

  lemma DeliverKeeps(c: Chan, toInitiator: bool, frame: Frame)
    requires Inv(c) && Legal(c, Deliver(toInitiator, frame))
    ensures Inv(Exec(c, Deliver(toInitiator, frame)))
  {
    var a, b := if toInitiator then c.r else c.i, if toInitiator then c.i else c.r;
    var d := Exec(c, Deliver(toInitiator, frame));
    var out := OpenRecord(b, frame);
    assert out.1.Ok? ==>
        out.0 == b.(recvCtr := b.recvCtr + 1, accepted := b.accepted + [out.1.value]) && b.recvCtr < U64_MAX;
    assert out.1.Err? ==> out.0 == b;
    UsedGrows(c.i, d.i);
    UsedGrows(c.r, d.r);
    hide OpenRecord, RecordNonce, Used;
    if out.1.Ok? {
      OnlyNextOpens(a, b, frame);
    }
  }

  function Run(c: Chan, events: seq<Event>): Chan
    decreases |events|
  {
    if events == [] then c else Run(Exec(c, events[0]), events[1..])
  }

  ghost predicate LegalRun(c: Chan, events: seq<Event>)
    decreases |events|
  {
    events != [] ==> Legal(c, events[0]) && LegalRun(Exec(c, events[0]), events[1..])
  }

  lemma {:induction false} RunKeeps(c: Chan, events: seq<Event>)
    requires Inv(c) && LegalRun(c, events)
    ensures Inv(Run(c, events))
    decreases |events|
  {
    hide Inv, Exec, Legal;
    if events != [] {
      match events[0] {
        case Send(i, rec) => SendKeeps(c, i, rec);
        case Deliver(i, frame) => DeliverKeeps(c, i, frame);
      }
      RunKeeps(Exec(c, events[0]), events[1..]);
    }
  }

  lemma OpenedInv(s: Handshake.Session)
    requires s.i2r != s.r2i
    ensures Inv(Opened(s))
  {
    hide RecordNonce;
    StampUsed(ForInitiator(s), CONFIRM_CTR);
  }

  /** Over every run, what an end accepted is a prefix of what its peer sealed, and no
      (key, nonce) was used for two ciphertexts, the Confirm included. */
  lemma RecordsInOrder(s: Handshake.Session, events: seq<Event>)
    requires SessionFits(s) && LegalRun(Opened(s), events)
    ensures var c := Run(Opened(s), events);
            && c.r.accepted <= c.i.sealed && c.i.accepted <= c.r.sealed
            && (forall m, n :: 0 <= m < n < |c.emitted| ==> c.emitted[m] != c.emitted[n])
            && |c.emitted| == 1 + |c.i.sealed| + |c.r.sealed|
  {
    assert s.i2r.i2r && !s.r2i.i2r;
    OpenedInv(s);
    RunKeeps(Opened(s), events);
    EmittedCount(Opened(s), events);
    hide Run, LegalRun, RecordNonce;
  }

  lemma {:induction false} EmittedCount(c: Chan, events: seq<Event>)
    requires |c.emitted| == 1 + |c.i.sealed| + |c.r.sealed|
    ensures var d := Run(c, events); |d.emitted| == 1 + |d.i.sealed| + |d.r.sealed|
    decreases |events|
  {
    if events != [] {
      hide RecordNonce, FrameOf;
      EmittedCount(Exec(c, events[0]), events[1..]);
    }
  }
}
