/** Sending a container as `Data` records and receiving it into a file. */
module Transfer {
  import opened Base
  import Handshake
  import opened Records

  const CHUNK: nat := 64 * 1024
  const MAX_FRAME: nat := 16 * 1024 * 1024
  const MAX_TRANSFER_SIZE: nat := 64 * 1024 * 1024 * 1024

  // ----- what is sent, as a function of the bytes given -----

  /** The complete chunks of `s`. */
  function Chunks(s: seq<byte>): seq<seq<byte>>
  {
    if |s| < CHUNK then [] else [s[..CHUNK]] + Chunks(s[CHUNK..])
  }

  function Tail(s: seq<byte>): (t: seq<byte>)
    ensures |t| < CHUNK
  {
    if |s| < CHUNK then s else Tail(s[CHUNK..])
  }

  function Pieces(s: seq<byte>): seq<seq<byte>>
  {
    Chunks(s) + if Tail(s) == [] then [] else [Tail(s)]
  }

  function Concat(ps: seq<seq<byte>>): seq<byte>
  {
    if ps == [] then [] else ps[0] + Concat(ps[1..])
  }

  function DataRecs(ps: seq<seq<byte>>): (r: seq<Rec>)
    ensures |r| == |ps| && forall k :: 0 <= k < |ps| ==> r[k] == Rec(Data, ps[k])
  {
    seq(|ps|, k requires 0 <= k < |ps| => Rec(Data, ps[k]))
  }

  const DoneRec := Rec(Done, [])

  function Transcribed(s: seq<byte>): seq<Rec> { DataRecs(Pieces(s)) + [DoneRec] }

  lemma {:induction false} ConcatSplit(ps: seq<seq<byte>>, qs: seq<seq<byte>>)
    ensures Concat(ps + qs) == Concat(ps) + Concat(qs)
  {
    if ps == [] {
      assert ps + qs == qs;
    } else {
      assert (ps + qs)[0] == ps[0] && (ps + qs)[1..] == ps[1..] + qs;
      ConcatSplit(ps[1..], qs);
    }
  }

  /** Framing loses nothing, and every record but the last is exactly CHUNK long. */
  lemma {:induction false} PiecesOf(s: seq<byte>)
    ensures Concat(Pieces(s)) == s
    ensures forall k :: 0 <= k < |Pieces(s)| ==> 0 < |Pieces(s)[k]| <= CHUNK
    ensures forall k :: 0 <= k < |Pieces(s)| - 1 ==> |Pieces(s)[k]| == CHUNK
  {
    if |s| < CHUNK {
      assert Concat([s]) == s + Concat([s][1..]);
      assert Pieces(s) == if s == [] then [] else [s];
    } else {
      PiecesOf(s[CHUNK..]);
      var head, more := s[..CHUNK], Pieces(s[CHUNK..]);
      assert Pieces(s) == [head] + more;
      hide Pieces, Chunks, Tail;
      assert ([head] + more)[1..] == more;
      assert Concat([head] + more) == head + s[CHUNK..] == s;
      hide Concat;
      forall k | 0 <= k < |Pieces(s)|
        ensures 0 < |Pieces(s)[k]| <= CHUNK && (k < |Pieces(s)| - 1 ==> |Pieces(s)[k]| == CHUNK)
      {
        assert k > 0 ==> Pieces(s)[k] == more[k - 1];
      }
    }
  }

  /** Adding bytes that fit the open chunk. */
  lemma {:induction false} Extend(a: seq<byte>, x: seq<byte>)
    requires |Tail(a)| + |x| <= CHUNK
    ensures |Tail(a)| + |x| < CHUNK ==> Chunks(a + x) == Chunks(a) && Tail(a + x) == Tail(a) + x
    ensures |Tail(a)| + |x| == CHUNK ==> Chunks(a + x) == Chunks(a) + [Tail(a) + x] && Tail(a + x) == []
  {
    if |a| >= CHUNK {
      assert (a + x)[..CHUNK] == a[..CHUNK] && (a + x)[CHUNK..] == a[CHUNK..] + x;
      Extend(a[CHUNK..], x);
    } else if |a| + |x| == CHUNK {
      assert (a + x)[..CHUNK] == a + x && (a + x)[CHUNK..] == [];
    }
  }

  lemma {:induction false} ChunksGrow(a: seq<byte>, x: seq<byte>)
    ensures Chunks(a) <= Chunks(a + x)
  {
    if |a| >= CHUNK {
      assert (a + x)[..CHUNK] == a[..CHUNK] && (a + x)[CHUNK..] == a[CHUNK..] + x;
      ChunksGrow(a[CHUNK..], x);
    }
  }

  // ----- the sender -----

  /** The socket: it takes `room` more frames and then fails; the write that fails may or may not
      have delivered its frame. */
  class Socket {
    var out: seq<Frame>
    var room: nat

    method WriteFrame(frame: Frame) returns (ok: bool)
      modifies this
      ensures ok <==> old(room) > 0
      ensures if ok then out == old(out) + [frame] && room == old(room) - 1
              else out == old(out) || out == old(out) + [frame]
    {
      ok := room > 0;
      var delivered: bool := *;
      if delivered || ok {
        out := out + [frame];
      }
      if ok {
        room := room - 1;
      }
    }
  }

  /** What a sender has at its disposal: the times it may ask before the user cancels, the frames
      the socket takes, and the counters left. */
  datatype Means = Means(patience: nat, room: nat, ctr: nat)

  /** `polled` data records and `sealed` records in all can be sent. */
  predicate Affords(m: Means, polled: nat, sealed: nat)
  {
    polled <= m.patience && sealed <= m.room && (sealed > 0 ==> m.ctr + sealed <= U64_MAX)
  }

  /** It is the user who stops the sending of `polled` data records. */
  predicate Cancels(m: Means, polled: nat)
  {
    m.patience < polled && Affords(m, m.patience, m.patience)
  }

  /** A side after sealing `recs`, and the frames that come out. */
  function Sent(s: Side, recs: seq<Rec>): Side
  {
    s.(sendCtr := s.sendCtr + |recs|, sealed := s.sealed + recs)
  }

  function Frames(s: Side, recs: seq<Rec>): (f: seq<Frame>)
    ensures |f| == |recs|
  {
    seq(|recs|, k requires 0 <= k < |recs| => FrameOf(s.sendKey, s.sendDir, s.th, s.sendCtr + k, recs[k]))
  }

  lemma SentMore(s: Side, recs: seq<Rec>, rec: Rec)
    ensures Sent(Sent(s, recs), [rec]) == Sent(s, recs + [rec])
    ensures Frames(s, recs + [rec]) ==
            Frames(s, recs) + [FrameOf(s.sendKey, s.sendDir, s.th, s.sendCtr + |recs|, rec)]
  {
    hide FrameOf;
    assert s.sealed + recs + [rec] == s.sealed + (recs + [rec]);
  }

  class RecordWriter {
    const session: RecordSession
    const stream: Socket
    var buf: seq<byte>
    var cancelled: bool
    var patience: nat            // how often the user still lets it go on
    ghost const start: Side
    ghost const before: seq<Frame>
    ghost const means: Means
    ghost var given: seq<byte>   // all bytes written so far

    constructor (session: RecordSession, stream: Socket, patience: nat)
      ensures this.session == session && this.stream == stream && !cancelled
      ensures start == session.View() && before == stream.out && given == []
      ensures means == Means(patience, stream.room, session.sendCtr)
      ensures Valid()
    {
      this.session, this.stream, this.patience := session, stream, patience;
      buf, cancelled, given := [], false, [];
      start, before := session.View(), stream.out;
      means := Means(patience, stream.room, session.sendCtr);
      new;
      assert session.View() == Sent(start, []) && stream.out == before + Frames(start, []);
    }

    /** Exactly the records `recs` were sealed and sent, all of them data. */
    ghost predicate Wrote(recs: seq<Rec>)
      reads this, session, stream
    {
      && session.View() == Sent(start, recs) && stream.out == before + Frames(start, recs)
      && means.ctr == start.sendCtr && !cancelled && Affords(means, |recs|, |recs|)
      && patience + |recs| == means.patience && stream.room + |recs| == means.room
    }

    /** Sending broke off: only a prefix of `recs` was sealed, and no more than that sent. */
    ghost predicate BrokeOff(recs: seq<Rec>)
      reads this, session, stream
    {
      exists n :: 0 <= n <= |recs| && session.View() == Sent(start, recs[..n]) &&
                  stream.out <= before + Frames(start, recs[..n])
    }

    /** Everything given is either sent as full chunks or waits in `buf`. */
    ghost predicate Valid()
      reads this, session, stream
    {
      Wrote(DataRecs(Chunks(given))) && buf == Tail(given)
    }

    method CancelRequested() returns (yes: bool)
      modifies this`cancelled, this`patience
      ensures yes == (old(patience) == 0) && cancelled == (old(cancelled) || yes)
      ensures patience == if yes then 0 else old(patience) - 1
    {
      yes := patience == 0;
      if yes {
        cancelled := true;
      } else {
        patience := patience - 1;
      }
    }

    method SendRecord(kind: RecordType, body: seq<byte>, ghost recs: seq<Rec>) returns (ok: bool)
      requires session.View() == Sent(start, recs) && stream.out == before + Frames(start, recs)
      requires means.ctr == start.sendCtr && stream.room + |recs| == means.room
      modifies session, stream
      ensures ok <==> |recs| + 1 <= means.room && means.ctr + |recs| + 1 <= U64_MAX
      ensures ok ==> session.View() == Sent(start, recs + [Rec(kind, body)])
      ensures ok ==> stream.out == before + Frames(start, recs + [Rec(kind, body)])
      ensures ok ==> stream.room + |recs| + 1 == means.room
      ensures !ok ==> BrokeOff(recs + [Rec(kind, body)])
    {
      ghost var all := recs + [Rec(kind, body)];
      assert all[..|recs|] == recs && all[..|all|] == all;
      SentMore(start, recs, Rec(kind, body));
      hide FrameOf, Frames;
      var frame := session.Seal(kind, body);
      if frame.Err? {
        return false;
      }
      ok := stream.WriteFrame(frame.value);
    }

    method SendData(chunk: seq<byte>, ghost recs: seq<Rec>) returns (ok: bool)
      requires Wrote(recs)
      modifies this`cancelled, this`patience, session, stream
      ensures ok <==> Affords(means, |recs| + 1, |recs| + 1)
      ensures ok ==> Wrote(recs + [Rec(Data, chunk)])
      ensures !ok ==> BrokeOff(recs + [Rec(Data, chunk)])
      ensures !ok ==> (cancelled <==> |recs| == means.patience)
    {
      var cancel := CancelRequested();
      if cancel {
        assert (recs + [Rec(Data, chunk)])[..|recs|] == recs;
        return false;
      }
      hide Sent, Frames;
      ok := SendRecord(Data, chunk, recs);
    }

    /** One round of `write`: a whole chunk straight from the caller's bytes, or what still fits
        into the buffer. */
    method WriteSome(remaining: seq<byte>) returns (ok: bool, n: nat)
      requires Valid() && remaining != []
      modifies this`buf, this`cancelled, this`patience, this`given, session, stream
      ensures 0 < n <= |remaining|
      ensures ok ==> Valid() && given == old(given) + remaining[..n]
      ensures !ok ==> BrokeOff(DataRecs(Chunks(old(given) + remaining[..n])))
      ensures var sent := |Chunks(old(given) + remaining[..n])|;
              && (ok <==> Affords(means, sent, sent))
              && (!ok ==> (cancelled <==> Cancels(means, sent)))
    {
      hide BrokeOff;
      n := if buf == [] && |remaining| >= CHUNK then CHUNK else Min(|remaining|, CHUNK - |buf|);
      var piece := remaining[..n];
      Step(given, piece, []);
      ghost var recs := DataRecs(Chunks(given));
      assert |recs| == |Chunks(given)| && |DataRecs(Chunks(given + piece))| == |Chunks(given + piece)|;
      hide Chunks, Tail, DataRecs, Sent, Frames;
      ok := true;
      if buf == [] && |remaining| >= CHUNK {
        assert buf + piece == piece;
        ok := SendData(piece, recs);
      } else {
        buf := buf + piece;
        if |buf| == CHUNK {
          var chunk := buf;
          buf := [];
          ok := SendData(chunk, recs);
        }
      }
      if ok {
        given := given + piece;
      }
    }

    /** `write`: it fails exactly when a chunk it completes cannot be sent, and it is the user's
        doing exactly when his patience ends first. */
    method Write(data: seq<byte>) returns (ok: bool)
      requires Valid()
      modifies this`buf, this`cancelled, this`patience, this`given, session, stream
      ensures var n := |Chunks(old(given) + data)|;
              && (ok <==> Affords(means, n, n))
              && (!ok ==> (cancelled <==> Cancels(means, n)))
      ensures ok ==> Valid() && given == old(given) + data
      ensures !ok ==> BrokeOff(DataRecs(Chunks(old(given) + data)))
    {
      hide BrokeOff, Chunks, Tail, DataRecs, Sent, Frames;
      var remaining := data;
      ghost var total := given + data;
      assert total == given + remaining;
      while remaining != []
        invariant Valid() && total == given + remaining == old(given) + data
        decreases |remaining|
      {
        ghost var was := given;
        var n;
        ok, n := WriteSome(remaining);
        assert remaining == remaining[..n] + remaining[n..];
        Regroup(was, remaining[..n], remaining[n..]);
        if !ok {
          ChunksGrow(was + remaining[..n], remaining[n..]);
          Later(means, |Chunks(was + remaining[..n])|, |Chunks(total)|);
          DataRecsPrefix(Chunks(was + remaining[..n]), Chunks(total));
          StillBroke(DataRecs(Chunks(was + remaining[..n])), DataRecs(Chunks(total)));
          return;
        }
        remaining := remaining[n..];
      }
      assert given + [] == given;
      ok := true;
    }

    lemma StillBroke(recs: seq<Rec>, goal: seq<Rec>)
      requires BrokeOff(recs) && recs <= goal
      ensures BrokeOff(goal)
    {
      hide Sent, Frames;
      var n :| 0 <= n <= |recs| && session.View() == Sent(start, recs[..n]) &&
          stream.out <= before + Frames(start, recs[..n]);
      assert goal[..n] == recs[..n];
    }

    lemma BrokenSealed(recs: seq<Rec>, goal: seq<Rec>)
      requires BrokeOff(recs) && recs <= goal
      ensures start.sealed <= session.View().sealed <= start.sealed + goal
    {
      hide Frames;
      var n :| 0 <= n <= |recs| && session.View() == Sent(start, recs[..n]) &&
          stream.out <= before + Frames(start, recs[..n]);
      assert goal == recs[..n] + goal[n..];
      assert start.sealed + goal == start.sealed + recs[..n] + goal[n..];
    }

    /** The buffered tail, then `Done`. */
    method Finish() returns (ok: bool)
      requires Valid()
      modifies this`buf, this`cancelled, this`patience, session, stream
      ensures ok <==> Affords(means, |Pieces(given)|, |Pieces(given)| + 1)
      ensures !ok ==> (cancelled <==> Cancels(means, |Pieces(given)|))
      ensures ok ==> session.View() == Sent(start, Transcribed(given))
      ensures ok ==> stream.out == before + Frames(start, Transcribed(given))
      ensures !ok ==> BrokeOff(Transcribed(given))
    {
      ghost var recs := DataRecs(Chunks(given));
      assert Pieces(given) == Chunks(given) + if buf == [] then [] else [buf];
      if buf != [] {
        assert DataRecs(Pieces(given)) == recs + [Rec(Data, buf)];
        hide Sent, Frames;
        var chunk := buf;
        buf := [];
        ok := SendData(chunk, recs);
        recs := recs + [Rec(Data, chunk)];
        if !ok {
          StillBroke(recs, Transcribed(given));
          return;
        }
      }
      assert recs == DataRecs(Pieces(given));
      hide Sent, Frames;
      ok := SendRecord(Done, [], recs);
    }
  }

  /** What stops an earlier record stops a later one, for the same reason. */
  lemma Later(m: Means, n: nat, k: nat)
    requires n <= k && !Affords(m, n, n)
    ensures !Affords(m, k, k) && (Cancels(m, n) <==> Cancels(m, k))
  {
  }

  lemma DataRecsPrefix(ps: seq<seq<byte>>, qs: seq<seq<byte>>)
    requires ps <= qs
    ensures DataRecs(ps) <= DataRecs(qs)
  {
  }

  lemma Step(given: seq<byte>, piece: seq<byte>, rest: seq<byte>)
    requires |Tail(given)| + |piece| <= CHUNK
    ensures |Tail(given)| + |piece| < CHUNK ==>
              Chunks(given + piece) == Chunks(given) && Tail(given + piece) == Tail(given) + piece
    ensures |Tail(given)| + |piece| == CHUNK ==>
              && DataRecs(Chunks(given + piece)) == DataRecs(Chunks(given)) + [Rec(Data, Tail(given) + piece)]
              && Tail(given + piece) == []
    ensures DataRecs(Chunks(given + piece)) <= DataRecs(Chunks(given + piece + rest))
  {
    Extend(given, piece);
    ChunksGrow(given + piece, rest);
    hide Chunks, Tail;
  }

  /** `plan.write_to(&mut rw)` followed by `finish`: however the container is cut into
      writes, the records depend only on its bytes. */
  method SendContainer(session: RecordSession, stream: Socket, writes: seq<seq<byte>>, patience: nat) returns (ok: bool)
    modifies session, stream
    ensures var n := |Pieces(Concat(writes))|;
            ok <==> Affords(Means(patience, old(stream.room), old(session.sendCtr)), n, n + 1)
    ensures ok ==> session.View() == Sent(old(session.View()), Transcribed(Concat(writes)))
    ensures ok ==> stream.out == old(stream.out) + Frames(old(session.View()), Transcribed(Concat(writes)))
    ensures !ok ==>
              old(session.View().sealed) <= session.View().sealed <=
              old(session.View().sealed) + Transcribed(Concat(writes))
  {
    hide Chunks, Tail, Pieces, Concat, DataRecs, Frames, Sent, Transcribed;
    var rw: RecordWriter := new RecordWriter(session, stream, patience);
    var k := 0;
    ConcatNone(writes[..0]);
    while k < |writes|
      modifies rw`buf, rw`cancelled, rw`patience, rw`given, session, stream
      invariant 0 <= k <= |writes| && fresh(rw) && rw.session == session && rw.stream == stream
      invariant rw.start == old(session.View()) && rw.before == old(stream.out)
      invariant rw.means == Means(patience, old(stream.room), old(session.sendCtr))
      invariant rw.Valid() && rw.given == Concat(writes[..k])
    {
      assert writes[..k + 1] == writes[..k] + [writes[k]] && writes == writes[..k + 1] + writes[k + 1..];
      ConcatSplit(writes[..k], [writes[k]]);
      ConcatOne(writes[k]);
      ConcatSplit(writes[..k + 1], writes[k + 1..]);
      ok := rw.Write(writes[k]);
      if !ok {
        Partial(Concat(writes[..k + 1]), Concat(writes[k + 1..]));
        rw.BrokenSealed(DataRecs(Chunks(Concat(writes[..k + 1]))), Transcribed(Concat(writes)));
        return;
      }
      k := k + 1;
    }
    assert writes[..k] == writes;
    ok := rw.Finish();
    if !ok {
      rw.BrokenSealed(Transcribed(Concat(writes)), Transcribed(Concat(writes)));
    }
  }

  lemma ConcatNone(ps: seq<seq<byte>>)
    requires ps == []
    ensures Concat(ps) == []
  {
  }

  lemma ConcatOne(x: seq<byte>)
    ensures Concat([x]) == x
  {
    assert [x][1..] == [];
  }

  lemma Partial(a: seq<byte>, x: seq<byte>)
    ensures DataRecs(Chunks(a)) <= Transcribed(a + x) && |Chunks(a)| <= |Pieces(a + x)|
  {
    ChunksGrow(a, x);
    hide Chunks, Tail;
  }

  // ----- the receiver -----

  function Receive(s: Side, frames: seq<Frame>, file: seq<byte>, size: nat): (Side, Result<seq<byte>>)
    decreases |frames|
  {
    if frames == [] || |frames[0]| > MAX_FRAME then (s, Err(Io))
    else
      match OpenRecord(s, frames[0])
      case (t, Err(e)) => (t, Err(e))
      case (t, Ok(rec)) =>
        match rec.kind
        case Data =>
          if rec.body == [] || |file| + |rec.body| > size then (t, Err(Format))
          else Receive(t, frames[1..], file + rec.body, size)
        case Done => if rec.body == [] && |file| == size then (t, Ok(file)) else (t, Err(Format))
        case _ => (t, Err(Format))
  }

  /** `receive_into`; after `patience` rounds the user or the socket breaks it off. The
      declared size was checked when the offer was read. */
  method ReceiveInto(session: RecordSession, frames: seq<Frame>, size: nat, patience: nat)
    returns (r: Result<seq<byte>>)
    requires size <= MAX_TRANSFER_SIZE
    modifies session
    ensures (session.View(), r) == Receive(old(session.View()), frames[..Min(patience, |frames|)], [], size)
  {
    var file: seq<byte> := [];
    var received := 0;
    var next := 0;
    ghost var seen := frames[..Min(patience, |frames|)];
    hide OpenRecord;
    while true
      invariant 0 <= next <= |seen| && received == |file| <= size
      invariant Receive(session.View(), seen[next..], file, size) == Receive(old(session.View()), seen, [], size)
      decreases |seen| - next
    {
      if next == patience {
        return Err(Io);
      }
      if next == |frames| || |frames[next]| > MAX_FRAME {
        return Err(Io);
      }
      assert seen[next..][1..] == seen[next + 1..];
      var rec := session.Open(frames[next]);
      next := next + 1;
      if rec.Err? {
        return Err(rec.error);
      }
      match rec.value.kind {
        case Data =>
          if rec.value.body == [] {
            return Err(Format);
          }
          received := Min(received + |rec.value.body|, U64_MAX);  // saturating
          if received > size {
            return Err(Format);
          }
          file := file + rec.value.body;
        case Done =>
          if rec.value.body != [] || received != size {
            return Err(Format);
          }
          return Ok(file);
        case _ =>
          return Err(Format);
      }
    }
  }

  predicate NoneEmpty(ps: seq<seq<byte>>) { forall k :: 0 <= k < |ps| ==> ps[k] != [] }

  /** `t` follows `s` by the records of a file that came in as the non-empty pieces `ps`. */
  ghost predicate LogOf(s: Side, t: Side, ps: seq<seq<byte>>, file: seq<byte>)
  {
    t.accepted == s.accepted + DataRecs(ps) + [DoneRec] && file == Concat(ps) && NoneEmpty(ps)
  }

  lemma DataRecsCons(body: seq<byte>, ps: seq<seq<byte>>)
    ensures DataRecs([body] + ps) == [Rec(Data, body)] + DataRecs(ps)
  {
  }

  lemma LogEnd(s: Side, t: Side)
    requires t.accepted == s.accepted + [DoneRec]
    ensures LogOf(s, t, [], [])
  {
    assert s.accepted + DataRecs([]) + [DoneRec] == s.accepted + [DoneRec];
  }

  lemma {:induction false} LogStep(s: Side, s1: Side, t: Side, body: seq<byte>, ps: seq<seq<byte>>, file: seq<byte>)
    requires s1.accepted == s.accepted + [Rec(Data, body)] && body != [] && LogOf(s1, t, ps, file)
    ensures LogOf(s, t, [body] + ps, body + file)
  {
    var qs := [body] + ps;
    assert Concat(qs) == body + file by { assert qs[1..] == ps; }
    assert NoneEmpty(qs);
    hide Concat, NoneEmpty;
    DataRecsCons(body, ps);
    Regroup(s.accepted, [Rec(Data, body)], DataRecs(ps));
    hide DataRecs;
  }

  /** The first record of a successful reception. */
  lemma ReceiveStep(s: Side, frames: seq<Frame>, file: seq<byte>, size: nat)
    requires Receive(s, frames, file, size).1.Ok?
    ensures frames != [] && OpenRecord(s, frames[0]).1.Ok?
    ensures var (s1, rec) := OpenRecord(s, frames[0]);
            var body := rec.value.body;
            && s1.accepted == s.accepted + [rec.value] && |file| + |body| <= size
            && (if rec.value.kind.Done?
                then rec.value == DoneRec && Receive(s, frames, file, size) == (s1, Ok(file)) && |file| == size
                else rec.value == Rec(Data, body) && body != [] &&
                     Receive(s, frames, file, size) == Receive(s1, frames[1..], file + body, size))
  {
    OpenAccepts(s, frames[0]);
    hide OpenRecord;
  }

  lemma OpenAccepts(s: Side, frame: Frame)
    requires OpenRecord(s, frame).1.Ok?
    ensures OpenRecord(s, frame).0.accepted == s.accepted + [OpenRecord(s, frame).1.value]
  {
  }

  /** What a successful reception says about the records that were accepted. */
  lemma {:induction false} ReceivedLog(s: Side, frames: seq<Frame>, file: seq<byte>, size: nat)
    requires Receive(s, frames, file, size).1.Ok?
    ensures var (t, r) := Receive(s, frames, file, size);
            file <= r.value && |r.value| == size && exists ps :: LogOf(s, t, ps, r.value[|file|..])
    decreases |frames|
  {
    hide Receive, OpenRecord, LogOf;
    ReceiveStep(s, frames, file, size);
    var (s1, rec) := OpenRecord(s, frames[0]);
    var (t, r) := Receive(s, frames, file, size);
    var body := rec.value.body;
    if rec.value.kind.Done? {
      LogEnd(s, t);
      assert r.value[|file|..] == [];
    } else {
      ReceivedLog(s1, frames[1..], file + body, size);
      var ps :| LogOf(s1, t, ps, r.value[|file + body|..]);
      LogStep(s, s1, t, body, ps, r.value[|file + body|..]);
      assert r.value[|file|..] == body + r.value[|file + body|..];
    }
  }

  function Deliveries(frames: seq<Frame>): seq<Event>
  {
    seq(|frames|, k requires 0 <= k < |frames| => Deliver(false, frames[k]))
  }

  lemma DeliveriesCons(c: Chan, frames: seq<Frame>, n: nat)
    requires frames != [] && n <= |frames| - 1
    ensures var d := Exec(c, Deliver(false, frames[0]));
            && d == c.(r := OpenRecord(c.r, frames[0]).0)
            && Run(c, Deliveries(frames[..n + 1])) == Run(d, Deliveries(frames[1..][..n]))
  {
    hide OpenRecord;
    var ev := Deliveries(frames[..n + 1]);
    assert ev[0] == Deliver(false, frames[0]) && ev[1..] == Deliveries(frames[1..][..n]);
  }

  /** Receiving is a run of deliveries, so what holds over every run holds for it. */
  lemma {:induction false} ReceiveIsRun(c: Chan, frames: seq<Frame>, file: seq<byte>, size: nat)
    ensures exists n :: 0 <= n <= |frames| &&
                        Run(c, Deliveries(frames[..n])) == c.(r := Receive(c.r, frames, file, size).0)
    decreases |frames|
  {
    hide OpenRecord, Exec;
    if frames == [] || |frames[0]| > MAX_FRAME {
      assert Deliveries(frames[..0]) == [];
    } else {
      var (t, rec) := OpenRecord(c.r, frames[0]);
      var d := c.(r := t);
      if rec.Ok? && rec.value.kind.Data? && rec.value.body != [] && |file| + |rec.value.body| <= size {
        ReceiveIsRun(d, frames[1..], file + rec.value.body, size);
        hide Run, Deliveries;
        var n :| 0 <= n <= |frames[1..]| &&
                 Run(d, Deliveries(frames[1..][..n])) ==
                 d.(r := Receive(t, frames[1..], file + rec.value.body, size).0);
        DeliveriesCons(c, frames, n);
        assert Run(c, Deliveries(frames[..n + 1])) == c.(r := Receive(c.r, frames, file, size).0);
      } else {
        DeliveriesCons(c, frames, 0);
        assert Deliveries(frames[1..][..0]) == [] && Run(d, []) == d;
        hide Run, Deliveries;
        assert Run(c, Deliveries(frames[..0 + 1])) == c.(r := Receive(c.r, frames, file, size).0);
      }
    }
  }

  // ----- end to end -----

  /** Over every run of the network: the sender sealed `before` (its offer) and then some
      part of the container's records; the receiver took as many records before its
      reception and then received a file. That file is the whole container, record by
      record. */
  lemma EndToEnd(s: Handshake.Session, events: seq<Event>, before: seq<Rec>, data: seq<byte>,
                 start: Side, frames: seq<Frame>, size: nat)
    requires Handshake.SessionFits(s) && LegalRun(Opened(s), events)
    requires var c := Run(Opened(s), events);
             && c.i.sealed <= before + Transcribed(data)
             && |start.accepted| == |before|
             && Receive(start, frames, [], size).1.Ok?
             && Receive(start, frames, [], size).0 == c.r
    ensures var c := Run(Opened(s), events);
            && Receive(start, frames, [], size).1 == Ok(data) && size == |data|
            && c.r.accepted == c.i.sealed == before + Transcribed(data)
  {
    RecordsInOrder(s, events);
    var c := Run(Opened(s), events);
    ReceivedLog(start, frames, [], size);
    hide Run, LegalRun, Receive;
    var file := Receive(start, frames, [], size).1.value;
    var ps :| LogOf(start, c.r, ps, file[0..]);
    assert file[0..] == file;
    hide Pieces;
    SamePieces(start.accepted, before, ps, Pieces(data));
    PiecesOf(data);
  }

  /** `Done` appears only at the end, so a log that ends in it is complete. */
  lemma SamePieces(pre: seq<Rec>, before: seq<Rec>, ps: seq<seq<byte>>, qs: seq<seq<byte>>)
    requires |pre| == |before|
    requires pre + DataRecs(ps) + [DoneRec] <= before + (DataRecs(qs) + [DoneRec])
    ensures ps == qs && pre == before
  {
    var got, all := pre + DataRecs(ps) + [DoneRec], before + (DataRecs(qs) + [DoneRec]);
    assert got[|pre| + |ps|] == DoneRec == all[|pre| + |ps|];
    assert |ps| < |qs| ==> all[|pre| + |ps|] == DataRecs(qs)[|ps|];
    assert |ps| == |qs|;
    forall k | 0 <= k < |ps|
      ensures ps[k] == qs[k]
    {
      assert got[|pre| + k] == DataRecs(ps)[k] && all[|pre| + k] == DataRecs(qs)[k];
    }
    forall k | 0 <= k < |pre|
      ensures pre[k] == before[k]
    {
      assert got[k] == pre[k] && all[k] == before[k];
    }
  }

  /** The first `p` frames of a container, in order and untouched. */
  lemma {:induction false} HonestReceived(a: Side, b: Side, ps: seq<seq<byte>>, file: seq<byte>, size: nat, p: nat)
    requires a.th == b.th && b.recvKey == a.sendKey && b.recvDir == a.sendDir && b.recvCtr == a.sendCtr
    requires a.sendCtr + |ps| < U64_MAX && p <= |ps| + 1
    requires forall k :: 0 <= k < |ps| ==> 0 < |ps[k]| <= CHUNK
    ensures var r := Receive(b, Frames(a, DataRecs(ps) + [DoneRec])[..p], file, size).1;
            if p == |ps| + 1 && |file + Concat(ps)| == size then r == Ok(file + Concat(ps)) else r.Err?
    decreases |ps|
  {
    var recs := DataRecs(ps) + [DoneRec];
    var frames := Frames(a, recs);
    HeadOpens(a, b, recs);
    hide FrameOf, Frames, OpenRecord;
    if p > 0 {
      assert frames[..p] != [] && frames[..p][0] == frames[0] && frames[..p][1..] == frames[1..][..p - 1];
      if ps == [] {
        assert file + Concat(ps) == file;
      } else {
        DataRecsCons(ps[0], ps[1..]);
        assert [ps[0]] + ps[1..] == ps;
        assert recs == [Rec(Data, ps[0])] + (DataRecs(ps[1..]) + [DoneRec]) by {
          Regroup([Rec(Data, ps[0])], DataRecs(ps[1..]), [DoneRec]);
        }
        assert recs[1..] == DataRecs(ps[1..]) + [DoneRec];
        FramesTail(a, recs);
        assert file + ps[0] + Concat(ps[1..]) == file + Concat(ps);
        hide DataRecs, Concat;
        HonestReceived(a.(sendCtr := a.sendCtr + 1), OpenRecord(b, frames[0]).0, ps[1..], file + ps[0], size, p - 1);
      }
    }
  }

  /** The two ends agree: of a container's frames, delivered in order until something breaks it
      off, the receiver makes the container exactly if all arrived and the declared size is
      right. */
  lemma ContainerReceived(a: Side, b: Side, data: seq<byte>, size: nat, p: nat)
    requires a.th == b.th && b.recvKey == a.sendKey && b.recvDir == a.sendDir && b.recvCtr == a.sendCtr
    requires a.sendCtr + |Pieces(data)| < U64_MAX && p <= |Transcribed(data)|
    ensures var r := Receive(b, Frames(a, Transcribed(data))[..p], [], size).1;
            if p == |Transcribed(data)| && size == |data| then r == Ok(data) else r.Err?
  {
    PiecesOf(data);
    HonestReceived(a, b, Pieces(data), [], size, p);
    hide Pieces, Frames, Receive;
    assert [] + Concat(Pieces(data)) == data;
  }

  lemma FramesTail(a: Side, recs: seq<Rec>)
    requires recs != []
    ensures Frames(a, recs)[1..] == Frames(a.(sendCtr := a.sendCtr + 1), recs[1..])
  {
    hide FrameOf;
  }

  lemma HeadOpens(a: Side, b: Side, recs: seq<Rec>)
    requires a.th == b.th && b.recvKey == a.sendKey && b.recvDir == a.sendDir && b.recvCtr == a.sendCtr < U64_MAX
    requires recs != []
    ensures OpenRecord(b, Frames(a, recs)[0]) ==
            (b.(recvCtr := b.recvCtr + 1, accepted := b.accepted + [recs[0]]), Ok(recs[0]))
    ensures |Frames(a, recs)[0]| == 17 + |recs[0].body|
  {
    assert |FrameOf(a.sendKey, a.sendDir, a.th, a.sendCtr, recs[0])| == 17 + |recs[0].body|;
    NextFrameOpens(a, b, recs[0]);
    hide FrameOf, OpenRecord;
  }
}
