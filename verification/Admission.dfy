/** Listener admission: bounded handshake permits, one transfer at a time, and the channel
    the user's decisions are forwarded to, in every interleaving of the threads. */
module Admission {
  import opened Base

  type Tid = nat

  /** Where one connection stands. Each step below is one atomic operation. */
  datatype Local =
    | Trying(current: nat)   // loaded or observed `available`; about to compare-exchange
    | Refused                // the pool was empty, or the permit was given up
    | Handshaking            // holds a permit
    | Busy                   // lost the single-transfer flag; still holds its permit
    | Admitted               // won the flag; still holds its permit
    | Freed                  // the permit is handed back
    | Registered             // its decision channel is in place
    | Cleared                // guard drop: channel cleared, flag not yet
    | Finished

  /** `forwarding` is the sender the command loop has cloned and not yet used; `inbox` what
      each connection's channel was sent. */
  datatype Shared = Shared(capacity: nat, available: nat, active: bool, channel: Option<Tid>,
                           threads: map<Tid, Local>, forwarding: Option<Tid>, inbox: map<Tid, nat>)

  datatype Event =
    | Accept(t: Tid)                       // load `available`
    | Exchange(t: Tid, spurious: bool)     // compare_exchange_weak
    | GiveUp(t: Tid)                       // handshake or thread start failed, or busy: the permit drops
    | Claim(t: Tid)                        // compare_exchange on `transfer_active`
    | ReturnPermit(t: Tid)
    | Register(t: Tid)
    | Clear(t: Tid)
    | Release(t: Tid)
    | TakeSender                           // forward_command clones the sender under the lock
    | SendCommand                          // and sends after releasing it

  predicate At(s: Shared, t: Tid, l: Local) { t in s.threads && s.threads[t] == l }

  predicate Enabled(s: Shared, e: Event)
  {
    match e
    case Accept(t) => t !in s.threads
    case Exchange(t, _) => t in s.threads && s.threads[t].Trying?
    case GiveUp(t) => At(s, t, Handshaking) || At(s, t, Busy)
    case Claim(t) => At(s, t, Handshaking)
    case ReturnPermit(t) => At(s, t, Admitted)
    case Register(t) => At(s, t, Freed)
    case Clear(t) => At(s, t, Registered)
    case Release(t) => At(s, t, Cleared)
    case TakeSender => s.forwarding.None?
    case SendCommand => s.forwarding.Some?
  }

  function Move(s: Shared, t: Tid, l: Local): Shared { s.(threads := s.threads[t := l]) }

  function Exec(s: Shared, e: Event): Shared
    requires Enabled(s, e)
  {
    match e
    case Accept(t) => Move(s, t, Trying(s.available))
    case Exchange(t, spurious) =>
      var cur := s.threads[t].current;
      if cur == 0 then Move(s, t, Refused)
      else if s.available == cur && !spurious then Move(s, t, Handshaking).(available := cur - 1)
      else Move(s, t, Trying(s.available))
    case GiveUp(t) => Move(s, t, Refused).(available := s.available + 1)
    case Claim(t) => if s.active then Move(s, t, Busy) else Move(s, t, Admitted).(active := true)
    case ReturnPermit(t) => Move(s, t, Freed).(available := s.available + 1)
    case Register(t) => Move(s, t, Registered).(channel := Some(t))
    case Clear(t) => Move(s, t, Cleared).(channel := None)
    case Release(t) => Move(s, t, Finished).(active := false)
    case TakeSender => s.(forwarding := s.channel)
    case SendCommand =>
      var t := s.forwarding.value;
      s.(forwarding := None, inbox := s.inbox[t := (if t in s.inbox then s.inbox[t] else 0) + 1])
  }

  predicate HoldsPermit(l: Local) { l.Handshaking? || l.Busy? || l.Admitted? }

  /** Between admission and the end of the guard's drop. */
  predicate InSection(l: Local) { l.Admitted? || l.Freed? || l.Registered? || l.Cleared? }

  /** The connection was admitted and has registered its channel at some time. */
  predicate WasRegistered(l: Local) { l.Registered? || l.Cleared? || l.Finished? }

  function Holders(threads: map<Tid, Local>): set<Tid> { set t | t in threads && HoldsPermit(threads[t]) }

  predicate Permits(s: Shared) { s.available + Held(s.threads) == s.capacity }

  ghost predicate OneInside(s: Shared)
  {
    && (forall t, u :: t in s.threads && u in s.threads && InSection(s.threads[t]) && InSection(s.threads[u]) ==>
        t == u)
    && (s.active <==> exists t :: t in s.threads && InSection(s.threads[t]))
  }

  ghost predicate OwnChannel(s: Shared)
  {
    && (s.channel.Some? ==> At(s, s.channel.value, Registered))
    && (forall t :: t in s.threads && s.threads[t].Registered? ==> s.channel == Some(t))
    && (s.forwarding.Some? ==> s.forwarding.value in s.threads && WasRegistered(s.threads[s.forwarding.value]))
    && (forall t :: t in s.inbox ==> t in s.threads && WasRegistered(s.threads[t]))
  }

  ghost predicate Inv(s: Shared) { Permits(s) && OneInside(s) && OwnChannel(s) }

  function Held(threads: map<Tid, Local>): nat { |Holders(threads)| }

  lemma HeldMove(threads: map<Tid, Local>, t: Tid, l: Local)
    ensures var before := t in threads && HoldsPermit(threads[t]);
            Held(threads[t := l]) + (if before then 1 else 0) == Held(threads) + (if HoldsPermit(l) then 1 else 0)
  {
    var h := Holders(threads);
    var rest := h - {t};
    assert Holders(threads[t := l]) == if HoldsPermit(l) then rest + {t} else rest;
    if t in h {
      assert h == rest + {t};
    } else {
      assert h == rest;
    }
    assert |rest + {t}| == |rest| + 1;
  }

  lemma PermitsKept(s: Shared, e: Event)
    requires Permits(s) && Enabled(s, e)
    ensures Permits(Exec(s, e))
  {
    hide Held;
    if !e.TakeSender? && !e.SendCommand? {
      HeldMove(s.threads, e.t, Exec(s, e).threads[e.t]);
      assert Exec(s, e).threads == s.threads[e.t := Exec(s, e).threads[e.t]];
    }
  }

  lemma OneInsideKept(s: Shared, e: Event)
    requires OneInside(s) && Enabled(s, e)
    ensures OneInside(Exec(s, e))
  {
    var s' := Exec(s, e);
    if !e.TakeSender? && !e.SendCommand? && s'.active {
      if s.active {
        var t :| t in s.threads && InSection(s.threads[t]);
        assert t in s'.threads && InSection(s'.threads[t]);
      } else {
        assert e.t in s'.threads && InSection(s'.threads[e.t]);
      }
    }
  }

  lemma OwnChannelKept(s: Shared, e: Event)
    requires OneInside(s) && OwnChannel(s) && Enabled(s, e)
    ensures OwnChannel(Exec(s, e))
  {
    if e.TakeSender? || e.SendCommand? {
      ForwardKeeps(s, e);
    } else if e.Register? || e.Clear? || e.Release? {
      MoveChannel(s, e);
    } else {
      hide OneInside, OwnChannel;
      var s' := Exec(s, e);
      ElsewhereKeeps(s, e.t, s'.threads[e.t], s'.available, s'.active);
    }
  }

  lemma ForwardKeeps(s: Shared, e: Event)
    requires OwnChannel(s) && Enabled(s, e) && (e.TakeSender? || e.SendCommand?)
    ensures OwnChannel(Exec(s, e))
  {
  }

  /** Steps that neither begin nor end at a registered connection. */
  lemma ElsewhereKeeps(s: Shared, t: Tid, l: Local, available: nat, active: bool)
    requires OwnChannel(s) && !WasRegistered(l) && (t in s.threads ==> !WasRegistered(s.threads[t]))
    ensures OwnChannel(Move(s, t, l).(available := available, active := active))
  {
  }

  lemma MoveChannel(s: Shared, e: Event)
    requires OneInside(s) && OwnChannel(s) && Enabled(s, e) && (e.Register? || e.Clear? || e.Release?)
    ensures OwnChannel(Exec(s, e))
  {
    assert forall u :: u in s.threads && InSection(s.threads[u]) ==> u == e.t;
    hide OneInside;
  }

  lemma ExecKeeps(s: Shared, e: Event)
    requires Inv(s) && Enabled(s, e)
    ensures Inv(Exec(s, e)) && Exec(s, e).capacity == s.capacity
  {
    PermitsKept(s, e);
    OneInsideKept(s, e);
    OwnChannelKept(s, e);
    hide Permits, OneInside, OwnChannel;
  }

  ghost predicate EnabledRun(s: Shared, events: seq<Event>)
    decreases |events|
  {
    events != [] ==> Enabled(s, events[0]) && EnabledRun(Exec(s, events[0]), events[1..])
  }

  ghost function Run(s: Shared, events: seq<Event>): Shared
    requires EnabledRun(s, events)
    decreases |events|
  {
    if events == [] then s else Run(Exec(s, events[0]), events[1..])
  }

  lemma {:induction false} RunKeeps(s: Shared, events: seq<Event>)
    requires Inv(s) && EnabledRun(s, events)
    ensures Inv(Run(s, events)) && Run(s, events).capacity == s.capacity
    decreases |events|
  {
    hide Inv, Exec, Enabled;
    if events != [] {
      ExecKeeps(s, events[0]);
      RunKeeps(Exec(s, events[0]), events[1..]);
    }
  }

  function Start(capacity: nat): Shared { Shared(capacity, capacity, false, None, map[], None, map[]) }

  /** In every interleaving: permits are conserved, at most one connection is between
      admission and guard drop, the registered channel is absent or that connection's
      own, and a forwarded command only ever reaches a connection that was admitted. */
  lemma Admissions(capacity: nat, events: seq<Event>)
    requires EnabledRun(Start(capacity), events)
    ensures var s := Run(Start(capacity), events);
            && s.available + |Holders(s.threads)| == capacity
            && (forall t, u ::
                  t in s.threads && u in s.threads && InSection(s.threads[t]) && InSection(s.threads[u]) ==> t == u)
            && (s.active <==> exists t :: t in s.threads && InSection(s.threads[t]))
            && (s.channel.Some? ==> At(s, s.channel.value, Registered))
            && (forall t :: t in s.inbox ==> t in s.threads && WasRegistered(s.threads[t]))
  {
    assert Holders(map[]) == {};
    assert Inv(Start(capacity));
    RunKeeps(Start(capacity), events);
    hide Run, EnabledRun, Holders;
  }

  /** Whoever registers finds no other channel in place, and its drop leaves none. */
  lemma ChannelIsOwn(s: Shared, t: Tid)
    requires Inv(s)
    ensures At(s, t, Freed) ==> s.channel == None && Exec(s, Register(t)).channel == Some(t)
    ensures At(s, t, Registered) ==> s.channel == Some(t) && Exec(s, Clear(t)).channel == None
  {
    if At(s, t, Freed) {
      assert forall u :: u in s.threads && InSection(s.threads[u]) ==> u == t;
    }
  }

  // ----- who is admitted -----

  /** The permit pool lets a connection through that meets no other thread exactly if a permit is
      not held. */
  lemma PoolAdmits(s: Shared, t: Tid)
    requires Inv(s) && t !in s.threads
    ensures var v := Exec(Exec(s, Accept(t)), Exchange(t, false));
            && At(v, t, if |Holders(s.threads)| < s.capacity then Handshaking else Refused)
            && v.available == s.available - if |Holders(s.threads)| < s.capacity then 1 else 0
  {
    hide Holders;
  }

  /** A compare-exchange that loses to another thread, or fails for no reason, tries again with
      what it saw; only an empty pool refuses. */
  lemma ExchangeRetries(s: Shared, t: Tid, spurious: bool)
    requires Enabled(s, Exchange(t, spurious))
    ensures var v := Exec(s, Exchange(t, spurious));
            && (At(v, t, Refused) <==> s.threads[t].current == 0)
            && (At(v, t, Handshaking) ==> v.available == s.available - 1)
            && (v.threads[t].Trying? ==> v.threads[t].current == s.available && v.available == s.available)
  {
  }

  /** A connection that has shaken hands is admitted exactly if no transfer is under way. */
  lemma ClaimAdmits(s: Shared, t: Tid)
    requires Inv(s) && At(s, t, Handshaking)
    ensures var v := Exec(s, Claim(t));
            var free := forall u :: u in s.threads ==> !InSection(s.threads[u]);
            && At(v, t, if free then Admitted else Busy) && v.active && v.available == s.available
  {
    hide Permits, OwnChannel;
  }

  lemma RunCons(s: Shared, e: Event, rest: seq<Event>)
    requires Enabled(s, e) && EnabledRun(Exec(s, e), rest)
    ensures EnabledRun(s, [e] + rest) && Run(s, [e] + rest) == Run(Exec(s, e), rest)
  {
    assert ([e] + rest)[1..] == rest;
    hide Exec, Enabled;
  }

  /** A command of the user, forwarded. */
  const Command: seq<Event> := [TakeSender] + ([SendCommand] + [])

  /** It reaches the connection whose channel is registered, and no other. */
  lemma CommandReaches(s: Shared)
    requires s.channel.Some? && s.forwarding.None?
    ensures EnabledRun(s, Command)
    ensures var t := s.channel.value;
            Run(s, Command) == s.(inbox := s.inbox[t := (if t in s.inbox then s.inbox[t] else 0) + 1])
  {
    var s1 := Exec(s, TakeSender);
    RunCons(s1, SendCommand, []);
    RunCons(s, TakeSender, [SendCommand] + []);
  }

  lemma {:induction false} RunConcat(s: Shared, a: seq<Event>, b: seq<Event>)
    requires EnabledRun(s, a) && EnabledRun(Run(s, a), b)
    ensures EnabledRun(s, a + b) && Run(s, a + b) == Run(Run(s, a), b)
    decreases |a|
  {
    hide Exec, Enabled;
    if a == [] {
      assert a + b == b;
    } else {
      assert (a + b)[0] == a[0] && (a + b)[1..] == a[1..] + b;
      RunConcat(Exec(s, a[0]), a[1..], b);
    }
  }

  function Entering(t: Tid): seq<Event> { [Accept(t)] + ([Exchange(t, false)] + ([Claim(t)] + [])) }
  function Starting(t: Tid): seq<Event> { [ReturnPermit(t)] + ([Register(t)] + []) }
  function Leaving(t: Tid): seq<Event> { [Clear(t)] + ([Release(t)] + []) }

  lemma Enters(s: Shared, t: Tid)
    requires t !in s.threads && s.available > 0 && !s.active
    ensures EnabledRun(s, Entering(t))
    ensures Run(s, Entering(t)) == s.(threads := s.threads[t := Admitted], active := true, available := s.available - 1)
  {
    var s1 := Exec(s, Accept(t));
    var s2 := Exec(s1, Exchange(t, false));
    var s3 := Exec(s2, Claim(t));
    assert s3 == s.(threads := s.threads[t := Admitted], active := true, available := s.available - 1);
    RunCons(s2, Claim(t), []);
    RunCons(s1, Exchange(t, false), [Claim(t)] + []);
    RunCons(s, Accept(t), [Exchange(t, false)] + ([Claim(t)] + []));
  }

  lemma Starts(s: Shared, t: Tid)
    requires At(s, t, Admitted)
    ensures EnabledRun(s, Starting(t))
    ensures Run(s, Starting(t)) ==
            s.(threads := s.threads[t := Registered], available := s.available + 1, channel := Some(t))
  {
    var s1 := Exec(s, ReturnPermit(t));
    var s2 := Exec(s1, Register(t));
    assert s2.threads == s.threads[t := Registered];
    RunCons(s1, Register(t), []);
    RunCons(s, ReturnPermit(t), [Register(t)] + []);
  }

  lemma Leaves(s: Shared, t: Tid)
    requires At(s, t, Registered)
    ensures EnabledRun(s, Leaving(t))
    ensures Run(s, Leaving(t)) == s.(threads := s.threads[t := Finished], channel := None, active := false)
  {
    var s1 := Exec(s, Clear(t));
    var s2 := Exec(s1, Release(t));
    assert s2.threads == s.threads[t := Finished];
    RunCons(s1, Release(t), []);
    RunCons(s, Clear(t), [Release(t)] + []);
  }

  lemma IdleListener(s: Shared)
    requires Inv(s) && !s.active
    ensures s.channel.None? && forall t :: t in s.inbox ==> t in s.threads
  {
    hide Permits;
  }

  /** A whole connection: admitted, started, given one command, and gone. A listener with a free
      permit and no transfer serves the next one so, and is then as free as before. */
  lemma VisitServed(s: Shared, t: Tid)
    requires Inv(s) && t !in s.threads && s.available > 0 && !s.active && s.forwarding.None?
    ensures var visit := Entering(t) + Starting(t) + Command + Leaving(t);
            && EnabledRun(s, visit)
            && Run(s, visit) == s.(threads := s.threads[t := Finished], inbox := s.inbox[t := 1])
  {
    IdleListener(s);
    hide Inv, EnabledRun, Run;
    Enters(s, t);
    var s1 := Run(s, Entering(t));
    Starts(s1, t);
    RunConcat(s, Entering(t), Starting(t));
    var s2 := Run(s1, Starting(t));
    CommandReaches(s2);
    RunConcat(s, Entering(t) + Starting(t), Command);
    var s3 := Run(s2, Command);
    Leaves(s3, t);
    RunConcat(s, Entering(t) + Starting(t) + Command, Leaving(t));
    assert Run(s3, Leaving(t)).threads == s.threads[t := Finished];
  }
}
