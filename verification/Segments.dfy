/** The one-pass readers behind the container edits: drop some segments of a stream,
    and read several streams back to back. */
module Segments {
  import opened Base

  const SCRATCH: nat := 64 * 1024

  datatype Segment = Segment(size: nat, keep: bool)

  function SegTotal(segs: seq<Segment>): nat
  {
    if segs == [] then 0 else segs[0].size + SegTotal(segs[1..])
  }

  function Front<T>(s: seq<T>, n: nat): seq<T> { if n <= |s| then s[..n] else s }
  function Back<T>(s: seq<T>, n: nat): seq<T> { if n <= |s| then s[n..] else [] }

  /** The bytes of the kept segments. */
  function Select(d: seq<byte>, segs: seq<Segment>): seq<byte>
    decreases |segs|
  {
    if segs == [] then []
    else (if segs[0].keep then Front(d, segs[0].size) else []) + Select(Back(d, segs[0].size), segs[1..])
  }

  lemma {:induction false} SelectSnoc(d: seq<byte>, segs: seq<Segment>, last: Segment, tail: seq<byte>)
    requires |d| == SegTotal(segs) && |tail| == last.size
    ensures SegTotal(segs + [last]) == SegTotal(segs) + last.size
    ensures Select(d + tail, segs + [last]) == Select(d, segs) + (if last.keep then tail else [])
    decreases |segs|
  {
    if segs == [] {
      assert segs + [last] == [last] && d + tail == tail;
      assert [last][1..] == [];
      assert Front(tail, |tail|) == tail;
    } else {
      var n, more := segs[0].size, segs[1..];
      assert (segs + [last])[1..] == more + [last] && (segs + [last])[0] == segs[0];
      assert Front(d + tail, n) == d[..n] && Back(d + tail, n) == d[n..] + tail;
      SelectSnoc(d[n..], more, last, tail);
      SelectHead(d, segs);
      SelectHead(d + tail, segs + [last]);
      Regroup(if segs[0].keep then d[..n] else [], Select(d[n..], more), if last.keep then tail else []);
      hide Select, Front, Back;
    }
  }

  lemma SelectHead(d: seq<byte>, segs: seq<Segment>)
    requires segs != []
    ensures Select(d, segs) == (if segs[0].keep then Front(d, segs[0].size) else []) +
            Select(Back(d, segs[0].size), segs[1..])
  {
  }

  /** `SelectReader`: reads are any size and the source may read short. */
  class SelectReader {
    const inner: Source<byte>
    var segments: seq<Segment>
    var remaining: nat
    var keep: bool

    constructor (inner: Source<byte>, segments: seq<Segment>)
      ensures this.inner == inner && Pending() == [Segment(0, false)] + segments
      ensures Rest() == Select(inner.rest, segments)
    {
      this.inner, this.segments, remaining, keep := inner, segments, 0, false;
      new;
      assert Pending()[1..] == segments && inner.rest[0..] == inner.rest;
    }

    ghost function Pending(): seq<Segment>
      reads this
    {
      [Segment(remaining, keep)] + segments
    }

    /** What is still to be read. */
    ghost function Rest(): seq<byte>
      reads this, inner
    {
      Select(inner.rest, Pending())
    }

    /** A read delivers the next kept bytes, none only at the end; it fails only when the
        source is shorter than its segments. */
    method Read(max: nat) returns (r: Result<seq<byte>>)
      modifies this, inner
      ensures r.Ok? ==> |r.value| <= max && old(Rest()) == r.value + Rest()
      ensures r == Ok([]) && max > 0 ==> Rest() == [] && SegTotal(old(Pending())) <= |old(inner.rest)|
      ensures r.Err? ==> SegTotal(old(Pending())) > |old(inner.rest)|
      ensures r.Ok? ==> (SegTotal(old(Pending())) <= |old(inner.rest)| <==> SegTotal(Pending()) <= |inner.rest|)
      ensures r.Ok? && r.value != [] ==> |inner.rest| < |old(inner.rest)|
    {
      while true
        invariant Rest() == old(Rest())
        invariant SegTotal(old(Pending())) <= |old(inner.rest)| <==> SegTotal(Pending()) <= |inner.rest|
        invariant |inner.rest| <= |old(inner.rest)|
        decreases |segments|, remaining
      {
        hide Select, SegTotal;
        ghost var rest, pending := inner.rest, Pending();
        assert pending[1..] == segments;
        if remaining == 0 {
          NextSegment(rest, pending);
          if segments == [] {
            return Ok([]);
          }
          assert [segments[0]] + segments[1..] == segments;
          remaining, keep, segments := segments[0].size, segments[0].keep, segments[1..];
          assert Pending() == pending[1..];
          continue;
        }
        if keep {
          var want := Min(remaining, max);
          if want == 0 {
            return Ok([]);
          }
          var got := inner.Read(want);
          if got == [] {
            return Err(Io);
          }
          Taken(rest, pending, got);
          remaining := remaining - |got|;
          assert Pending() == [Segment(pending[0].size - |got|, true)] + pending[1..];
          return Ok(got);
        }
        var ok := Discard();
        if !ok {
          return Err(Io);
        }
      }
    }

    /** Read past the rest of a dropped segment. */
    method Discard() returns (ok: bool)
      requires !keep && remaining > 0
      modifies this`remaining, inner
      ensures !ok ==> SegTotal(old(Pending())) > |old(inner.rest)|
      ensures ok ==> remaining == 0 && Rest() == old(Rest())
      ensures |inner.rest| <= |old(inner.rest)|
      ensures ok ==> (SegTotal(old(Pending())) <= |old(inner.rest)| <==> SegTotal(Pending()) <= |inner.rest|)
    {
      while remaining > 0
        invariant Rest() == old(Rest()) && |inner.rest| <= |old(inner.rest)|
        invariant SegTotal(old(Pending())) <= |old(inner.rest)| <==> SegTotal(Pending()) <= |inner.rest|
        decreases remaining
      {
        ghost var rest, pending := inner.rest, Pending();
        assert pending[1..] == segments;
        var got := inner.Read(Min(remaining, SCRATCH));
        if got == [] {
          return false;
        }
        Taken(rest, pending, got);
        remaining := remaining - |got|;
        assert Pending() == [Segment(pending[0].size - |got|, false)] + pending[1..];
      }
      ok := true;
    }
  }

  /** An exhausted segment in front. */
  lemma NextSegment(rest: seq<byte>, pending: seq<Segment>)
    requires pending != [] && pending[0].size == 0
    ensures SegTotal(pending) == SegTotal(pending[1..]) && Select(rest, pending) == Select(rest, pending[1..])
    ensures pending[1..] == [] ==> SegTotal(pending) == 0 && Select(rest, pending) == []
  {
    assert Front(rest, 0) == [] && Back(rest, 0) == rest;
  }

  /** Everything the reader delivers to a consumer that reads to its end, unless the source is
      shorter than its segments, even if what is missing would be dropped. */
  method ReadKept(sel: SelectReader, max: nat) returns (r: Option<seq<byte>>)
    requires max > 0
    modifies sel, sel.inner
    ensures r == if SegTotal(old(sel.Pending())) <= |old(sel.inner.rest)| then Some(old(sel.Rest())) else None
  {
    hide Select, SegTotal;
    var all := [];
    while true
      invariant old(sel.Rest()) == all + sel.Rest()
      invariant SegTotal(old(sel.Pending())) <= |old(sel.inner.rest)| <==> SegTotal(sel.Pending()) <= |sel.inner.rest|
      decreases |sel.inner.rest|
    {
      var got := sel.Read(max);
      if got.Err? {
        return None;
      }
      if got.value == [] {
        assert all + [] == all;
        return Some(all);
      }
      Regroup(all, got.value, sel.Rest());
      all := all + got.value;
    }
  }

  /** Taking bytes of the segment in front. */
  lemma {:induction false} Taken(rest: seq<byte>, pending: seq<Segment>, got: seq<byte>)
    requires pending != [] && |got| <= pending[0].size && got <= rest
    ensures var p := [Segment(pending[0].size - |got|, pending[0].keep)] + pending[1..];
            && SegTotal(p) == SegTotal(pending) - |got|
            && Select(rest, pending) == (if pending[0].keep then got else []) + Select(rest[|got|..], p)
  {
    hide Select, SegTotal;
    assert pending == [pending[0]] + pending[1..];
    TakenOf(rest, pending[0], pending[1..], got);
  }

  lemma {:induction false} TakenOf(rest: seq<byte>, seg: Segment, more: seq<Segment>, got: seq<byte>)
    requires |got| <= seg.size && got <= rest
    ensures var p := [Segment(seg.size - |got|, seg.keep)] + more;
            && SegTotal(p) == SegTotal([seg] + more) - |got|
            && Select(rest, [seg] + more) == (if seg.keep then got else []) + Select(rest[|got|..], p)
  {
    hide *;
    var less := Segment(seg.size - |got|, seg.keep);
    Cons(rest, seg, more);
    Cons(rest[|got|..], less, more);
    SplitTaken(rest, seg.size, got);
    var front, back := Front(rest[|got|..], less.size), Select(Back(rest, seg.size), more);
    Joined(got, front, back, Select(rest, [seg] + more), Select(rest[|got|..], [less] + more), seg.keep);
  }

  lemma Joined(got: seq<byte>, front: seq<byte>, back: seq<byte>, all: seq<byte>, left: seq<byte>, keep: bool)
    requires all == (if keep then got + front else []) + back && left == (if keep then front else []) + back
    ensures all == (if keep then got else []) + left
  {
  }

  lemma {:induction false} Cons(rest: seq<byte>, seg: Segment, more: seq<Segment>)
    ensures SegTotal([seg] + more) == seg.size + SegTotal(more)
    ensures Select(rest, [seg] + more) == (if seg.keep then Front(rest, seg.size) else []) +
            Select(Back(rest, seg.size), more)
  {
    assert ([seg] + more)[1..] == more;
  }

  lemma SplitTaken(rest: seq<byte>, n: nat, got: seq<byte>)
    requires |got| <= n && got <= rest
    ensures Front(rest, n) == got + Front(rest[|got|..], n - |got|)
    ensures Back(rest, n) == Back(rest[|got|..], n - |got|)
  {
  }

  // ----- reading streams back to back -----

  /** A stream to chain: a plain one, or the kept part of one. */
  datatype Feed = Plain(src: Source<byte>) | Kept(sel: SelectReader)

  ghost function Foot(f: Feed): set<object>
  {
    match f
    case Plain(src) => {src}
    case Kept(sel) => {sel, sel.inner}
  }

  ghost function FeedRest(f: Feed): seq<byte>
    reads Foot(f)
  {
    match f
    case Plain(src) => src.rest
    case Kept(sel) => sel.Rest()
  }

  /** The feed will not run short of its segments. */
  ghost predicate FeedOk(f: Feed)
    reads Foot(f)
  {
    f.Kept? ==> SegTotal(f.sel.Pending()) <= |f.sel.inner.rest|
  }

  ghost function Feet(fs: seq<Feed>): set<object>
  {
    if fs == [] then {} else Foot(fs[0]) + Feet(fs[1..])
  }

  /** No two feeds share an object, and none will run short. */
  ghost predicate Ready(fs: seq<Feed>)
    reads Feet(fs)
  {
    fs != [] ==> FeedOk(fs[0]) && Foot(fs[0]) !! Feet(fs[1..]) && Ready(fs[1..])
  }

  ghost function FeedsRest(fs: seq<Feed>): seq<byte>
    reads Feet(fs)
  {
    if fs == [] then [] else FeedRest(fs[0]) + FeedsRest(fs[1..])
  }

  class ChainReader {
    var feeds: seq<Feed>   // the current one first
    ghost const repr: set<object>

    ghost predicate Valid()
      reads this, repr
    {
      Feet(feeds) <= repr && this !in repr && Ready(feeds)
    }

    constructor (feeds: seq<Feed>, ghost objects: set<object>)
      requires Ready(feeds) && Feet(feeds) <= objects
      ensures this.feeds == feeds && repr == objects && Valid()
    {
      this.feeds, repr := feeds, objects;
    }

    /** A read delivers the next bytes of the concatenation, none only at its end. A
        zero-length read takes every feed for finished and loses what is left. */
    method Read(max: nat) returns (r: Result<seq<byte>>)
      requires Valid()
      modifies this, repr
      ensures Valid() && r.Ok?
      ensures max > 0 ==> |r.value| <= max && old(FeedsRest(feeds)) == r.value + FeedsRest(feeds)
      ensures max > 0 && r.value == [] ==> FeedsRest(feeds) == []
      ensures max == 0 ==> r.value == [] && feeds == []
    {
      while feeds != []
        invariant Valid()
        invariant max > 0 ==> FeedsRest(feeds) == old(FeedsRest(feeds))
        decreases |feeds|
      {
        r := Step(max);
        if r.value != [] {
          return;
        }
      }
      r := Ok([]);
    }

    /** Read from the current feed; drop it when it gives nothing. */
    method Step(max: nat) returns (r: Result<seq<byte>>)
      requires feeds != [] && Valid()
      modifies this, repr
      ensures Valid() && r.Ok? && |r.value| <= max
      ensures feeds == if r.value == [] then old(feeds)[1..] else old(feeds)
      ensures max > 0 ==> old(FeedsRest(feeds)) == r.value + FeedsRest(feeds)
    {
      hide FeedRest, FeedOk, Feet, Ready, FeedsRest, Foot;
      ghost var fs := feeds;
      Apart(fs);
      FeedsHead(fs);
      ghost var head, more := FeedRest(fs[0]), FeedsRest(fs[1..]);
      r := ReadFeed(feeds[0], max);
      assert FeedsRest(fs[1..]) == more && Ready(fs[1..]);
      FeedsHead(fs);
      Regroup(r.value, FeedRest(fs[0]), more);
      Reunited(fs);
      if r.value == [] {
        feeds := feeds[1..];
      }
    }
  }

  lemma Apart(fs: seq<Feed>)
    requires fs != [] && Ready(fs)
    ensures FeedOk(fs[0]) && Foot(fs[0]) !! Feet(fs[1..]) && Ready(fs[1..]) && Feet(fs) == Foot(fs[0]) + Feet(fs[1..])
  {
  }

  lemma Reunited(fs: seq<Feed>)
    requires fs != [] && FeedOk(fs[0]) && Foot(fs[0]) !! Feet(fs[1..]) && Ready(fs[1..])
    ensures Ready(fs)
  {
  }

  lemma FeedsHead(fs: seq<Feed>)
    requires fs != []
    ensures FeedsRest(fs) == FeedRest(fs[0]) + FeedsRest(fs[1..])
  {
  }

  method ReadFeed(f: Feed, max: nat) returns (r: Result<seq<byte>>)
    requires FeedOk(f)
    modifies Foot(f)
    ensures r.Ok? && FeedOk(f) && |r.value| <= max && old(FeedRest(f)) == r.value + FeedRest(f)
    ensures r.value == [] && max > 0 ==> FeedRest(f) == []
  {
    match f
    case Plain(src) =>
      var got := src.Read(max);
      r := Ok(got);
    case Kept(sel) =>
      r := sel.Read(max);
  }
}
