/** Edits of a container whose data section was changed after it was opened. */
module TamperedEdits {
  import opened Base
  import opened Aead
  import opened Stream
  import opened Container
  import opened Segments
  import opened ContainerEdits

  /** Emitting the whole of a non-empty plaintext takes its last chunk, which opens only at
      the end of the stream. */
  lemma {:induction false} AllMeansEnd(d: Domain, p: seq<byte>, ct: Ct, j: nat)
    requires Admissible(d) && NumChunks(|p|, d.size) <= U32_MAX + 1
    requires j < NumChunks(|p|, d.size) && j * d.size < |p|
    requires HonestTags(d, ct, SealFrom(d, p, 0))
    ensures |DecryptFrom(d, ct, j).emitted| >= |p| - j * d.size ==> DecryptFrom(d, ct, j).ok
    decreases |ct|
  {
    hide SealFrom, Open, Seal, Nonce, NumChunks;
    LastChunk(|p|, d.size, j);
    if |ct| > d.size + TAG_LEN && j < U32_MAX {
      var first := ct[..d.size + TAG_LEN];
      var o := Open(d.cipher, Nonce(d.prefix, j, false), d.aad, first);
      if o.Some? {
        OpenedChunkIsHonest(d, p, first, j, false);
        assert (j + 1) * d.size == j * d.size + d.size;
        AllMeansEnd(d, p, ct[d.size + TAG_LEN..], j + 1);
      }
    }
  }

  /** Of a changed stream at least one byte is missing; an empty one has none to miss. */
  lemma AllOrLess(d: Domain, p: seq<byte>, ct: Ct)
    requires Admissible(d) && NumChunks(|p|, d.size) <= U32_MAX + 1 && HonestTags(d, ct, SealFrom(d, p, 0))
    ensures DecryptFrom(d, ct, 0).emitted <= p
    ensures |DecryptFrom(d, ct, 0).emitted| >= |p| <==> ct == SealFrom(d, p, 0) || p == []
  {
    hide SealFrom, DecryptFrom, NumChunks;
    StreamIntegrity(d, p, ct);
    if p != [] {
      assert 0 * d.size == 0;
      AllMeansEnd(d, p, ct, 0);
    }
  }

  /** What `SelectReader` delivers of the old data section `ct`. */
  function KeptOf(dom: Domain, ct: Ct, segs: seq<Segment>): Option<seq<byte>>
  {
    var plain := DecryptFrom(dom, ct, 0).emitted;
    if SegTotal(segs) <= |plain| then Some(Select(plain, segs)) else None
  }

  /** The data section a removal or a replacement writes: what is kept, then the new file. */
  function EditData(dom: Domain, ct: Ct, segs: seq<Segment>, added: seq<byte>, out: Domain, total: nat): Result<Ct>
    requires out.size > 0
  {
    match KeptOf(dom, ct, segs)
    case None => Err(Auth)
    case Some(kept) => WriteData(out, total, kept + added)
  }

  /** The data section an append writes: all of the old data, then the new files. */
  function AppendData(dom: Domain, ct: Ct, added: seq<byte>, out: Domain, total: nat): Result<Ct>
    requires out.size > 0
  {
    var before := DecryptFrom(dom, ct, 0);
    if before.ok then WriteData(out, total, before.emitted + added) else Err(Auth)
  }

  /** A removal or replacement whose old data was changed in any way fails, whichever rows it
      keeps; otherwise it writes what `RemovePreserves` and `ReplacePreserves` speak of. An
      empty data section is never read. */
  lemma EditOfTampered(es: Layout, keep: seq<bool>, d: seq<byte>, dom: Domain, ct: Ct, added: seq<byte>, out: Domain,
                       total: nat)
    requires |keep| == |es| && Genuine(es, d) && Admissible(dom) && NumChunks(|d|, dom.size) <= U32_MAX + 1 &&
             out.size > 0
    requires HonestTags(dom, ct, SealFrom(dom, d, 0))
    ensures var segs := SegmentsOf(es, keep);
            EditData(dom, ct, segs, added, out, total) ==
            if ct == SealFrom(dom, d, 0) || d == [] then WriteData(out, total, Select(d, segs) + added) else Err(Auth)
  {
    hide Select, SegTotal, SegmentsOf, Survivors, Items, Contiguous, Total, DecryptFrom, SealFrom, NumChunks, WriteData;
    AllOrLess(dom, d, ct);
    SelectKeeps(es, keep, d);
    hide Genuine, HonestTags;
    var plain := DecryptFrom(dom, ct, 0).emitted;
    assert |plain| >= |d| ==> plain == d;
  }

  lemma AppendOfTampered(d: seq<byte>, dom: Domain, ct: Ct, added: seq<byte>, out: Domain, total: nat)
    requires Admissible(dom) && NumChunks(|d|, dom.size) <= U32_MAX + 1 && out.size > 0
    requires HonestTags(dom, ct, SealFrom(dom, d, 0))
    ensures AppendData(dom, ct, added, out, total) ==
            if ct == SealFrom(dom, d, 0) then WriteData(out, total, d + added) else Err(Auth)
  {
    StreamIntegrity(dom, d, ct);
    hide DecryptFrom, SealFrom, NumChunks, WriteData;
  }
}
