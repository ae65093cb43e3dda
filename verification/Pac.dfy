/** The PAC: its layout, its two signatures, and re-signing one that another realm authored
    (internal/kdc/pac.go). */
module Pac {
  import opened Bytes

  datatype Option<+T> = None | Some(value: T)

  // ----- Layout -----

  datatype Buffer = Buffer(kind: nat, data: bytes)

  const HEADER_LEN: nat := 8
  const DESCRIPTOR_LEN: nat := 16
  const SERVER_CHECKSUM: nat := 6
  const KDC_CHECKSUM: nat := 7

  function Align8(n: nat): (r: nat)
    ensures r % 8 == 0 && n <= r < n + 8
  {
    if n % 8 != 0 then n + (8 - n % 8) else n
  }

  /** Where buffer `i` is placed; for `i` past the last buffer, the length of the whole PAC. */
  function Offset(bs: seq<Buffer>, i: nat): (at: nat)
    requires i <= |bs|
    ensures at % 8 == 0 && at >= HEADER_LEN + DESCRIPTOR_LEN * |bs|
  {
    if i == 0 then Align8(HEADER_LEN + DESCRIPTOR_LEN * |bs|)
    else Align8(Offset(bs, i - 1) + |bs[i - 1].data|)
  }

  /** `b` with `data` written over it at position `at`. */
  function Patch(b: bytes, at: nat, data: bytes): (r: bytes)
    requires at + |data| <= |b|
    ensures |r| == |b|
  {
    seq(|b|, i requires 0 <= i < |b| => if at <= i < at + |data| then data[i - at] else b[i])
  }

  function Zeros(n: nat): (b: bytes)
    ensures |b| == n
  {
    seq(n, _ => 0)
  }

  function Descriptor(b: Buffer, offset: nat): (d: bytes)
    ensures |d| == DESCRIPTOR_LEN
  {
    Le(b.kind, 4) + Le(|b.data|, 4) + Le(offset, 8)
  }

  function DescriptorAt(i: nat): nat {
    HEADER_LEN + DESCRIPTOR_LEN * i
  }

  /** Every buffer ends before the next one starts, and the descriptors before all of them. */
  lemma {:induction false} OffsetsGrow(bs: seq<Buffer>, i: nat, j: nat)
    requires i < j <= |bs|
    ensures Offset(bs, i) + |bs[i].data| <= Offset(bs, j)
    decreases j
  {
    if i < j - 1 { OffsetsGrow(bs, i, j - 1); }
  }

  /** The PAC after the header and the first `k` descriptors and buffers were written. */
  function Filled(bs: seq<Buffer>, k: nat): (b: bytes)
    requires k <= |bs|
    ensures |b| == Offset(bs, |bs|)
    decreases k
  {
    if k == 0 then Patch(Zeros(Offset(bs, |bs|)), 0, Le(|bs|, 4) + Le(0, 4))
    else
      OffsetsGrow(bs, k - 1, |bs|);
      assert DescriptorAt(k - 1) + DESCRIPTOR_LEN <= Offset(bs, |bs|);
      Patch(Patch(Filled(bs, k - 1), DescriptorAt(k - 1), Descriptor(bs[k - 1], Offset(bs, k - 1))),
            Offset(bs, k - 1), bs[k - 1].data)
  }

  function Assembled(bs: seq<Buffer>): bytes {
    Filled(bs, |bs|)
  }

  // ----- Reading -----

  datatype Place = Place(kind: nat, size: nat, offset: nat)

  function ReadPlace(d: bytes): Place
    requires |d| == DESCRIPTOR_LEN
  {
    Place(ReadLe(d[..4]), ReadLe(d[4..8]), ReadLe(d[8..]))
  }

  function Count(blob: bytes): nat
    requires |blob| >= 4
  {
    ReadLe(blob[..4])
  }

  /** The descriptor table fits in the blob. */
  predicate HasTable(blob: bytes) {
    |blob| >= HEADER_LEN && |blob| >= DescriptorAt(Count(blob))
  }

  function PlaceAt(blob: bytes, i: nat): Place
    requires HasTable(blob) && i < Count(blob)
  {
    ReadPlace(blob[DescriptorAt(i)..DescriptorAt(i) + DESCRIPTOR_LEN])
  }

  /** The stretch of the blob a descriptor points at, if it lies inside. */
  function Bounds(p: Place, total: nat): (r: Option<(nat, nat)>)
    ensures r.Some? <==> p.offset + p.size <= total
    ensures r.Some? ==> r.value == (p.offset, p.offset + p.size)
  {
    if p.offset > total || p.size > total - p.offset then None else Some((p.offset, p.offset + p.size))
  }

  predicate AllInside(blob: bytes)
    requires HasTable(blob)
  {
    forall i: nat | i < Count(blob) :: Bounds(PlaceAt(blob, i), |blob|).Some?
  }

  /** The last of the first `n` descriptors of a kind; a PAC without one points at nothing. */
  function LastOf(blob: bytes, kind: nat, n: nat): Place
    requires HasTable(blob) && n <= Count(blob)
  {
    if n == 0 then Place(kind, 0, 0)
    else if PlaceAt(blob, n - 1).kind == kind then PlaceAt(blob, n - 1)
    else LastOf(blob, kind, n - 1)
  }

  /** A stretch inside the blob with room for a checksum type. */
  predicate Inside(p: Place, blob: bytes) {
    4 <= p.size && p.offset + p.size <= |blob|
  }

  /** A PAC whose buffers all lie inside it and which carries both signatures. */
  predicate Signed(blob: bytes) {
    HasTable(blob) && AllInside(blob) && Inside(ServerSig(blob), blob) && Inside(KdcSig(blob), blob)
  }

  function ServerSig(blob: bytes): Place
    requires HasTable(blob)
  {
    LastOf(blob, SERVER_CHECKSUM, Count(blob))
  }

  function KdcSig(blob: bytes): Place
    requires HasTable(blob)
  {
    LastOf(blob, KDC_CHECKSUM, Count(blob))
  }

  lemma {:induction false} LastOfIsInside(blob: bytes, kind: nat, n: nat)
    requires HasTable(blob) && AllInside(blob) && n <= Count(blob)
    ensures LastOf(blob, kind, n).offset + LastOf(blob, kind, n).size <= |blob|
  {
    if n > 0 && PlaceAt(blob, n - 1).kind != kind { LastOfIsInside(blob, kind, n - 1); }
  }

  // ----- Reading back what was laid out -----

  /** The numbers of a layout fit the widths of their fields. */
  predicate InWidth(bs: seq<Buffer>) {
    && |bs| < 0x1_0000_0000 && Offset(bs, |bs|) < 0x1_0000_0000_0000_0000
    && forall b <- bs :: b.kind < 0x1_0000_0000 && |b.data| < 0x1_0000_0000
  }

  /** A descriptor and its data stand at two places of a blob. */
  predicate Stands(blob: bytes, dAt: nat, d: bytes, at: nat, data: bytes)
    requires dAt + |d| <= |blob| && at + |data| <= |blob|
  {
    blob[dAt..dAt + |d|] == d && blob[at..at + |data|] == data
  }

  /** Descriptor and data of buffer `i` stand where the layout puts them. */
  predicate Holds(blob: bytes, bs: seq<Buffer>, i: nat)
    requires i < |bs| && |blob| == Offset(bs, |bs|)
  {
    OffsetsGrow(bs, i, |bs|);
    Stands(blob, DescriptorAt(i), Descriptor(bs[i], Offset(bs, i)), Offset(bs, i), bs[i].data)
  }

  lemma PatchElsewhere(b: bytes, at: nat, data: bytes, from: nat, to: nat)
    requires at + |data| <= |b| && from <= to <= |b|
    requires to <= at || at + |data| <= from
    ensures Patch(b, at, data)[from..to] == b[from..to]
  {
  }

  lemma PatchThere(b: bytes, at: nat, data: bytes)
    requires at + |data| <= |b|
    ensures Patch(b, at, data)[at..at + |data|] == data
  {
  }

  /** Two stretches that do not meet. */
  predicate Apart(at: nat, len: nat, from: nat, size: nat) {
    from + size <= at || at + len <= from
  }

  /** Two patches leave a stretch clear of both as it was. */
  lemma TwoPatchesElsewhere(b: bytes, at: nat, data: bytes, at': nat, data': bytes, from: nat, size: nat)
    requires at + |data| <= |b| && at' + |data'| <= |b| && from + size <= |b|
    requires Apart(at, |data|, from, size) && Apart(at', |data'|, from, size)
    ensures Patch(Patch(b, at, data), at', data')[from..from + size] == b[from..from + size]
  {
    PatchElsewhere(b, at, data, from, from + size);
    PatchElsewhere(Patch(b, at, data), at', data', from, from + size);
  }

  lemma JustFilled(bs: seq<Buffer>, k: nat)
    requires 0 < k <= |bs|
    ensures Holds(Filled(bs, k), bs, k - 1)
  {
    var j := k - 1;
    OffsetsGrow(bs, j, |bs|);
    var d := Descriptor(bs[j], Offset(bs, j));
    var mid := Patch(Filled(bs, j), DescriptorAt(j), d);
    PatchThere(Filled(bs, j), DescriptorAt(j), d);
    PatchElsewhere(mid, Offset(bs, j), bs[j].data, DescriptorAt(j), DescriptorAt(j) + DESCRIPTOR_LEN);
    PatchThere(mid, Offset(bs, j), bs[j].data);
  }

  /** The places of buffer `j` are clear of those of an earlier one. */
  lemma PlacesApart(bs: seq<Buffer>, i: nat, j: nat)
    requires i < j < |bs|
    ensures Offset(bs, i) + |bs[i].data| <= Offset(bs, |bs|) && Offset(bs, j) + |bs[j].data| <= Offset(bs, |bs|)
    ensures Offset(bs, i) + |bs[i].data| <= Offset(bs, j)
    ensures DescriptorAt(i) + DESCRIPTOR_LEN <= DescriptorAt(j) && DescriptorAt(j) + DESCRIPTOR_LEN <= Offset(bs, i)
  {
    OffsetsGrow(bs, i, |bs|);
    OffsetsGrow(bs, i, j);
    OffsetsGrow(bs, j, |bs|);
  }

  /** Writing a later buffer leaves an earlier one alone. */
  lemma StillStands(blob: bytes, dAt: nat, d: bytes, at: nat, data: bytes, dAt': nat, d': bytes, at': nat, data': bytes)
    requires dAt + |d| <= dAt' && dAt' + |d'| <= at && at + |data| <= at' && at' + |data'| <= |blob|
    requires Stands(blob, dAt, d, at, data)
    ensures Stands(Patch(Patch(blob, dAt', d'), at', data'), dAt, d, at, data)
  {
    TwoPatchesElsewhere(blob, dAt', d', at', data', dAt, |d|);
    TwoPatchesElsewhere(blob, dAt', d', at', data', at, |data|);
  }

  lemma StillFilled(bs: seq<Buffer>, k: nat, i: nat)
    requires i + 1 < k <= |bs| && Holds(Filled(bs, k - 1), bs, i)
    ensures Holds(Filled(bs, k), bs, i)
  {
    PlacesApart(bs, i, k - 1);
    StillStands(Filled(bs, k - 1), DescriptorAt(i), Descriptor(bs[i], Offset(bs, i)), Offset(bs, i), bs[i].data,
                DescriptorAt(k - 1), Descriptor(bs[k - 1], Offset(bs, k - 1)), Offset(bs, k - 1), bs[k - 1].data);
  }

  /** What was written for buffer `i` survives the writing of the ones after it. */
  lemma {:induction false} FilledHolds(bs: seq<Buffer>, i: nat, k: nat)
    requires i < k <= |bs|
    ensures Holds(Filled(bs, k), bs, i)
    decreases k
  {
    if i == k - 1 {
      JustFilled(bs, k);
    } else {
      FilledHolds(bs, i, k - 1);
      StillFilled(bs, k, i);
    }
  }

  lemma {:induction false} FilledHeader(bs: seq<Buffer>, k: nat)
    requires k <= |bs|
    ensures Filled(bs, k)[..4] == Le(|bs|, 4)
    decreases k
  {
    if k == 0 {
      PatchThere(Zeros(Offset(bs, |bs|)), 0, Le(|bs|, 4) + Le(0, 4));
      assert Filled(bs, 0)[..4] == Filled(bs, 0)[0..8][..4];
    } else {
      FilledHeader(bs, k - 1);
      OffsetsGrow(bs, k - 1, |bs|);
      var mid := Patch(Filled(bs, k - 1), DescriptorAt(k - 1), Descriptor(bs[k - 1], Offset(bs, k - 1)));
      PatchElsewhere(mid, Offset(bs, k - 1), bs[k - 1].data, 0, 4);
      PatchElsewhere(Filled(bs, k - 1), DescriptorAt(k - 1), Descriptor(bs[k - 1], Offset(bs, k - 1)), 0, 4);
    }
  }

  lemma DescriptorReadsBack(b: Buffer, offset: nat)
    requires b.kind < 0x1_0000_0000 && |b.data| < 0x1_0000_0000 && offset < 0x1_0000_0000_0000_0000
    ensures ReadPlace(Descriptor(b, offset)) == Place(b.kind, |b.data|, offset)
  {
    var d := Descriptor(b, offset);
    Le4(b.kind);
    Le4(|b.data|);
    Le8(offset);
    assert d[..4] == Le(b.kind, 4) && d[4..8] == Le(|b.data|, 4) && d[8..] == Le(offset, 8);
  }

  lemma CountOf(blob: bytes, n: nat)
    requires n < 0x1_0000_0000 && |blob| >= DescriptorAt(n) && blob[..4] == Le(n, 4)
    ensures HasTable(blob) && Count(blob) == n
  {
    Le4(n);
  }

  lemma CountReadsBack(bs: seq<Buffer>)
    requires |bs| < 0x1_0000_0000
    ensures HasTable(Assembled(bs)) && Count(Assembled(bs)) == |bs|
  {
    FilledHeader(bs, |bs|);
    CountOf(Assembled(bs), |bs|);
  }

  lemma AssembledHolds(bs: seq<Buffer>, i: nat)
    requires i < |bs|
    ensures Holds(Assembled(bs), bs, i)
  {
    FilledHolds(bs, i, |bs|);
  }

  lemma PlaceOf(blob: bytes, i: nat, b: Buffer, offset: nat)
    requires HasTable(blob) && i < Count(blob)
    requires blob[DescriptorAt(i)..DescriptorAt(i) + DESCRIPTOR_LEN] == Descriptor(b, offset)
    requires b.kind < 0x1_0000_0000 && |b.data| < 0x1_0000_0000 && offset < 0x1_0000_0000_0000_0000
    ensures PlaceAt(blob, i) == Place(b.kind, |b.data|, offset)
  {
    DescriptorReadsBack(b, offset);
  }

  lemma PlaceReadsBack(bs: seq<Buffer>, i: nat)
    requires InWidth(bs) && i < |bs|
    ensures HasTable(Assembled(bs)) && Count(Assembled(bs)) == |bs|
    ensures PlaceAt(Assembled(bs), i) == Place(bs[i].kind, |bs[i].data|, Offset(bs, i))
  {
    CountReadsBack(bs);
    AssembledHolds(bs, i);
    OffsetsGrow(bs, i, |bs|);
    PlaceOf(Assembled(bs), i, bs[i], Offset(bs, i));
  }

  /** Buffers stand in order, each clear of all those after it. */
  lemma BuffersApart(bs: seq<Buffer>, i: nat)
    requires i < |bs|
    ensures Offset(bs, i) + |bs[i].data| <= |Assembled(bs)|
    ensures forall j | i < j < |bs| :: Offset(bs, i) + |bs[i].data| <= Offset(bs, j)
  {
    OffsetsGrow(bs, i, |bs|);
    forall j | i < j < |bs| ensures Offset(bs, i) + |bs[i].data| <= Offset(bs, j) { OffsetsGrow(bs, i, j); }
  }

  /** Reading the descriptors of an assembled PAC gives every buffer back: aligned, inside the blob,
      past the descriptor table and clear of every other buffer. */
  lemma AssembledReadsBack(bs: seq<Buffer>, i: nat)
    requires InWidth(bs) && i < |bs|
    ensures var blob := Assembled(bs);
            && HasTable(blob) && Count(blob) == |bs|
            && PlaceAt(blob, i) == Place(bs[i].kind, |bs[i].data|, Offset(bs, i))
            && Offset(bs, i) + |bs[i].data| <= |blob|
            && blob[Offset(bs, i)..Offset(bs, i) + |bs[i].data|] == bs[i].data
            && Offset(bs, i) % 8 == 0 && Offset(bs, i) >= DescriptorAt(|bs|)
    ensures forall j | i < j < |bs| :: Offset(bs, i) + |bs[i].data| <= Offset(bs, j)
  {
    PlaceReadsBack(bs, i);
    AssembledHolds(bs, i);
    BuffersApart(bs, i);
  }
}
