/** The PAC routines as the code runs them, writing byte buffers in place (internal/kdc/pac.go). */
module PacWriter {
  import opened Bytes
  import opened Pac
  import opened PacSigning

  /** Writes `data` over `a` at position `at` and touches nothing else. */
  method CopyInto(a: array<byte>, at: nat, data: bytes)
    requires at + |data| <= a.Length
    modifies a
    ensures a[..] == Patch(old(a[..]), at, data)
  {
    for i := 0 to |data|
      invariant a[..] == Patch(old(a[..]), at, data[..i])
    {
      a[at + i] := data[i];
    }
    assert data[..|data|] == data;
  }

  /** The offsets of the first `n` buffers. */
  function Offsets(bs: seq<Buffer>, n: nat): (r: seq<nat>)
    requires n <= |bs|
    ensures |r| == n && forall i | 0 <= i < n :: r[i] == Offset(bs, i)
  {
    if n == 0 then [] else Offsets(bs, n - 1) + [Offset(bs, n - 1)]
  }

  method PlaceBuffers(bs: seq<Buffer>) returns (offsets: seq<nat>, total: nat)
    ensures total == Offset(bs, |bs|) && offsets == Offsets(bs, |bs|)
  {
    total := Align8(HEADER_LEN + DESCRIPTOR_LEN * |bs|);
    offsets := [];
    for i := 0 to |bs|
      invariant total == Offset(bs, i) && offsets == Offsets(bs, i)
    {
      offsets := offsets + [total];
      total := Align8(total + |bs[i].data|);
    }
  }

  /** Writes the descriptor and the data of one buffer. */
  method WriteBuffer(out: array<byte>, bs: seq<Buffer>, i: nat, offset: nat)
    requires i < |bs| && offset == Offset(bs, i) && out[..] == Filled(bs, i)
    modifies out
    ensures out[..] == Filled(bs, i + 1)
  {
    OffsetsGrow(bs, i, |bs|);
    CopyInto(out, DescriptorAt(i), Descriptor(bs[i], offset));
    CopyInto(out, offset, bs[i].data);
  }

  /** Lays out header, descriptors and buffers, each buffer padded to a multiple of eight. */
  method AssemblePac(bs: seq<Buffer>) returns (out: array<byte>, offsets: seq<nat>)
    ensures fresh(out) && out[..] == Assembled(bs)
    ensures |offsets| == |bs| && forall i | 0 <= i < |bs| :: offsets[i] == Offset(bs, i)
  {
    var total;
    offsets, total := PlaceBuffers(bs);
    out := new byte[total](_ => 0);
    assert out[..] == Zeros(total);
    CopyInto(out, 0, Le(|bs|, 4) + Le(0, 4));
    for i := 0 to |bs|
      invariant out[..] == Filled(bs, i)
    {
      WriteBuffer(out, bs, i, offsets[i]);
    }
  }

  method Sign(c: Crypto, blob: array<byte>, serverKey: SigKey, kdcKey: SigKey, serverAt: nat, kdcAt: nat)
    requires c.Valid()
    requires serverAt + c.size(serverKey.etype) <= blob.Length && kdcAt + c.size(kdcKey.etype) <= blob.Length
    modifies blob
    ensures blob[..] == Stamped(c, old(blob[..]), serverKey, kdcKey, serverAt, kdcAt)
  {
    var serverSum := c.Checksum(serverKey, blob[..]);
    CopyInto(blob, serverAt, serverSum);
    var kdcSum := c.Checksum(kdcKey, serverSum);
    CopyInto(blob, kdcAt, kdcSum);
  }

  method SignLayout(c: Crypto, bs: seq<Buffer>, serverKey: SigKey, kdcKey: SigKey) returns (blob: array<byte>)
    requires c.Valid() && |bs| >= 2
    requires |bs[|bs| - 2].data| == 4 + c.size(serverKey.etype) && |bs[|bs| - 1].data| == 4 + c.size(kdcKey.etype)
    ensures fresh(blob) && blob[..] == SignedLayout(c, bs, serverKey, kdcKey)
  {
    var offsets;
    blob, offsets := AssemblePac(bs);
    OffsetsGrow(bs, |bs| - 2, |bs|);
    OffsetsGrow(bs, |bs| - 1, |bs|);
    Sign(c, blob, serverKey, kdcKey, offsets[|offsets| - 2] + 4, offsets[|offsets| - 1] + 4);
  }

  method BuildPac(c: Crypto, infos: seq<Buffer>, serverKey: SigKey, kdcKey: SigKey) returns (out: Option<array<byte>>)
    requires c.Valid()
    ensures out.Some? <==> Built(c, infos, serverKey, kdcKey).Some?
    ensures out.Some? ==> fresh(out.value) && out.value[..] == Built(c, infos, serverKey, kdcKey).value
  {
    var server, kdc := EmptySignature(c, serverKey), EmptySignature(c, kdcKey);
    if server.None? || kdc.None? {
      return None;
    }
    var blob := SignLayout(c, WithSignatures(infos, server.value, kdc.value), serverKey, kdcKey);
    out := Some(blob);
  }

  /** Scans the descriptors: every one must lie inside the PAC, and the last of each signature kind counts. */
  method FindSignatures(blob: bytes) returns (ok: bool, s: Place, k: Place)
    ensures ok == Signed(blob)
    ensures ok ==> s == ServerSig(blob) && k == KdcSig(blob)
  {
    s, k := Place(SERVER_CHECKSUM, 0, 0), Place(KDC_CHECKSUM, 0, 0);
    if |blob| < HEADER_LEN || |blob| < DescriptorAt(Count(blob)) {
      return false, s, k;
    }
    for i := 0 to Count(blob)
      invariant forall j: nat | j < i :: Bounds(PlaceAt(blob, j), |blob|).Some?
      invariant s == LastOf(blob, SERVER_CHECKSUM, i) && k == LastOf(blob, KDC_CHECKSUM, i)
    {
      var p := PlaceAt(blob, i);
      if Bounds(p, |blob|).None? {
        return false, s, k;
      }
      if p.kind == SERVER_CHECKSUM {
        s := p;
      } else if p.kind == KDC_CHECKSUM {
        k := p;
      }
    }
    LastOfIsInside(blob, SERVER_CHECKSUM, Count(blob));
    LastOfIsInside(blob, KDC_CHECKSUM, Count(blob));
    ok := s.size >= 4 && k.size >= 4;
  }

  method ResignPac(c: Crypto, blob: bytes, serverKey: SigKey, kdcKey: SigKey) returns (out: Option<array<byte>>)
    requires c.Valid()
    ensures out.Some? <==> Resigned(c, blob, serverKey, kdcKey).Some?
    ensures out.Some? ==> fresh(out.value) && out.value[..] == Resigned(c, blob, serverKey, kdcKey).value
  {
    var ok, s, k := FindSignatures(blob);
    if !ok {
      return None;
    }
    var server, kdc := EmptySignature(c, serverKey), EmptySignature(c, kdcKey);
    if server.None? || kdc.None? || |server.value| != s.size || |kdc.value| != k.size {
      return None;
    }
    var a := new byte[|blob|](i requires 0 <= i < |blob| => blob[i]);
    assert a[..] == blob;
    CopyInto(a, s.offset, server.value);
    CopyInto(a, k.offset, kdc.value);
    Sign(c, a, serverKey, kdcKey, s.offset + 4, k.offset + 4);
    out := Some(a);
  }

  /** Checks that this KDC signed the PAC. */
  method VerifyKdcSignature(c: Crypto, blob: bytes, kdcKey: SigKey) returns (v: Verdict)
    ensures v == KdcVerdict(c, blob, kdcKey)
    ensures v == Accepted <==> KdcVerifies(c, blob, kdcKey)
  {
    var found, s, k := FindSignatures(blob);
    if !found {
      return Refused;
    }
    var etype := c.etypeOf(ReadLe(blob[k.offset..k.offset + 4]));
    if etype.None? {
      return Refused;
    }
    var want := c.sum(etype.value, kdcKey.value, blob[s.offset + 4..s.offset + s.size]);
    if k.offset + 4 + |want| > |blob| {
      return Panics;
    }
    v := if want == blob[k.offset + 4..k.offset + 4 + |want|] then Accepted else Refused;
  }
}
