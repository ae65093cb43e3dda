/** The two signatures of a PAC, section 2.8 of MS-PAC: the server's over the whole PAC with both
    signature values zeroed, and the KDC's over the server's. */
module PacSigning {
  import opened Bytes
  import opened Pac

  datatype SigKey = SigKey(etype: int, value: bytes)

  /** The keyed checksums of the crypto library: the checksum type an enctype signs with and the way
      back, the length of its checksums, and the checksum itself. */
  datatype Crypto = Crypto(
    hashId: int -> Option<nat>, etypeOf: nat -> Option<int>, size: int -> nat, sum: (int, bytes, bytes) -> bytes)
  {
    ghost predicate Valid() {
      && (forall e: int :: hashId(e).Some? ==> hashId(e).value < 0x1_0000_0000 && etypeOf(hashId(e).value) == Some(e))
      && (forall e: int, k: bytes, d: bytes :: |sum(e, k, d)| == size(e))
    }

    /** No two checksum types lead to one enctype, and every checksum has a value. */
    ghost predicate Exact() {
      && (forall id: nat :: etypeOf(id).Some? ==> hashId(etypeOf(id).value) == Some(id))
      && (forall e: int :: size(e) > 0)
    }

    function Checksum(k: SigKey, data: bytes): bytes {
      sum(k.etype, k.value, data)
    }
  }

  /** A signature buffer: the checksum type and room for the value, zeroed. */
  function EmptySignature(c: Crypto, k: SigKey): Option<bytes> {
    match c.hashId(k.etype)
    case None => None
    case Some(id) => Some(Le(id, 4) + Zeros(c.size(k.etype)))
  }

  /** Both signature values zeroed. */
  function Blanked(blob: bytes, s: Place, k: Place): bytes
    requires Inside(s, blob) && Inside(k, blob)
  {
    Patch(Patch(blob, s.offset + 4, Zeros(s.size - 4)), k.offset + 4, Zeros(k.size - 4))
  }

  function Value(blob: bytes, p: Place): bytes
    requires Inside(p, blob)
  {
    blob[p.offset + 4..p.offset + p.size]
  }

  /** The enctype a signature buffer names. */
  function Named(c: Crypto, blob: bytes, p: Place): Option<int>
    requires Inside(p, blob)
  {
    c.etypeOf(ReadLe(blob[p.offset..p.offset + 4]))
  }

  /** The signature at `s`, made with the enctype it names, covers the PAC with both values zeroed. */
  predicate ServerCovers(c: Crypto, blob: bytes, key: SigKey, s: Place, k: Place)
    requires Inside(s, blob) && Inside(k, blob)
  {
    match Named(c, blob, s)
    case None => false
    case Some(etype) => c.sum(etype, key.value, Blanked(blob, s, k)) == Value(blob, s)
  }

  /** What the check of the KDC signature comes to; the code slices the buffer by the length of the
      checksum, and panics when that runs past the end of the PAC. */
  datatype Verdict = Accepted | Refused | Panics

  /** The signature at `k`, checked with the enctype it names against the one at `s`. */
  function KdcCheck(c: Crypto, blob: bytes, key: SigKey, s: Place, k: Place): Verdict
    requires Inside(s, blob) && Inside(k, blob)
  {
    match Named(c, blob, k)
    case None => Refused
    case Some(etype) =>
      var want := c.sum(etype, key.value, Value(blob, s));
      if k.offset + 4 + |want| > |blob| then Panics
      else if want == blob[k.offset + 4..k.offset + 4 + |want|] then Accepted
      else Refused
  }

  predicate KdcCovers(c: Crypto, blob: bytes, key: SigKey, s: Place, k: Place)
    requires Inside(s, blob) && Inside(k, blob)
  {
    KdcCheck(c, blob, key, s, k) == Accepted
  }

  function KdcVerdict(c: Crypto, blob: bytes, key: SigKey): Verdict {
    if !Signed(blob) then Refused else KdcCheck(c, blob, key, ServerSig(blob), KdcSig(blob))
  }

  /** The check panics exactly when the KDC signature names an enctype whose checksum does not fit between
      the start of its value and the end of the PAC; a buffer with room for it rules that out. */
  lemma PanicsIff(c: Crypto, blob: bytes, key: SigKey)
    requires c.Valid()
    ensures KdcVerdict(c, blob, key) == Panics <==>
            && Signed(blob) && Named(c, blob, KdcSig(blob)).Some?
            && KdcSig(blob).offset + 4 + c.size(Named(c, blob, KdcSig(blob)).value) > |blob|
    ensures KdcVerdict(c, blob, key) == Panics ==> KdcSig(blob).size < 4 + c.size(Named(c, blob, KdcSig(blob)).value)
    ensures KdcVerdict(c, blob, key) == Accepted <==> KdcVerifies(c, blob, key)
  {
  }

  /** What a service checks. */
  predicate ServerVerifies(c: Crypto, blob: bytes, key: SigKey) {
    Signed(blob) && ServerCovers(c, blob, key, ServerSig(blob), KdcSig(blob))
  }

  /** What the KDC checks on a PAC handed back to it. */
  predicate KdcVerifies(c: Crypto, blob: bytes, key: SigKey) {
    Signed(blob) && KdcCovers(c, blob, key, ServerSig(blob), KdcSig(blob))
  }

  /** Signs a PAC whose signature values are zeroed and stand at the two positions. */
  function Stamped(c: Crypto, blob: bytes, serverKey: SigKey, kdcKey: SigKey, serverAt: nat, kdcAt: nat): bytes
    requires serverAt + |c.Checksum(serverKey, blob)| <= |blob|
    requires kdcAt + |c.Checksum(kdcKey, c.Checksum(serverKey, blob))| <= |blob|
  {
    var serverSum := c.Checksum(serverKey, blob);
    Patch(Patch(blob, serverAt, serverSum), kdcAt, c.Checksum(kdcKey, serverSum))
  }

  lemma SameSlice(a: bytes, b: bytes, t: nat, from: nat, to: nat)
    requires t <= |a| && t <= |b| && a[..t] == b[..t] && from <= to <= t
    ensures a[from..to] == b[from..to]
  {
    assert a[from..to] == a[..t][from..to];
    assert b[from..to] == b[..t][from..to];
  }

  lemma {:induction false} SameTable(a: bytes, b: bytes, kind: nat, n: nat)
    requires HasTable(a) && |a| == |b| && n <= Count(a)
    requires a[..DescriptorAt(Count(a))] == b[..DescriptorAt(Count(a))]
    ensures HasTable(b) && Count(b) == Count(a)
    ensures LastOf(b, kind, n) == LastOf(a, kind, n)
    ensures forall i: nat | i < n :: PlaceAt(b, i) == PlaceAt(a, i)
    decreases n
  {
    var t := DescriptorAt(Count(a));
    SameSlice(a, b, t, 0, 4);
    if n > 0 {
      SameTable(a, b, kind, n - 1);
      SameSlice(a, b, t, DescriptorAt(n - 1), DescriptorAt(n - 1) + DESCRIPTOR_LEN);
    }
  }

  lemma SameSignatures(a: bytes, b: bytes)
    requires Signed(a) && |a| == |b|
    requires a[..DescriptorAt(Count(a))] == b[..DescriptorAt(Count(a))]
    ensures Signed(b) && ServerSig(b) == ServerSig(a) && KdcSig(b) == KdcSig(a) && Count(b) == Count(a)
  {
    SameTable(a, b, SERVER_CHECKSUM, Count(a));
    SameTable(a, b, KDC_CHECKSUM, Count(a));
  }

  /** Two places clear of each other and of the descriptor table, with room for these keys' checksums. */
  predicate WellPlaced(c: Crypto, blob: bytes, s: Place, k: Place, serverKey: SigKey, kdcKey: SigKey, table: nat) {
    && table <= s.offset && table <= k.offset
    && Inside(s, blob) && Inside(k, blob) && Apart(s.offset, s.size, k.offset, k.size)
    && s.size == 4 + c.size(serverKey.etype) && k.size == 4 + c.size(kdcKey.etype)
  }

  lemma BlankedAgain(blob: bytes, s: Place, k: Place, x: bytes, y: bytes)
    requires Inside(s, blob) && s.size == 4 + |x| && Inside(k, blob) && k.size == 4 + |y|
    ensures Blanked(Patch(Patch(blob, s.offset + 4, x), k.offset + 4, y), s, k) == Blanked(blob, s, k)
  {
  }

  lemma StampedParts(blob: bytes, s: Place, k: Place, x: bytes, y: bytes, table: nat)
    requires Inside(s, blob) && s.size == 4 + |x| && Inside(k, blob) && k.size == 4 + |y|
    requires Apart(s.offset, s.size, k.offset, k.size) && table <= s.offset && table <= k.offset
    ensures var out := Patch(Patch(blob, s.offset + 4, x), k.offset + 4, y);
            && out[..table] == blob[..table]
            && Value(out, s) == x && Value(out, k) == y
            && out[s.offset..s.offset + 4] == blob[s.offset..s.offset + 4]
            && out[k.offset..k.offset + 4] == blob[k.offset..k.offset + 4]
  {
    var mid := Patch(blob, s.offset + 4, x);
    TwoPatchesElsewhere(blob, s.offset + 4, x, k.offset + 4, y, 0, table);
    TwoPatchesElsewhere(blob, s.offset + 4, x, k.offset + 4, y, s.offset, 4);
    TwoPatchesElsewhere(blob, s.offset + 4, x, k.offset + 4, y, k.offset, 4);
    PatchThere(blob, s.offset + 4, x);
    PatchElsewhere(mid, k.offset + 4, y, s.offset + 4, s.offset + s.size);
    PatchThere(mid, k.offset + 4, y);
  }

  /** Signing at two places makes the signatures there cover what they should. */
  lemma StampedCovers(c: Crypto, blob: bytes, serverKey: SigKey, kdcKey: SigKey, s: Place, k: Place, table: nat)
    requires c.Valid() && WellPlaced(c, blob, s, k, serverKey, kdcKey, table)
    requires Blanked(blob, s, k) == blob
    requires Named(c, blob, s) == Some(serverKey.etype) && Named(c, blob, k) == Some(kdcKey.etype)
    ensures var out := Stamped(c, blob, serverKey, kdcKey, s.offset + 4, k.offset + 4);
            && |out| == |blob| && out[..table] == blob[..table]
            && ServerCovers(c, out, serverKey, s, k) && KdcCovers(c, out, kdcKey, s, k)
  {
    var x := c.Checksum(serverKey, blob);
    var y := c.Checksum(kdcKey, x);
    StampedParts(blob, s, k, x, y, table);
    BlankedAgain(blob, s, k, x, y);
  }

  /** A PAC laid out for these keys, with both signature values zeroed. */
  ghost predicate Ready(c: Crypto, blob: bytes, serverKey: SigKey, kdcKey: SigKey) {
    && c.Valid() && Signed(blob)
    && var s, k := ServerSig(blob), KdcSig(blob);
    && WellPlaced(c, blob, s, k, serverKey, kdcKey, DescriptorAt(Count(blob)))
    && Blanked(blob, s, k) == blob
    && Names(c, serverKey, blob[s.offset..s.offset + 4]) && Names(c, kdcKey, blob[k.offset..k.offset + 4])
  }

  /** The four bytes that say which checksum a key makes. */
  predicate Names(c: Crypto, key: SigKey, field: bytes) {
    c.hashId(key.etype).Some? && field == Le(c.hashId(key.etype).value, 4)
  }

  lemma NamesReadsBack(c: Crypto, key: SigKey, field: bytes)
    requires c.Valid() && Names(c, key, field)
    ensures c.etypeOf(ReadLe(field)) == Some(key.etype)
  {
    Le4(c.hashId(key.etype).value);
  }

  function Signing(c: Crypto, blob: bytes, serverKey: SigKey, kdcKey: SigKey): bytes
    requires c.Valid() && Signed(blob)
    requires ServerSig(blob).size == 4 + c.size(serverKey.etype) && KdcSig(blob).size == 4 + c.size(kdcKey.etype)
  {
    Stamped(c, blob, serverKey, kdcKey, ServerSig(blob).offset + 4, KdcSig(blob).offset + 4)
  }

  /** Signing makes both signatures verify. */
  lemma SigningVerifies(c: Crypto, blob: bytes, serverKey: SigKey, kdcKey: SigKey)
    requires Ready(c, blob, serverKey, kdcKey)
    ensures ServerVerifies(c, Signing(c, blob, serverKey, kdcKey), serverKey)
    ensures KdcVerifies(c, Signing(c, blob, serverKey, kdcKey), kdcKey)
  {
    var s, k := ServerSig(blob), KdcSig(blob);
    NamesReadsBack(c, serverKey, blob[s.offset..s.offset + 4]);
    NamesReadsBack(c, kdcKey, blob[k.offset..k.offset + 4]);
    StampedCovers(c, blob, serverKey, kdcKey, s, k, DescriptorAt(Count(blob)));
    SameSignatures(blob, Signing(c, blob, serverKey, kdcKey));
  }

  // ----- Building -----

  /** The information buffers of a PAC, followed by its two signatures. */
  function WithSignatures(infos: seq<Buffer>, server: bytes, kdc: bytes): seq<Buffer> {
    infos + [Buffer(SERVER_CHECKSUM, server), Buffer(KDC_CHECKSUM, kdc)]
  }

  lemma LastTwo(bs: seq<Buffer>)
    requires |bs| >= 2 && InWidth(bs)
    requires bs[|bs| - 2].kind == SERVER_CHECKSUM && bs[|bs| - 1].kind == KDC_CHECKSUM
    ensures HasTable(Assembled(bs)) && AllInside(Assembled(bs)) && Count(Assembled(bs)) == |bs|
    ensures ServerSig(Assembled(bs)) == Place(SERVER_CHECKSUM, |bs[|bs| - 2].data|, Offset(bs, |bs| - 2))
    ensures KdcSig(Assembled(bs)) == Place(KDC_CHECKSUM, |bs[|bs| - 1].data|, Offset(bs, |bs| - 1))
  {
    CountReadsBack(bs);
    AssembledReadsBack(bs, |bs| - 1);
    AssembledReadsBack(bs, |bs| - 2);
    forall i: nat | i < |bs| ensures Bounds(PlaceAt(Assembled(bs), i), |Assembled(bs)|).Some? {
      AssembledReadsBack(bs, i);
    }
    assert LastOf(Assembled(bs), SERVER_CHECKSUM, |bs|) == LastOf(Assembled(bs), SERVER_CHECKSUM, |bs| - 1);
  }

  /** A PAC with these buffers, signed with both keys at the last two. */
  function Built(c: Crypto, infos: seq<Buffer>, serverKey: SigKey, kdcKey: SigKey): Option<bytes>
    requires c.Valid()
  {
    match (EmptySignature(c, serverKey), EmptySignature(c, kdcKey))
    case (Some(server), Some(kdc)) =>
      Some(SignedLayout(c, WithSignatures(infos, server, kdc), serverKey, kdcKey))
    case _ => None
  }

  function SignedLayout(c: Crypto, bs: seq<Buffer>, serverKey: SigKey, kdcKey: SigKey): bytes
    requires c.Valid() && |bs| >= 2
    requires |bs[|bs| - 2].data| == 4 + c.size(serverKey.etype) && |bs[|bs| - 1].data| == 4 + c.size(kdcKey.etype)
  {
    OffsetsGrow(bs, |bs| - 2, |bs|);
    OffsetsGrow(bs, |bs| - 1, |bs|);
    Stamped(c, Assembled(bs), serverKey, kdcKey, Offset(bs, |bs| - 2) + 4, Offset(bs, |bs| - 1) + 4)
  }

  lemma EmptyIsBlank(blob: bytes, s: Place, k: Place, idS: bytes, idK: bytes)
    requires Inside(s, blob) && Inside(k, blob) && |idS| == |idK| == 4
    requires blob[s.offset..s.offset + s.size] == idS + Zeros(s.size - 4)
    requires blob[k.offset..k.offset + k.size] == idK + Zeros(k.size - 4)
    ensures Blanked(blob, s, k) == blob
    ensures blob[s.offset..s.offset + 4] == idS && blob[k.offset..k.offset + 4] == idK
  {
    forall i | 0 <= i < |blob| ensures Blanked(blob, s, k)[i] == blob[i] {
      if k.offset + 4 <= i < k.offset + k.size {
        assert blob[i] == blob[k.offset..k.offset + k.size][i - k.offset];
      } else if s.offset + 4 <= i < s.offset + s.size {
        assert blob[i] == blob[s.offset..s.offset + s.size][i - s.offset];
      }
    }
    assert blob[s.offset..s.offset + 4] == blob[s.offset..s.offset + s.size][..4];
    assert blob[k.offset..k.offset + 4] == blob[k.offset..k.offset + k.size][..4];
  }

  /** A blob whose two signature places hold empty signatures is ready to be signed. */
  lemma EmptyIsReady(c: Crypto, blob: bytes, serverKey: SigKey, kdcKey: SigKey, idS: bytes, idK: bytes)
    requires c.Valid() && HasTable(blob) && AllInside(blob) && Names(c, serverKey, idS) && Names(c, kdcKey, idK)
    requires WellPlaced(c, blob, ServerSig(blob), KdcSig(blob), serverKey, kdcKey, DescriptorAt(Count(blob)))
    requires var s := ServerSig(blob); blob[s.offset..s.offset + s.size] == idS + Zeros(s.size - 4)
    requires var k := KdcSig(blob); blob[k.offset..k.offset + k.size] == idK + Zeros(k.size - 4)
    ensures Ready(c, blob, serverKey, kdcKey)
  {
    EmptyIsBlank(blob, ServerSig(blob), KdcSig(blob), idS, idK);
  }

  lemma LayoutIsWellPlaced(c: Crypto, bs: seq<Buffer>, serverKey: SigKey, kdcKey: SigKey)
    requires |bs| >= 2 && InWidth(bs) && bs[|bs| - 2].kind == SERVER_CHECKSUM && bs[|bs| - 1].kind == KDC_CHECKSUM
    requires |bs[|bs| - 2].data| == 4 + c.size(serverKey.etype) && |bs[|bs| - 1].data| == 4 + c.size(kdcKey.etype)
    ensures HasTable(Assembled(bs))
    ensures WellPlaced(c, Assembled(bs), ServerSig(Assembled(bs)), KdcSig(Assembled(bs)), serverKey, kdcKey,
                       DescriptorAt(Count(Assembled(bs))))
  {
    LastTwo(bs);
    BuffersApart(bs, |bs| - 2);
    BuffersApart(bs, |bs| - 1);
  }

  lemma DataAt(bs: seq<Buffer>, i: nat, p: Place)
    requires InWidth(bs) && i < |bs| && p.offset == Offset(bs, i) && p.size == |bs[i].data|
    ensures p.offset + p.size <= |Assembled(bs)| && Assembled(bs)[p.offset..p.offset + p.size] == bs[i].data
  {
    AssembledReadsBack(bs, i);
  }

  lemma LayoutIsReady(c: Crypto, bs: seq<Buffer>, serverKey: SigKey, kdcKey: SigKey, idS: bytes, idK: bytes)
    requires c.Valid() && |bs| >= 2 && InWidth(bs) && Names(c, serverKey, idS) && Names(c, kdcKey, idK)
    requires bs[|bs| - 2] == Buffer(SERVER_CHECKSUM, idS + Zeros(c.size(serverKey.etype)))
    requires bs[|bs| - 1] == Buffer(KDC_CHECKSUM, idK + Zeros(c.size(kdcKey.etype)))
    ensures Ready(c, Assembled(bs), serverKey, kdcKey)
  {
    var blob := Assembled(bs);
    LastTwo(bs);
    LayoutIsWellPlaced(c, bs, serverKey, kdcKey);
    DataAt(bs, |bs| - 2, ServerSig(blob));
    DataAt(bs, |bs| - 1, KdcSig(blob));
    EmptyIsReady(c, blob, serverKey, kdcKey, idS, idK);
  }

  lemma SigningAt(c: Crypto, blob: bytes, serverKey: SigKey, kdcKey: SigKey, s: nat, k: nat)
    requires Ready(c, blob, serverKey, kdcKey) && s == ServerSig(blob).offset && k == KdcSig(blob).offset
    ensures s + 4 + c.size(serverKey.etype) <= |blob| && k + 4 + c.size(kdcKey.etype) <= |blob|
    ensures Signing(c, blob, serverKey, kdcKey) == Stamped(c, blob, serverKey, kdcKey, s + 4, k + 4)
  {
  }

  lemma LayoutIsSigned(c: Crypto, bs: seq<Buffer>, serverKey: SigKey, kdcKey: SigKey, idS: bytes, idK: bytes)
    requires c.Valid() && |bs| >= 2 && InWidth(bs) && Names(c, serverKey, idS) && Names(c, kdcKey, idK)
    requires bs[|bs| - 2] == Buffer(SERVER_CHECKSUM, idS + Zeros(c.size(serverKey.etype)))
    requires bs[|bs| - 1] == Buffer(KDC_CHECKSUM, idK + Zeros(c.size(kdcKey.etype)))
    ensures Ready(c, Assembled(bs), serverKey, kdcKey)
    ensures Signing(c, Assembled(bs), serverKey, kdcKey) == SignedLayout(c, bs, serverKey, kdcKey)
  {
    LayoutIsReady(c, bs, serverKey, kdcKey, idS, idK);
    LastTwo(bs);
    SigningAt(c, Assembled(bs), serverKey, kdcKey, Offset(bs, |bs| - 2), Offset(bs, |bs| - 1));
  }

  /** A PAC the KDC builds verifies under both its signatures. */
  lemma BuiltVerifies(c: Crypto, infos: seq<Buffer>, serverKey: SigKey, kdcKey: SigKey)
    requires c.Valid() && EmptySignature(c, serverKey).Some? && EmptySignature(c, kdcKey).Some?
    requires InWidth(WithSignatures(infos, EmptySignature(c, serverKey).value, EmptySignature(c, kdcKey).value))
    ensures Built(c, infos, serverKey, kdcKey).Some?
    ensures ServerVerifies(c, Built(c, infos, serverKey, kdcKey).value, serverKey)
    ensures KdcVerifies(c, Built(c, infos, serverKey, kdcKey).value, kdcKey)
  {
    var bs := WithSignatures(infos, EmptySignature(c, serverKey).value, EmptySignature(c, kdcKey).value);
    LayoutIsSigned(c, bs, serverKey, kdcKey, Le(c.hashId(serverKey.etype).value, 4), Le(c.hashId(kdcKey.etype).value, 4));
    SigningVerifies(c, Assembled(bs), serverKey, kdcKey);
  }

  // ----- Re-signing -----

  /** Both signature buffers written empty. */
  function Emptied(blob: bytes, s: Place, k: Place, server: bytes, kdc: bytes): bytes
    requires s.offset + |server| <= |blob| && k.offset + |kdc| <= |blob|
  {
    Patch(Patch(blob, s.offset, server), k.offset, kdc)
  }

  /** An existing PAC signed anew, or nothing when its signatures are missing or of another size. */
  function Resigned(c: Crypto, blob: bytes, serverKey: SigKey, kdcKey: SigKey): Option<bytes>
    requires c.Valid()
  {
    if !Signed(blob) then None
    else match (EmptySignature(c, serverKey), EmptySignature(c, kdcKey))
         case (Some(server), Some(kdc)) =>
           var s, k := ServerSig(blob), KdcSig(blob);
           if |server| != s.size || |kdc| != k.size then None
           else Some(Stamped(c, Emptied(blob, s, k, server, kdc), serverKey, kdcKey, s.offset + 4, k.offset + 4))
         case _ => None
  }

  /** A PAC is re-signed exactly when its table and every buffer lie inside it, both keys have a checksum type,
      and both signature buffers have the size of theirs. */
  lemma ResignedIff(c: Crypto, blob: bytes, serverKey: SigKey, kdcKey: SigKey)
    requires c.Valid()
    ensures Resigned(c, blob, serverKey, kdcKey).Some? <==>
            && |blob| >= 8 && |blob| >= 8 + 16 * ReadLe(blob[..4])
            && (forall i: nat | i < Count(blob) :: PlaceAt(blob, i).offset + PlaceAt(blob, i).size <= |blob|)
            && c.hashId(serverKey.etype).Some? && c.hashId(kdcKey.etype).Some?
            && ServerSig(blob).size == 4 + c.size(serverKey.etype) && KdcSig(blob).size == 4 + c.size(kdcKey.etype)
  {
    if HasTable(blob) && AllInside(blob) {
      LastOfIsInside(blob, SERVER_CHECKSUM, Count(blob));
      LastOfIsInside(blob, KDC_CHECKSUM, Count(blob));
    }
  }

  predicate Within(i: int, p: Place) {
    p.offset <= i < p.offset + p.size
  }

  /** Re-signing changes no byte outside the two signature buffers. */
  lemma ResignedKeepsContents(c: Crypto, blob: bytes, serverKey: SigKey, kdcKey: SigKey, i: nat)
    requires c.Valid() && Resigned(c, blob, serverKey, kdcKey).Some?
    requires i < |blob| && !Within(i, ServerSig(blob)) && !Within(i, KdcSig(blob))
    ensures |Resigned(c, blob, serverKey, kdcKey).value| == |blob|
    ensures Resigned(c, blob, serverKey, kdcKey).value[i] == blob[i]
  {
  }

  /** The signature buffers stand clear of each other and of the descriptor table. */
  predicate SignaturesApart(blob: bytes)
    requires HasTable(blob)
  {
    var s, k := ServerSig(blob), KdcSig(blob);
    && Apart(s.offset, s.size, k.offset, k.size)
    && s.offset >= DescriptorAt(Count(blob)) && k.offset >= DescriptorAt(Count(blob))
  }

  lemma EmptiedParts(blob: bytes, s: Place, k: Place, server: bytes, kdc: bytes, table: nat)
    requires |server| == s.size && |kdc| == k.size && s.offset + s.size <= |blob| && k.offset + k.size <= |blob|
    requires Apart(s.offset, s.size, k.offset, k.size) && table <= s.offset && table <= k.offset
    ensures var e := Emptied(blob, s, k, server, kdc);
            && e[..table] == blob[..table]
            && e[s.offset..s.offset + s.size] == server && e[k.offset..k.offset + k.size] == kdc
  {
    TwoPatchesElsewhere(blob, s.offset, server, k.offset, kdc, 0, table);
    PatchThere(blob, s.offset, server);
    PatchElsewhere(Patch(blob, s.offset, server), k.offset, kdc, s.offset, s.offset + s.size);
    PatchThere(Patch(blob, s.offset, server), k.offset, kdc);
  }

  /** Emptying the signatures leaves a PAC that is ready to be signed at the same places. */
  lemma EmptiedIsReady(blob: bytes, server: bytes, kdc: bytes, idS: bytes, idK: bytes)
    requires Signed(blob) && SignaturesApart(blob) && |idS| == |idK| == 4
    requires |server| == ServerSig(blob).size && server == idS + Zeros(|server| - 4)
    requires |kdc| == KdcSig(blob).size && kdc == idK + Zeros(|kdc| - 4)
    ensures var s, k := ServerSig(blob), KdcSig(blob);
            var e := Emptied(blob, s, k, server, kdc);
            && Signed(e) && ServerSig(e) == s && KdcSig(e) == k && Count(e) == Count(blob)
            && Blanked(e, s, k) == e && e[s.offset..s.offset + 4] == idS && e[k.offset..k.offset + 4] == idK
  {
    var s, k := ServerSig(blob), KdcSig(blob);
    var e := Emptied(blob, s, k, server, kdc);
    EmptiedParts(blob, s, k, server, kdc, DescriptorAt(Count(blob)));
    SameSignatures(blob, e);
    EmptyIsBlank(e, s, k, idS, idK);
  }

  lemma ResignedIsSigning(c: Crypto, blob: bytes, serverKey: SigKey, kdcKey: SigKey) returns (e: bytes)
    requires c.Valid() && Resigned(c, blob, serverKey, kdcKey).Some? && SignaturesApart(blob)
    ensures Ready(c, e, serverKey, kdcKey)
    ensures Resigned(c, blob, serverKey, kdcKey) == Some(Signing(c, e, serverKey, kdcKey))
  {
    var server, kdc := EmptySignature(c, serverKey).value, EmptySignature(c, kdcKey).value;
    e := Emptied(blob, ServerSig(blob), KdcSig(blob), server, kdc);
    EmptiedIsReady(blob, server, kdc, Le(c.hashId(serverKey.etype).value, 4), Le(c.hashId(kdcKey.etype).value, 4));
  }

  /** A re-signed PAC verifies under both new keys when its signature buffers stand apart. */
  lemma ResignedVerifies(c: Crypto, blob: bytes, serverKey: SigKey, kdcKey: SigKey)
    requires c.Valid() && Resigned(c, blob, serverKey, kdcKey).Some? && SignaturesApart(blob)
    ensures ServerVerifies(c, Resigned(c, blob, serverKey, kdcKey).value, serverKey)
    ensures KdcVerifies(c, Resigned(c, blob, serverKey, kdcKey).value, kdcKey)
  {
    var e := ResignedIsSigning(c, blob, serverKey, kdcKey);
    SigningVerifies(c, e, serverKey, kdcKey);
  }
}
