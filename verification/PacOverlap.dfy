/** Exactly when a re-signed PAC verifies (internal/kdc/pac.go): both signatures hold, whatever the
    checksums are, when their buffers stand apart and only then. */
module PacOverlap {
  import opened Bytes
  import opened Pac
  import opened PacSigning

  /** Another checksum function behind the same checksum types and lengths. */
  ghost predicate Alike(c: Crypto, d: Crypto) {
    d.Valid() && d.hashId == c.hashId && d.etypeOf == c.etypeOf && d.size == c.size
  }

  predicate BothVerify(c: Crypto, blob: bytes, serverKey: SigKey, kdcKey: SigKey) {
    ServerVerifies(c, blob, serverKey) && KdcVerifies(c, blob, kdcKey)
  }

  /** A re-signed PAC verifies under any checksum function with these types and lengths. */
  ghost predicate AlwaysVerifies(c: Crypto, blob: bytes, serverKey: SigKey, kdcKey: SigKey) {
    forall d: Crypto | Alike(c, d) ::
      Resigned(d, blob, serverKey, kdcKey).Some? && BothVerify(d, Resigned(d, blob, serverKey, kdcKey).value, serverKey, kdcKey)
  }

  function Constant(n: nat, v: byte): (b: bytes)
    ensures |b| == n
  {
    seq(n, _ => v)
  }

  /** Checksums that only tell apart what is signed and with which enctype: `u` over data of length `n`
      under enctype `eS` and `u2` under others, `v` over other data under `eK` and `v2` under others. */
  function Marked(c: Crypto, n: nat, eS: int, eK: int, u: byte, u2: byte, v: byte, v2: byte): Crypto {
    c.(sum := (e: int, k: bytes, d: bytes) =>
         Constant(c.size(e), if |d| == n then (if e == eS then u else u2) else (if e == eK then v else v2)))
  }

  lemma {:induction false} ReadLeIsUnique(a: bytes, b: bytes)
    requires |a| == |b| && ReadLe(a) == ReadLe(b)
    ensures a == b
    decreases |a|
  {
    if a != [] {
      assert a[0] == ReadLe(a) % 256 && b[0] == ReadLe(b) % 256;
      ReadLeIsUnique(a[1..], b[1..]);
      assert a == [a[0]] + a[1..] && b == [b[0]] + b[1..];
    }
  }

  /** A type field with one wrong byte names another enctype or none. */
  lemma WrongByte(c: Crypto, key: SigKey, field: bytes, j: nat)
    requires c.Valid() && c.Exact() && |field| == 4 && j < 4 && c.hashId(key.etype).Some?
    requires field[j] != Le(c.hashId(key.etype).value, 4)[j]
    ensures c.etypeOf(ReadLe(field)) != Some(key.etype)
  {
    var id := c.hashId(key.etype).value;
    Le4(id);
    if ReadLe(field) == id { ReadLeIsUnique(field, Le(id, 4)); }
  }

  /** Both checksums written into `e`, and the place each signature ends up with. */
  function Written(e: bytes, s: Place, k: Place, u: byte, v: byte): bytes
    requires Inside(s, e) && Inside(k, e)
  {
    Patch(Patch(e, s.offset + 4, Constant(s.size - 4, u)), k.offset + 4, Constant(k.size - 4, v))
  }

  /** What re-signing produces under marked checksums. */
  lemma MarkedOut(c: Crypto, blob: bytes, serverKey: SigKey, kdcKey: SigKey, u: byte, u2: byte, v: byte, v2: byte) returns (e: bytes)
    requires c.Valid() && Resigned(c, blob, serverKey, kdcKey).Some?
    ensures var d := Marked(c, |blob|, serverKey.etype, kdcKey.etype, u, u2, v, v2);
            && Alike(c, d) && |e| == |blob|
            && Resigned(d, blob, serverKey, kdcKey) == Some(Written(e, ServerSig(blob), KdcSig(blob), u, v))
            && e[..MinOffset(blob)] == blob[..MinOffset(blob)]
  {
    var d := Marked(c, |blob|, serverKey.etype, kdcKey.etype, u, u2, v, v2);
    var s, k := ServerSig(blob), KdcSig(blob);
    e := Emptied(blob, s, k, EmptySignature(c, serverKey).value, EmptySignature(c, kdcKey).value);
    assert EmptySignature(d, serverKey) == EmptySignature(c, serverKey) && EmptySignature(d, kdcKey) == EmptySignature(c, kdcKey);
    assert d.Checksum(serverKey, e) == Constant(s.size - 4, u);
    assert d.Checksum(kdcKey, Constant(s.size - 4, u)) == Constant(k.size - 4, v);
  }

  /** Where the first of the two signature buffers starts. */
  function MinOffset(blob: bytes): (m: nat)
    requires Signed(blob)
    ensures m <= |blob|
  {
    if ServerSig(blob).offset < KdcSig(blob).offset then ServerSig(blob).offset else KdcSig(blob).offset
  }

  predicate PastTable(blob: bytes) {
    Signed(blob) && DescriptorAt(Count(blob)) <= MinOffset(blob)
  }

  lemma WrittenKeepsTable(blob: bytes, e: bytes, u: byte, v: byte)
    requires PastTable(blob) && |e| == |blob| && e[..MinOffset(blob)] == blob[..MinOffset(blob)]
    ensures var out := Written(e, ServerSig(blob), KdcSig(blob), u, v);
            Signed(out) && ServerSig(out) == ServerSig(blob) && KdcSig(out) == KdcSig(blob)
  {
    var t := DescriptorAt(Count(blob));
    var s, k := ServerSig(blob), KdcSig(blob);
    TwoPatchesElsewhere(e, s.offset + 4, Constant(s.size - 4, u), k.offset + 4, Constant(k.size - 4, v), 0, t);
    SameSlice(e, blob, MinOffset(blob), 0, t);
    SameSignatures(blob, Written(e, s, k, u, v));
  }

  // ----- The three ways to overlap -----

  /** A byte of both values: the server's checksum is overwritten. */
  lemma ValuesMeet(c: Crypto, n: nat, out: bytes, e: bytes, s: Place, k: Place, serverKey: SigKey, kdcKey: SigKey, p: nat)
    requires Inside(s, e) && Inside(k, e) && |e| == n && out == Written(e, s, k, 1, 2)
    requires s.offset + 4 <= p < s.offset + s.size && k.offset + 4 <= p < k.offset + k.size
    ensures !ServerCovers(Marked(c, n, serverKey.etype, kdcKey.etype, 1, 1, 2, 2), out, serverKey, s, k)
  {
    var d := Marked(c, n, serverKey.etype, kdcKey.etype, 1, 1, 2, 2);
    assert Value(out, s)[p - s.offset - 4] == out[p] == 2;
  }

  /** A byte of the KDC's value in the server's type field: the field names another enctype. */
  lemma ValueMeetsType(c: Crypto, n: nat, out: bytes, e: bytes, s: Place, k: Place, serverKey: SigKey, kdcKey: SigKey, p: nat, v: byte)
    requires c.Valid() && c.Exact() && c.hashId(serverKey.etype).Some?
    requires Inside(s, e) && Inside(k, e) && |e| == n && out == Written(e, s, k, 1, v) && s.size > 4
    requires s.offset + s.size <= k.offset + 4 || k.offset + k.size <= s.offset + 4
    requires s.offset <= p < s.offset + 4 && k.offset + 4 <= p < k.offset + k.size
    requires v != Le(c.hashId(serverKey.etype).value, 4)[p - s.offset]
    ensures !ServerCovers(Marked(c, n, serverKey.etype, kdcKey.etype, 1, 2, v, v), out, serverKey, s, k)
  {
    var field := out[s.offset..s.offset + 4];
    assert field[p - s.offset] == out[p] == v;
    WrongByte(c, serverKey, field, p - s.offset);
    assert Value(out, s)[0] == out[s.offset + 4] == 1;
  }

  /** A byte of the server's value in the KDC's type field. */
  lemma TypeMeetsValue(c: Crypto, n: nat, out: bytes, e: bytes, s: Place, k: Place, serverKey: SigKey, kdcKey: SigKey, p: nat, u: byte)
    requires c.Valid() && c.Exact() && c.hashId(kdcKey.etype).Some?
    requires Inside(s, e) && Inside(k, e) && |e| == n && out == Written(e, s, k, u, 3) && k.size > 4
    requires s.offset + 4 <= p < s.offset + s.size && k.offset <= p < k.offset + 4
    requires u != Le(c.hashId(kdcKey.etype).value, 4)[p - k.offset]
    ensures !KdcCovers(Marked(c, n, serverKey.etype, kdcKey.etype, u, u, 3, 4), out, kdcKey, s, k)
  {
    var field := out[k.offset..k.offset + 4];
    assert field[p - k.offset] == out[p] == u;
    WrongByte(c, kdcKey, field, p - k.offset);
    assert out[k.offset + 4] == 3;
    assert |Value(out, s)| != n;
    if Named(c, out, k).Some? {
      var m := c.size(Named(c, out, k).value);
      assert k.offset + 4 + m <= |out| ==> out[k.offset + 4..k.offset + 4 + m][0] == 3;
    }
  }

  /** Overlapping buffers meet in one of the three ways. */
  lemma OverlapsSomewhere(s: Place, k: Place) returns (p: nat)
    requires s.size > 4 && k.size > 4 && !Apart(s.offset, s.size, k.offset, k.size)
    ensures || (s.offset + 4 <= p < s.offset + s.size && k.offset + 4 <= p < k.offset + k.size)
            || (&& (s.offset + s.size <= k.offset + 4 || k.offset + k.size <= s.offset + 4)
                && ((s.offset <= p < s.offset + 4 && k.offset + 4 <= p < k.offset + k.size)
                    || (s.offset + 4 <= p < s.offset + s.size && k.offset <= p < k.offset + 4)))
  {
    if s.offset + s.size <= k.offset + 4 {
      p := s.offset + s.size - 1;
    } else if k.offset + k.size <= s.offset + 4 {
      p := k.offset + k.size - 1;
    } else {
      p := if s.offset < k.offset then k.offset + 4 else s.offset + 4;
    }
  }

  lemma OverlapFails(c: Crypto, blob: bytes, serverKey: SigKey, kdcKey: SigKey)
    requires c.Valid() && c.Exact() && Resigned(c, blob, serverKey, kdcKey).Some? && PastTable(blob)
    requires !SignaturesApart(blob)
    ensures !AlwaysVerifies(c, blob, serverKey, kdcKey)
  {
    var s, k := ServerSig(blob), KdcSig(blob);
    var p := OverlapsSomewhere(s, k);
    var n, eS, eK := |blob|, serverKey.etype, kdcKey.etype;
    if s.offset + 4 <= p && k.offset + 4 <= p {
      var e := MarkedOut(c, blob, serverKey, kdcKey, 1, 1, 2, 2);
      WrittenKeepsTable(blob, e, 1, 2);
      ValuesMeet(c, n, Written(e, s, k, 1, 2), e, s, k, serverKey, kdcKey, p);
    } else if p < s.offset + 4 {
      var v: byte := if Le(c.hashId(eS).value, 4)[p - s.offset] == 3 then 4 else 3;
      var e := MarkedOut(c, blob, serverKey, kdcKey, 1, 2, v, v);
      WrittenKeepsTable(blob, e, 1, v);
      ValueMeetsType(c, n, Written(e, s, k, 1, v), e, s, k, serverKey, kdcKey, p, v);
    } else {
      var u: byte := if Le(c.hashId(eK).value, 4)[p - k.offset] == 1 then 2 else 1;
      var e := MarkedOut(c, blob, serverKey, kdcKey, u, u, 3, 4);
      WrittenKeepsTable(blob, e, u, 3);
      TypeMeetsValue(c, n, Written(e, s, k, u, 3), e, s, k, serverKey, kdcKey, p, u);
    }
  }

  /** For a PAC that can be re-signed at all and whose signatures lie past its table: the result verifies
      under every checksum function with these types and lengths exactly when the buffers are apart. */
  lemma VerifiesIffApart(c: Crypto, blob: bytes, serverKey: SigKey, kdcKey: SigKey)
    requires c.Valid() && c.Exact() && Resigned(c, blob, serverKey, kdcKey).Some? && PastTable(blob)
    ensures AlwaysVerifies(c, blob, serverKey, kdcKey) <==> SignaturesApart(blob)
  {
    if SignaturesApart(blob) {
      forall d: Crypto | Alike(c, d)
        ensures Resigned(d, blob, serverKey, kdcKey).Some? && BothVerify(d, Resigned(d, blob, serverKey, kdcKey).value, serverKey, kdcKey)
      {
        assert EmptySignature(d, serverKey) == EmptySignature(c, serverKey) && EmptySignature(d, kdcKey) == EmptySignature(c, kdcKey);
        ResignedVerifies(d, blob, serverKey, kdcKey);
      }
    } else {
      OverlapFails(c, blob, serverKey, kdcKey);
    }
  }

  // ----- A PAC that fails -----

  /** A checksum type and an enctype with checksums of one byte. */
  const TINY := Crypto(
    (e: int) => if e == 17 then Some(15) else None,
    (id: nat) => if id == 15 then Some(17) else None,
    (e: int) => 1,
    (e: int, k: bytes, d: bytes) => [0])

  const KEY := SigKey(17, [])

  /** Two descriptors, of the server's and of the KDC's signature, for one buffer of five bytes. */
  function Shared(): bytes {
    var data := Zeros(5);
    Le(2, 4) + Le(0, 4) + Descriptor(Buffer(SERVER_CHECKSUM, data), 40) + Descriptor(Buffer(KDC_CHECKSUM, data), 40) + data
  }

  lemma SharedReads()
    ensures Signed(Shared()) && PastTable(Shared())
    ensures ServerSig(Shared()) == Place(SERVER_CHECKSUM, 5, 40) && KdcSig(Shared()) == Place(KDC_CHECKSUM, 5, 40)
  {
    var blob, data := Shared(), Zeros(5);
    assert |blob| == 45 && blob[..4] == Le(2, 4);
    CountOf(blob, 2);
    assert blob[DescriptorAt(0)..DescriptorAt(0) + DESCRIPTOR_LEN] == Descriptor(Buffer(SERVER_CHECKSUM, data), 40);
    assert blob[DescriptorAt(1)..DescriptorAt(1) + DESCRIPTOR_LEN] == Descriptor(Buffer(KDC_CHECKSUM, data), 40);
    PlaceOf(blob, 0, Buffer(SERVER_CHECKSUM, data), 40);
    PlaceOf(blob, 1, Buffer(KDC_CHECKSUM, data), 40);
    SharedSigs(blob);
  }

  lemma SharedSigs(blob: bytes)
    requires |blob| == 45 && HasTable(blob) && Count(blob) == 2
    requires PlaceAt(blob, 0) == Place(SERVER_CHECKSUM, 5, 40) && PlaceAt(blob, 1) == Place(KDC_CHECKSUM, 5, 40)
    ensures Signed(blob) && PastTable(blob)
    ensures ServerSig(blob) == Place(SERVER_CHECKSUM, 5, 40) && KdcSig(blob) == Place(KDC_CHECKSUM, 5, 40)
  {
    assert LastOf(blob, SERVER_CHECKSUM, 1) == PlaceAt(blob, 0);
    forall i: nat | i < Count(blob) ensures Bounds(PlaceAt(blob, i), |blob|).Some? { assert i == 0 || i == 1; }
  }

  /** The code re-signs a PAC whose signatures share a buffer, and no service accepts the result. */
  lemma SharedBufferFails()
    ensures var d := Marked(TINY, 45, 17, 17, 1, 1, 2, 2);
            && d.Valid() && Resigned(d, Shared(), KEY, KEY).Some?
            && !ServerVerifies(d, Resigned(d, Shared(), KEY, KEY).value, KEY)
  {
    var blob := Shared();
    SharedReads();
    assert |blob| == 45;
    var s, k := ServerSig(blob), KdcSig(blob);
    assert Resigned(TINY, blob, KEY, KEY).Some?;
    var e := MarkedOut(TINY, blob, KEY, KEY, 1, 1, 2, 2);
    WrittenKeepsTable(blob, e, 1, 2);
    ValuesMeet(TINY, 45, Written(e, s, k, 1, 2), e, s, k, KEY, KEY, 44);
  }
}
