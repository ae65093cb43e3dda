/** What the keytab reader accepts, exactly (internal/krbkeys/keytab_read.go). */
module KeytabGrammar {
  import opened Bytes
  import opened Keytab

  // ----- Entries -----

  /** The parts of an entry's bytes that the reader does not keep as they are: the name type, the short key
      version, and what follows the key. */
  datatype Rest = Rest(nameType: bytes, kvno8: bytes, tail: bytes)

  predicate Short(parts: seq<bytes>) {
    forall i | 0 <= i < |parts| :: |parts[i]| <= 0xffff
  }

  /** The bytes of an entry after its names. */
  function KeyBytes(e: Entry, r: Rest): bytes
    requires e.timestamp.Some?
  {
    r.nameType + (Be(e.timestamp.value, 4) + (r.kvno8 + (Be(e.key.etype, 2) + (Be(|e.key.value|, 2) + (e.key.value + r.tail)))))
  }

  predicate KeyFits(e: Entry, r: Rest) {
    && |e.key.value| <= 0xffff && 0 <= e.key.etype < 0x1_0000 && e.key.salt == [] && e.key.s2kparams == []
    && e.timestamp.Some? && 0 <= e.timestamp.value < 0x1_0000_0000
    && |r.nameType| == 4 && |r.kvno8| == 1
    && e.kvno == (if |r.tail| >= 4 then ReadBe(r.tail[..4]) else ReadBe(r.kvno8))
  }

  /** These are the bytes of an entry: a count of components, realm and components each with its length, a
      name type, a time, a short key version, and a key with its type and length. The key version is the
      32 bit one after the key, or the short one if fewer than four bytes follow. */
  predicate IsEntry(b: bytes, e: Entry, r: Rest) {
    && |e.components| <= 0xffff && |e.realm| <= 0xffff && Short(e.components) && KeyFits(e, r)
    && b == Be(|e.components|, 2) + (Counted(e.realm) + (CountedAll(e.components) + KeyBytes(e, r)))
  }

  lemma FieldsRead(ts: bytes, kvno8: bytes, etype: bytes, keylen: bytes, value: bytes, tail: bytes,
                   components: seq<bytes>, realm: bytes)
    requires ReadBe(keylen) == |value|
    ensures ReadFields(Fields(ts, kvno8, etype, keylen, value + tail), components, realm) ==
            Ok(Entry(components, realm, if |tail| >= 4 then ReadBe(tail[..4]) else ReadBe(kvno8),
                     Key(ReadBe(etype), value, [], []), Some(ReadBe(ts))))
  {
    assert (value + tail)[..|value|] == value && (value + tail)[|value|..] == tail;
  }

  lemma KeyReads(e: Entry, r: Rest)
    requires KeyFits(e, r)
    ensures ReadKey(KeyBytes(e, r), e.components, e.realm) == Ok(e)
  {
    Be4(e.timestamp.value);
    Be2(e.key.etype);
    Be2(|e.key.value|);
    var ts, etype, keylen := Be(e.timestamp.value, 4), Be(e.key.etype, 2), Be(|e.key.value|, 2);
    CutFixed(r.nameType, ts, r.kvno8, etype, keylen, e.key.value + r.tail);
    FieldsRead(ts, r.kvno8, etype, keylen, e.key.value, r.tail, e.components, e.realm);
  }

  lemma EntryReads(b: bytes, e: Entry, r: Rest)
    requires IsEntry(b, e, r)
    ensures ParseEntry(b) == Ok(e)
  {
    Be2(|e.components|);
    NamePart(Be(|e.components|, 2), e.realm, e.components, KeyBytes(e, r));
    KeyReads(e, r);
  }

  lemma CountedIs(b: bytes)
    requires ReadCounted(b).Some?
    ensures var (s, rest) := ReadCounted(b).value; |s| <= 0xffff && b == Counted(s) + rest
  {
    Reads2(b[..2]);
    var (s, rest) := ReadCounted(b).value;
    assert b == b[..2] + (s + rest);
  }

  lemma {:induction false} ComponentsAre(b: bytes, n: nat)
    requires ReadComponents(b, n).Some?
    ensures var (cs, rest) := ReadComponents(b, n).value; |cs| == n && Short(cs) && b == CountedAll(cs) + rest
    decreases n
  {
    if n > 0 {
      CountedIs(b);
      var (c, tail) := ReadCounted(b).value;
      ComponentsAre(tail, n - 1);
      var (cs, rest) := ReadComponents(tail, n - 1).value;
      CountedSplit([c] + cs, rest);
      assert ([c] + cs)[1..] == cs;
    }
  }

  function RestOf(b: bytes): Rest
    requires |b| >= 13
  {
    var n := ReadBe(b[11..13]);
    Rest(b[..4], b[8..9], if n <= |b| - 13 then b[13 + n..] else [])
  }

  lemma KeyPieces(b: bytes, n: nat)
    requires |b| >= 13 + n
    ensures b[13..][n..] == b[13 + n..]
    ensures b == b[..4] + (b[4..8] + (b[8..9] + (b[9..11] + (b[11..13] + (b[13..][..n] + b[13 + n..])))))
  {
    var key := b[13..][..n] + b[13 + n..];
    assert key == b[13..];
    assert b[11..13] + key == b[11..];
    assert b[9..11] + b[11..] == b[9..];
    assert b[8..9] + b[9..] == b[8..];
    assert b[4..8] + b[8..] == b[4..];
  }

  lemma KeyIs(b: bytes, components: seq<bytes>, realm: bytes)
    requires ReadKey(b, components, realm).Ok?
    ensures var e := ReadKey(b, components, realm).value;
            e.components == components && e.realm == realm && KeyFits(e, RestOf(b)) && b == KeyBytes(e, RestOf(b))
  {
    Reads4(b[4..8]);
    Reads2(b[9..11]);
    Reads2(b[11..13]);
    KeyPieces(b, ReadBe(b[11..13]));
  }

  lemma EntryIs(b: bytes)
    requires ParseEntry(b).Ok?
    ensures exists r :: IsEntry(b, ParseEntry(b).value, r)
  {
    Reads2(b[..2]);
    CountedIs(b[2..]);
    var (realm, rest) := ReadCounted(b[2..]).value;
    ComponentsAre(rest, ReadBe(b[..2]));
    var (components, fixed) := ReadComponents(rest, ReadBe(b[..2])).value;
    KeyIs(fixed, components, realm);
    assert b == b[..2] + b[2..];
    assert IsEntry(b, ParseEntry(b).value, RestOf(fixed));
  }

  /** The reader takes some bytes for an entry exactly when they are the bytes of that entry. */
  lemma EntryIff(b: bytes, e: Entry)
    ensures ParseEntry(b) == Ok(e) <==> exists r :: IsEntry(b, e, r)
  {
    if ParseEntry(b) == Ok(e) { EntryIs(b); }
    if r :| IsEntry(b, e, r) { EntryReads(b, e, r); }
  }

  /** What the writer writes of an entry: the number of components decides the name type, and the key version
      stands there twice, cut to a byte and whole. */
  lemma BodyIs(e: Entry, now: int)
    requires Objection(e).None?
    ensures IsEntry(Body(e, now), Kept(e, now), Rest(Be(if |e.components| > 1 then 2 else 1, 4), Be(e.kvno, 1), Be(e.kvno, 4)))
  {
    var k, r := Kept(e, now), Rest(Be(if |e.components| > 1 then 2 else 1, 4), Be(e.kvno, 1), Be(e.kvno, 4));
    Be4(e.kvno);
    assert Be(e.kvno, 4)[..4] == Be(e.kvno, 4);
    Low4(TimeOf(e, now));
    Low2(e.key.etype);
    assert KeyBytes(k, r) == Be(NameType(e), 4) + (Be(TimeOf(e, now), 4) + (Be(e.kvno, 1) + KeyPart(e)));
  }

  /** A number and its residue are written alike. */
  lemma Low4(n: int)
    ensures Be(n % 0x1_0000_0000, 4) == Be(n, 4)
  {
    var r := n % 0x1_0000_0000;
    Be4(n);
    Be4(r);
    ReadBeIsUnique(Be(r, 4), Be(n, 4));
  }

  lemma Low2(n: int)
    ensures Be(n % 0x1_0000, 2) == Be(n, 2)
  {
    var r := n % 0x1_0000;
    Be2(n);
    Be2(r);
    ReadBeIsUnique(Be(r, 2), Be(n, 2));
  }

  /** The writer refuses an entry exactly when it has no name, too many components, or a part that is too long. */
  lemma RefusedIff(e: Entry, now: int)
    ensures MarshalEntry(e, now).Err? <==>
            || |e.components| == 0 || |e.components| > 0x7fff || |e.key.value| > 0xffff || |e.realm| > 0xffff
            || exists i | 0 <= i < |e.components| :: |e.components[i]| > 0xffff
  {
    if i :| 0 <= i < |e.components| && |e.components[i]| > 0xffff { assert e.components[i] in e.components; }
  }

  // ----- Files -----

  /** A record of a file: some bytes, or a hole of some size. */
  datatype Raw = Record(body: bytes) | Gap(junk: bytes)

  predicate Sized(x: Raw) {
    match x
    case Record(body) => 0 < |body| < INT31
    case Gap(junk) => 0 < |junk| <= INT31
  }

  function RawBytes(x: Raw): bytes {
    match x
    case Record(body) => Be(|body|, 4) + body
    case Gap(junk) => Be(-|junk|, 4) + junk
  }

  function RawFile(xs: seq<Raw>): bytes {
    if xs == [] then [] else RawBytes(xs[0]) + RawFile(xs[1..])
  }

  /** The entries of the records, in order, or the first error. */
  function RawEntries(xs: seq<Raw>): Result<seq<Entry>> {
    if xs == [] then Ok([])
    else if xs[0].Record? then Followed(ParseEntry(xs[0].body), RawEntries(xs[1..]))
    else RawEntries(xs[1..])
  }

  lemma OneRaw(x: Raw, rest: bytes)
    requires Sized(x)
    ensures ParseAll(RawBytes(x) + rest) == if x.Record? then Followed(ParseEntry(x.body), ParseAll(rest)) else ParseAll(rest)
  {
    match x
    case Record(body) =>
      Be4(|body|);
      RecordPart(Be(|body|, 4), body, rest);
    case Gap(junk) => HoleReadsBack(junk, rest);
  }

  lemma {:induction false} RawReads(xs: seq<Raw>)
    requires forall i | 0 <= i < |xs| :: Sized(xs[i])
    ensures ParseAll(RawFile(xs)) == RawEntries(xs)
    decreases |xs|
  {
    if xs != [] {
      assert forall i | 0 <= i < |xs[1..]| :: xs[1..][i] == xs[i + 1];
      OneRaw(xs[0], RawFile(xs[1..]));
      RawReads(xs[1..]);
    }
  }

  /** The size of a hole is written as its negation. */
  lemma SameDigits(n: int, k: int)
    requires 0 < k <= INT31 && n == UINT32 - k
    ensures Be(-k, 4) == Be(n, 4)
  {
    Be4(-k);
    Be4(n);
    ModUnique(-k, UINT32, -1, n);
    ReadBeIsUnique(Be(-k, 4), Be(n, 4));
  }

  lemma GapIs(size: bytes, body: bytes, k: int)
    requires |size| == 4 && 0 < k <= INT31 && ReadBe(size) == UINT32 - k && k <= |body|
    ensures Sized(Gap(body[..k])) && size + body == RawBytes(Gap(body[..k])) + body[k..]
  {
    Reads4(size);
    SameDigits(ReadBe(size), k);
    assert body == body[..k] + body[k..];
  }

  lemma RecordIs(size: bytes, body: bytes, n: int)
    requires |size| == 4 && 0 < n < INT31 && ReadBe(size) == n && n <= |body|
    ensures Sized(Record(body[..n])) && size + body == RawBytes(Record(body[..n])) + body[n..]
  {
    Reads4(size);
    assert body == body[..n] + body[n..];
  }

  /** What the reader makes of the size in front of some bytes. */
  lemma SizeRead(size: bytes, body: bytes)
    requires |size| == 4 && ParseAll(size + body).Ok?
    ensures ReadBe(size) < UINT32
    ensures var n := ReadBe(size);
            if n >= INT31 then UINT32 - n <= |body| && ParseAll(body[UINT32 - n..]).Ok?
            else 0 < n <= |body| && ParseAll(body[n..]).Ok?
  {
    Reads4(size);
    assert (size + body)[..4] == size && (size + body)[4..] == body;
  }

  /** The first record of some bytes, and what follows it. */
  lemma FirstRaw(rest: bytes) returns (x: Raw, after: bytes)
    requires rest != [] && ParseAll(rest).Ok?
    ensures Sized(x) && rest == RawBytes(x) + after && ParseAll(after).Ok?
  {
    var size, body := rest[..4], rest[4..];
    assert rest == size + body;
    SizeRead(size, body);
    var n := ReadBe(size);
    if n >= INT31 {
      GapIs(size, body, UINT32 - n);
      x, after := Gap(body[..UINT32 - n]), body[UINT32 - n..];
    } else {
      RecordIs(size, body, n);
      x, after := Record(body[..n]), body[n..];
    }
  }

  lemma {:induction false} RawsOf(rest: bytes) returns (xs: seq<Raw>)
    requires ParseAll(rest).Ok?
    ensures (forall i | 0 <= i < |xs| :: Sized(xs[i])) && rest == RawFile(xs)
    decreases |rest|
  {
    xs := [];
    if rest != [] {
      var x, after := FirstRaw(rest);
      var ys := RawsOf(after);
      xs := [x] + ys;
      assert xs[1..] == ys;
    }
  }

  ghost predicate IsFile(data: bytes, xs: seq<Raw>, es: seq<Entry>) {
    (forall i | 0 <= i < |xs| :: Sized(xs[i])) && data == HEADER + RawFile(xs) && RawEntries(xs) == Ok(es)
  }

  lemma FileReads(data: bytes, xs: seq<Raw>, es: seq<Entry>)
    requires IsFile(data, xs, es)
    ensures Parse(data) == Ok(es)
  {
    RawReads(xs);
    assert data[..2] == HEADER && data[2..] == RawFile(xs);
  }

  lemma FileIs(data: bytes, es: seq<Entry>)
    requires Parse(data) == Ok(es) && data != []
    ensures exists xs :: IsFile(data, xs, es)
  {
    var xs := RawsOf(data[2..]);
    RawReads(xs);
    assert data == data[..2] + data[2..];
    assert IsFile(data, xs, es);
  }

  /** The reader is total, and gives entries for exactly two kinds of files: an empty one, which has none, and one
      that starts with the version and goes on with sized records and holes to its end, whose records
      are those entries. */
  lemma ParseIff(data: bytes, es: seq<Entry>)
    ensures Parse(data) == Ok(es) <==> (data == [] && es == []) || exists xs :: IsFile(data, xs, es)
  {
    if data != [] && Parse(data) == Ok(es) { FileIs(data, es); }
    if xs :| IsFile(data, xs, es) { FileReads(data, xs, es); }
  }
}
