/** MIT keytab version 2 files: the writer (internal/krbkeys/keytab.go), the parser and the merge
    (internal/krbkeys/keytab_read.go). */
module Keytab {
  import opened Bytes

  datatype Result<+T> = Ok(value: T) | Err(problem: Problem)
  datatype Problem = NotKeytab | Truncated | NoComponents | TooManyComponents | KeyTooLong | StringTooLong
  datatype Option<+T> = None | Some(value: T)

  datatype Key = Key(etype: int, value: bytes, salt: bytes, s2kparams: bytes)

  /** One principal, key version and key. Strings are byte strings; the timestamp is in Unix seconds,
      and absent when the entry's time is the zero time. */
  datatype Entry = Entry(components: seq<bytes>, realm: bytes, kvno: int, key: Key, timestamp: Option<int>)

  const HEADER: bytes := [0x05, 0x02]
  const MAX_STRING := 0xffff
  const INT31: int := 0x8000_0000
  const UINT32: int := 0x1_0000_0000

  // ----- Writing -----

  function Counted(s: bytes): bytes {
    Be(|s|, 2) + s
  }

  function CountedAll(parts: seq<bytes>): bytes {
    if parts == [] then [] else Counted(parts[0]) + CountedAll(parts[1..])
  }

  /** Service names have several components, and the name type on the wire says so. */
  function NameType(e: Entry): int {
    if |e.components| > 1 then 2 else 1
  }

  function TimeOf(e: Entry, now: int): int {
    match e.timestamp case Some(t) => t case None => now
  }

  /** The key: its type, its length, its value, and the 32 bit key version. */
  function KeyPart(e: Entry): bytes {
    Be(e.key.etype, 2) + (Be(|e.key.value|, 2) + (e.key.value + Be(e.kvno, 4)))
  }

  function Body(e: Entry, now: int): bytes {
    Be(|e.components|, 2) + (Counted(e.realm) + (CountedAll(e.components) +
    (Be(NameType(e), 4) + (Be(TimeOf(e, now), 4) + (Be(e.kvno, 1) + KeyPart(e))))))
  }

  /** Why the writer refuses an entry, if it does. */
  function Objection(e: Entry): Option<Problem> {
    if |e.components| == 0 then Some(NoComponents)
    else if |e.components| > 0x7fff then Some(TooManyComponents)
    else if |e.key.value| > 0xffff then Some(KeyTooLong)
    else if |e.realm| > MAX_STRING || exists c <- e.components :: |c| > MAX_STRING then Some(StringTooLong)
    else None
  }

  function MarshalEntry(e: Entry, now: int): Result<bytes> {
    match Objection(e)
    case Some(p) => Err(p)
    case None => Ok(Be(|Body(e, now)|, 4) + Body(e, now))
  }

  function Prefixed(head: bytes, tail: Result<bytes>): Result<bytes> {
    match tail case Ok(b) => Ok(head + b) case Err(p) => Err(p)
  }

  function MarshalAll(es: seq<Entry>, now: int): Result<bytes> {
    if es == [] then Ok([])
    else match MarshalEntry(es[0], now)
         case Err(p) => Err(p)
         case Ok(b) => Prefixed(b, MarshalAll(es[1..], now))
  }

  function Marshal(es: seq<Entry>, now: int): Result<bytes> {
    Prefixed(HEADER, MarshalAll(es, now))
  }

  // ----- Reading -----

  function ReadCounted(b: bytes): (r: Option<(bytes, bytes)>)
    ensures r.Some? ==> |r.value.0| + |r.value.1| + 2 == |b|
  {
    if |b| < 2 then None
    else
      var n := ReadBe(b[..2]);
      if n > |b| - 2 then None else Some((b[2..2 + n], b[2 + n..]))
  }

  function ReadComponents(b: bytes, n: nat): Option<(seq<bytes>, bytes)> {
    if n == 0 then Some(([], b))
    else match ReadCounted(b)
         case None => None
         case Some((c, rest)) =>
           match ReadComponents(rest, n - 1)
           case None => None
           case Some((cs, rest')) => Some(([c] + cs, rest'))
  }

  /** The fields after the names, as bytes. The name type is skipped. */
  datatype Fields = Fields(ts: bytes, kvno8: bytes, etype: bytes, keylen: bytes, rest: bytes)

  function Cut(b: bytes): Fields
    requires |b| >= 13
  {
    Fields(b[4..8], b[8..9], b[9..11], b[11..13], b[13..])
  }

  function ReadFields(f: Fields, components: seq<bytes>, realm: bytes): Result<Entry> {
    var keylen := ReadBe(f.keylen);
    if keylen > |f.rest| then Err(Truncated)
    else
      var after := f.rest[keylen..];
      var kvno := if |after| >= 4 then ReadBe(after[..4]) else ReadBe(f.kvno8);
      Ok(Entry(components, realm, kvno, Key(ReadBe(f.etype), f.rest[..keylen], [], []), Some(ReadBe(f.ts))))
  }

  function ReadKey(b: bytes, components: seq<bytes>, realm: bytes): Result<Entry> {
    if |b| < 13 then Err(Truncated) else ReadFields(Cut(b), components, realm)
  }

  function ParseEntry(b: bytes): Result<Entry> {
    if |b| < 2 then Err(Truncated)
    else match ReadCounted(b[2..])
         case None => Err(Truncated)
         case Some((realm, rest)) =>
           match ReadComponents(rest, ReadBe(b[..2]))
           case None => Err(Truncated)
           case Some((components, rest')) => ReadKey(rest', components, realm)
  }

  function Signed32(n: nat): int {
    if n >= INT31 then n - UINT32 else n
  }

  function Consed(head: seq<Entry>, tail: Result<seq<Entry>>): Result<seq<Entry>> {
    match tail case Ok(es) => Ok(head + es) case Err(p) => Err(p)
  }

  function Followed(head: Result<Entry>, tail: Result<seq<Entry>>): Result<seq<Entry>> {
    match head case Ok(e) => Consed([e], tail) case Err(p) => Err(p)
  }

  /** The entries of a file body. A negative size marks a hole of that many bytes, which is skipped. */
  function ParseAll(rest: bytes): Result<seq<Entry>>
    decreases |rest|
  {
    if rest == [] then Ok([])
    else if |rest| < 4 then Err(Truncated)
    else
      var size := Signed32(ReadBe(rest[..4]));
      var body := rest[4..];
      if size < 0 then
        if -size > |body| then Err(Truncated) else ParseAll(body[-size..])
      else if size == 0 || size > |body| then Err(Truncated)
      else Followed(ParseEntry(body[..size]), ParseAll(body[size..]))
  }

  function Parse(data: bytes): Result<seq<Entry>> {
    if data == [] then Ok([])
    else if |data| < 2 || data[..2] != HEADER then Err(NotKeytab)
    else ParseAll(data[2..])
  }

  // ----- What comes back -----

  /** What a file keeps of an entry: the low bits of the numbers that have a fixed width, and neither
      the salt nor the string-to-key parameters. */
  function Kept(e: Entry, now: int): Entry {
    e.(kvno := e.kvno % UINT32,
       key := Key(e.key.etype % 0x1_0000, e.key.value, [], []),
       timestamp := Some(TimeOf(e, now) % UINT32))
  }

  lemma CountedReadsBack(s: bytes, rest: bytes)
    requires |s| <= MAX_STRING
    ensures ReadCounted(Counted(s) + rest) == Some((s, rest))
  {
    var b := Counted(s) + rest;
    Be2(|s|);
    assert b[..2] == Be(|s|, 2) && b[2..2 + |s|] == s && b[2 + |s|..] == rest;
  }

  lemma ComponentsStep(c: bytes, tail: bytes, cs: seq<bytes>, rest: bytes)
    requires |c| <= MAX_STRING && ReadComponents(tail, |cs|) == Some((cs, rest))
    ensures ReadComponents(Counted(c) + tail, |cs| + 1) == Some(([c] + cs, rest))
  {
    CountedReadsBack(c, tail);
  }

  lemma CountedSplit(parts: seq<bytes>, rest: bytes)
    requires parts != []
    ensures CountedAll(parts) + rest == Counted(parts[0]) + (CountedAll(parts[1..]) + rest)
  {
  }

  lemma {:induction false} ComponentsReadBack(parts: seq<bytes>, rest: bytes)
    requires forall c <- parts :: |c| <= MAX_STRING
    ensures ReadComponents(CountedAll(parts) + rest, |parts|) == Some((parts, rest))
    decreases |parts|
  {
    if parts == [] {
      assert CountedAll(parts) + rest == rest;
    } else {
      CountedSplit(parts, rest);
      ComponentsReadBack(parts[1..], rest);
      ComponentsStep(parts[0], CountedAll(parts[1..]) + rest, parts[1..], rest);
      assert [parts[0]] + parts[1..] == parts;
    }
  }

  /** Where the fields of the fixed part stand. */
  lemma CutFixed(nameType: bytes, ts: bytes, kvno8: bytes, etype: bytes, keylen: bytes, rest: bytes)
    requires |nameType| == |ts| == 4 && |kvno8| == 1 && |etype| == |keylen| == 2
    ensures Cut(nameType + (ts + (kvno8 + (etype + (keylen + rest))))) == Fields(ts, kvno8, etype, keylen, rest)
  {
    var b := nameType + (ts + (kvno8 + (etype + (keylen + rest))));
    assert b[4..8] == ts;
    assert b[8..9] == kvno8;
    assert b[9..11] == etype;
    assert b[11..13] == keylen;
    assert b[13..] == rest;
  }

  lemma FieldsReadBack(ts: bytes, kvno8: bytes, etype: bytes, keylen: bytes, value: bytes, kvno: bytes,
                       components: seq<bytes>, realm: bytes)
    requires |kvno| == 4 && ReadBe(keylen) == |value|
    ensures ReadFields(Fields(ts, kvno8, etype, keylen, value + kvno), components, realm) ==
            Ok(Entry(components, realm, ReadBe(kvno), Key(ReadBe(etype), value, [], []), Some(ReadBe(ts))))
  {
    assert (value + kvno)[..|value|] == value && (value + kvno)[|value|..] == kvno;
    assert kvno[..4] == kvno;
  }

  lemma KeyReadsBack(e: Entry, now: int)
    requires |e.key.value| <= 0xffff
    ensures ReadKey(Be(NameType(e), 4) + (Be(TimeOf(e, now), 4) + (Be(e.kvno, 1) + KeyPart(e))), e.components, e.realm)
            == Ok(Kept(e, now))
  {
    Be4(TimeOf(e, now));
    Be2(e.key.etype);
    Be2(|e.key.value|);
    Be4(e.kvno);
    CutFixed(Be(NameType(e), 4), Be(TimeOf(e, now), 4), Be(e.kvno, 1), Be(e.key.etype, 2), Be(|e.key.value|, 2),
             e.key.value + Be(e.kvno, 4));
    FieldsReadBack(Be(TimeOf(e, now), 4), Be(e.kvno, 1), Be(e.key.etype, 2), Be(|e.key.value|, 2),
                   e.key.value, Be(e.kvno, 4), e.components, e.realm);
  }

  /** Where the names of an entry stand. */
  lemma NamePart(count: bytes, realm: bytes, components: seq<bytes>, fixed: bytes)
    requires |count| == 2 && ReadBe(count) == |components| && |realm| <= MAX_STRING
    requires forall c <- components :: |c| <= MAX_STRING
    ensures ParseEntry(count + (Counted(realm) + (CountedAll(components) + fixed))) == ReadKey(fixed, components, realm)
  {
    var names := CountedAll(components) + fixed;
    var b := count + (Counted(realm) + names);
    assert b[..2] == count && b[2..] == Counted(realm) + names;
    CountedReadsBack(realm, names);
    ComponentsReadBack(components, fixed);
  }

  /** Parsing the body the writer produces gives the entry back, cut to the widths of the format. */
  lemma EntryReadsBack(e: Entry, now: int)
    requires Objection(e).None?
    ensures ParseEntry(Body(e, now)) == Ok(Kept(e, now))
  {
    Be2(|e.components|);
    NamePart(Be(|e.components|, 2), e.realm, e.components,
             Be(NameType(e), 4) + (Be(TimeOf(e, now), 4) + (Be(e.kvno, 1) + KeyPart(e))));
    KeyReadsBack(e, now);
  }

  /** A file as a keytab editor leaves it: entries, and holes where entries were. */
  datatype Item = Live(e: Entry) | Hole(junk: bytes)

  predicate Fits(item: Item, now: int) {
    match item
    case Live(e) => Objection(e).None? && |Body(e, now)| < INT31
    case Hole(junk) => 1 <= |junk| <= INT31
  }

  function ItemBytes(item: Item, now: int): bytes {
    match item
    case Live(e) => Be(|Body(e, now)|, 4) + Body(e, now)
    case Hole(junk) => Be(-|junk|, 4) + junk
  }

  function Layout(items: seq<Item>, now: int): bytes {
    if items == [] then [] else ItemBytes(items[0], now) + Layout(items[1..], now)
  }

  function Survivors(items: seq<Item>, now: int): seq<Entry> {
    if items == [] then []
    else if items[0].Live? then [Kept(items[0].e, now)] + Survivors(items[1..], now)
    else Survivors(items[1..], now)
  }

  lemma RecordPart(size: bytes, body: bytes, rest: bytes)
    requires |size| == 4 && ReadBe(size) == |body| && 0 < |body| < INT31
    ensures ParseAll(size + body + rest) == Followed(ParseEntry(body), ParseAll(rest))
  {
    var b := size + body + rest;
    assert b[..4] == size && b[4..][..|body|] == body && b[4..][|body|..] == rest;
  }

  lemma HolePart(size: bytes, junk: bytes, rest: bytes)
    requires |size| == 4 && ReadBe(size) == UINT32 - |junk| && 0 < |junk| <= INT31
    ensures ParseAll(size + junk + rest) == ParseAll(rest)
  {
    var b := size + junk + rest;
    assert b[..4] == size && b[4..][|junk|..] == rest;
  }

  lemma LiveReadsBack(size: bytes, body: bytes, rest: bytes, e: Entry)
    requires size == Be(|body|, 4) && 0 < |body| < INT31 && ParseEntry(body) == Ok(e)
    ensures ParseAll(size + body + rest) == Consed([e], ParseAll(rest))
  {
    Be4(|body|);
    RecordPart(size, body, rest);
  }

  lemma HoleReadsBack(junk: bytes, rest: bytes)
    requires 0 < |junk| <= INT31
    ensures ParseAll(Be(-|junk|, 4) + junk + rest) == ParseAll(rest)
  {
    Be4(-|junk|);
    ModUnique(-|junk|, UINT32, -1, UINT32 - |junk|);
    HolePart(Be(-|junk|, 4), junk, rest);
  }

  lemma BodyIsLong(e: Entry, now: int)
    ensures |Body(e, now)| > 0
  {
  }

  lemma ItemReadsBack(item: Item, rest: bytes, now: int)
    requires Fits(item, now)
    ensures ParseAll(ItemBytes(item, now) + rest) ==
            (if item.Live? then Consed([Kept(item.e, now)], ParseAll(rest)) else ParseAll(rest))
  {
    match item
    case Live(e) =>
      EntryReadsBack(e, now);
      BodyIsLong(e, now);
      LiveReadsBack(Be(|Body(e, now)|, 4), Body(e, now), rest, Kept(e, now));
    case Hole(junk) =>
      HoleReadsBack(junk, rest);
  }

  lemma {:induction false} ItemsReadBack(items: seq<Item>, now: int)
    requires forall item <- items :: Fits(item, now)
    ensures ParseAll(Layout(items, now)) == Ok(Survivors(items, now))
    decreases |items|
  {
    if items != [] {
      ItemReadsBack(items[0], Layout(items[1..], now), now);
      ItemsReadBack(items[1..], now);
    }
  }

  /** Parsing any file of entries and holes gives exactly its entries, in order. */
  lemma LayoutReadsBack(items: seq<Item>, now: int)
    requires forall item <- items :: Fits(item, now)
    ensures Parse(HEADER + Layout(items, now)) == Ok(Survivors(items, now))
  {
    var data := HEADER + Layout(items, now);
    assert data[..2] == HEADER && data[2..] == Layout(items, now);
    ItemsReadBack(items, now);
  }

  function Lives(es: seq<Entry>): seq<Item> {
    seq(|es|, i requires 0 <= i < |es| => Live(es[i]))
  }

  function KeptAll(es: seq<Entry>, now: int): seq<Entry> {
    seq(|es|, i requires 0 <= i < |es| => Kept(es[i], now))
  }

  lemma {:induction false} MarshalIsLayout(es: seq<Entry>, now: int)
    requires forall e <- es :: Objection(e).None?
    ensures MarshalAll(es, now) == Ok(Layout(Lives(es), now))
    decreases |es|
  {
    if es != [] {
      MarshalIsLayout(es[1..], now);
      assert Lives(es)[1..] == Lives(es[1..]);
      assert Layout(Lives(es), now) == ItemBytes(Live(es[0]), now) + Layout(Lives(es[1..]), now);
    }
  }

  lemma {:induction false} LivesSurvive(es: seq<Entry>, now: int)
    ensures Survivors(Lives(es), now) == KeptAll(es, now)
    decreases |es|
  {
    if es != [] {
      LivesSurvive(es[1..], now);
      assert Lives(es)[1..] == Lives(es[1..]);
      assert KeptAll(es, now) == [Kept(es[0], now)] + KeptAll(es[1..], now);
    }
  }

  /** Writing entries and reading them back gives what a file keeps of each, in order. */
  lemma MarshalReadsBack(es: seq<Entry>, now: int)
    requires forall e <- es :: Objection(e).None? && |Body(e, now)| < INT31
    ensures Marshal(es, now).Ok? && Parse(Marshal(es, now).value) == Ok(KeptAll(es, now))
  {
    MarshalIsLayout(es, now);
    LivesSurvive(es, now);
    LayoutReadsBack(Lives(es), now);
  }

  /** The numbers of an entry fit the widths the format gives them. */
  predicate InWidth(e: Entry) {
    && 0 <= e.kvno < UINT32 && 0 <= e.key.etype < 0x1_0000
    && e.timestamp.Some? && 0 <= e.timestamp.value < UINT32
  }

  function Unsalted(e: Entry): Entry {
    e.(key := e.key.(salt := [], s2kparams := []))
  }

  lemma KeptIffInWidth(e: Entry, now: int)
    requires e.timestamp.Some?
    ensures Kept(e, now) == Unsalted(e) <==> InWidth(e)
  {
  }

  function UnsaltedAll(es: seq<Entry>): seq<Entry> {
    seq(|es|, i requires 0 <= i < |es| => Unsalted(es[i]))
  }

  /** The round trip gives the entries back, but for salt and string-to-key parameters, exactly when
      their numbers fit their widths. */
  lemma RoundTripIffInWidth(es: seq<Entry>, now: int)
    requires forall e <- es :: Objection(e).None? && |Body(e, now)| < INT31 && e.timestamp.Some?
    ensures Marshal(es, now).Ok?
    ensures Parse(Marshal(es, now).value) == Ok(UnsaltedAll(es)) <==> forall e <- es :: InWidth(e)
  {
    MarshalReadsBack(es, now);
    forall i | 0 <= i < |es| ensures KeptAll(es, now)[i] == UnsaltedAll(es)[i] <==> InWidth(es[i]) {
      KeptIffInWidth(es[i], now);
    }
    assert (forall e <- es :: InWidth(e)) <==> forall i | 0 <= i < |es| :: InWidth(es[i]);
    assert KeptAll(es, now) == UnsaltedAll(es) <==>
           forall i | 0 <= i < |es| :: KeptAll(es, now)[i] == UnsaltedAll(es)[i];
  }

  // ----- Merging -----

  function Decimal(n: nat): bytes {
    if n < 10 then [48 + n] else Decimal(n / 10) + [48 + n % 10]
  }

  function Number(n: int): bytes {
    if n < 0 then [45] + Decimal(-n) else Decimal(n)
  }

  function Joined(parts: seq<bytes>): bytes {
    if parts == [] then []
    else if |parts| == 1 then parts[0]
    else parts[0] + [47] + Joined(parts[1..])
  }

  /** "name@REALM|kvno|etype": what makes two entries the same one. */
  function Id(e: Entry): bytes {
    Joined(e.components) + [64] + e.realm + [124] + Number(e.kvno) + [124] + Number(e.key.etype)
  }

  function Ids<T(==)>(es: seq<T>, id: T -> bytes): set<bytes> {
    set e | e in es :: id(e)
  }

  function Without<T>(es: seq<T>, id: T -> bytes, ids: set<bytes>): seq<T> {
    if es == [] then []
    else if id(es[0]) in ids then Without(es[1..], id, ids)
    else [es[0]] + Without(es[1..], id, ids)
  }

  function MergeBy<T(==)>(existing: seq<T>, added: seq<T>, id: T -> bytes): seq<T> {
    Without(existing, id, Ids(added, id)) + added
  }

  function Merge(existing: seq<Entry>, added: seq<Entry>): seq<Entry> {
    MergeBy(existing, added, Id)
  }

  /** The elements with one identity, in the order they stand. */
  function WithId<T>(es: seq<T>, id: T -> bytes, wanted: bytes): seq<T> {
    if es == [] then []
    else if id(es[0]) == wanted then [es[0]] + WithId(es[1..], id, wanted)
    else WithId(es[1..], id, wanted)
  }

  lemma {:induction false} WithoutSplits<T>(a: seq<T>, b: seq<T>, id: T -> bytes, ids: set<bytes>)
    ensures Without(a + b, id, ids) == Without(a, id, ids) + Without(b, id, ids)
    decreases |a|
  {
    if a == [] {
      assert a + b == b;
    } else {
      WithoutSplits(a[1..], b, id, ids);
      assert (a + b)[1..] == a[1..] + b;
    }
  }

  lemma {:induction false} WithoutAgain<T>(es: seq<T>, id: T -> bytes, ids: set<bytes>)
    ensures Without(Without(es, id, ids), id, ids) == Without(es, id, ids)
    ensures (forall e <- es :: id(e) in ids) ==> Without(es, id, ids) == []
    decreases |es|
  {
    if es != [] {
      WithoutAgain(es[1..], id, ids);
      var tail := Without(es[1..], id, ids);
      assert ([es[0]] + tail)[1..] == tail;
    }
  }

  lemma MergeByTwice<T>(existing: seq<T>, added: seq<T>, id: T -> bytes)
    ensures MergeBy(MergeBy(existing, added, id), added, id) == MergeBy(existing, added, id)
  {
    var ids := Ids(added, id);
    WithoutSplits(Without(existing, id, ids), added, id, ids);
    WithoutAgain(existing, id, ids);
    WithoutAgain(added, id, ids);
  }

  /** Adding the same entries a second time changes nothing. */
  lemma MergeTwiceIsMergeOnce(existing: seq<Entry>, added: seq<Entry>)
    ensures Merge(Merge(existing, added), added) == Merge(existing, added)
  {
    MergeByTwice(existing, added, Id);
  }

  lemma {:induction false} WithIdSplits<T>(a: seq<T>, b: seq<T>, id: T -> bytes, wanted: bytes)
    ensures WithId(a + b, id, wanted) == WithId(a, id, wanted) + WithId(b, id, wanted)
    decreases |a|
  {
    if a == [] {
      assert a + b == b;
    } else {
      WithIdSplits(a[1..], b, id, wanted);
      assert (a + b)[1..] == a[1..] + b;
    }
  }

  lemma {:induction false} WithIdOfWithout<T>(es: seq<T>, id: T -> bytes, ids: set<bytes>, wanted: bytes)
    ensures WithId(Without(es, id, ids), id, wanted) == (if wanted in ids then [] else WithId(es, id, wanted))
    decreases |es|
  {
    if es != [] {
      WithIdOfWithout(es[1..], id, ids, wanted);
      var tail := Without(es[1..], id, ids);
      assert ([es[0]] + tail)[1..] == tail;
    }
  }

  lemma {:induction false} WithIdOfNone<T>(es: seq<T>, id: T -> bytes, wanted: bytes)
    requires forall e <- es :: id(e) != wanted
    ensures WithId(es, id, wanted) == []
    decreases |es|
  {
    if es != [] { WithIdOfNone(es[1..], id, wanted); }
  }

  lemma MergeByReplaces<T>(existing: seq<T>, added: seq<T>, id: T -> bytes, wanted: bytes)
    ensures WithId(MergeBy(existing, added, id), id, wanted) ==
            (if wanted in Ids(added, id) then WithId(added, id, wanted) else WithId(existing, id, wanted))
  {
    WithIdSplits(Without(existing, id, Ids(added, id)), added, id, wanted);
    WithIdOfWithout(existing, id, Ids(added, id), wanted);
    if wanted !in Ids(added, id) { WithIdOfNone(added, id, wanted); }
  }

  // ----- What makes two entries the same -----

  /** The same principal, key version and enctype. */
  predicate SameEntry(a: Entry, b: Entry) {
    && Joined(a.components) + [64] + a.realm == Joined(b.components) + [64] + b.realm
    && a.kvno == b.kvno && a.key.etype == b.key.etype
  }

  predicate NoBar(b: bytes) {
    forall i | 0 <= i < |b| :: b[i] != 124
  }

  /** The number some digits stand for. */
  function Digits(b: bytes): int {
    if b == [] then 0 else 10 * Digits(b[..|b| - 1]) + b[|b| - 1] - 48
  }

  lemma {:induction false} DecimalReads(n: nat)
    ensures Digits(Decimal(n)) == n && Decimal(n) != []
    ensures forall i | 0 <= i < |Decimal(n)| :: 48 <= Decimal(n)[i] <= 57
    decreases n
  {
    if n >= 10 {
      DecimalReads(n / 10);
      assert Decimal(n)[..|Decimal(n)| - 1] == Decimal(n / 10);
    } else {
      assert Decimal(n)[..0] == [];
    }
  }

  lemma NumberReads(m: int, n: int)
    ensures NoBar(Number(n)) && (Number(m) == Number(n) ==> m == n)
  {
    DecimalReads(if m < 0 then -m else m);
    DecimalReads(if n < 0 then -n else n);
    assert m < 0 ==> Number(m)[0] == 45 && Number(m)[1..] == Decimal(-m);
    assert n < 0 ==> Number(n)[0] == 45 && Number(n)[1..] == Decimal(-n);
  }

  lemma LastBar(a: bytes, b: bytes, a': bytes, b': bytes)
    requires a + [124] + b == a' + [124] + b' && NoBar(b) && NoBar(b')
    ensures a == a' && b == b'
  {
    var s := a + [124] + b;
    assert s[|a|] == 124 && s[|a'|] == 124;
    assert forall i | |a| < i < |s| :: s[i] == b[i - |a| - 1];
    assert forall i | |a'| < i < |s| :: s[i] == b'[i - |a'| - 1];
    assert |a| == |a'|;
    assert a == s[..|a|] && b == s[|a| + 1..];
    assert a' == s[..|a'|] && b' == s[|a'| + 1..];
  }

  /** The text that identifies an entry tells apart exactly principal, version and enctype: whatever bytes the
      names hold, the numbers hold no separator. */
  lemma IdIff(a: Entry, b: Entry)
    ensures Id(a) == Id(b) <==> SameEntry(a, b)
  {
    NumberReads(a.kvno, b.kvno);
    NumberReads(b.kvno, a.kvno);
    NumberReads(a.key.etype, b.key.etype);
    NumberReads(b.key.etype, a.key.etype);
    var x, y := Joined(a.components) + [64] + a.realm, Joined(b.components) + [64] + b.realm;
    if Id(a) == Id(b) {
      LastBar(x + [124] + Number(a.kvno), Number(a.key.etype), y + [124] + Number(b.kvno), Number(b.key.etype));
      LastBar(x, Number(a.kvno), y, Number(b.kvno));
    }
  }

  /** Some added entry takes the place of `e`. */
  predicate Replaced(e: Entry, added: seq<Entry>) {
    exists k | 0 <= k < |added| :: SameEntry(added[k], e)
  }

  lemma ReplacedIff(e: Entry, added: seq<Entry>)
    ensures Id(e) in Ids(added, Id) <==> Replaced(e, added)
  {
    if Id(e) in Ids(added, Id) {
      var x :| x in added && Id(x) == Id(e);
      IdIff(x, e);
      var k :| 0 <= k < |added| && added[k] == x;
      assert SameEntry(added[k], e);
    }
    if k :| 0 <= k < |added| && SameEntry(added[k], e) {
      IdIff(added[k], e);
      assert added[k] in added;
    }
  }

  /** The entries that are the same as `e`, in the order they stand. */
  function Selected(es: seq<Entry>, e: Entry): seq<Entry> {
    if es == [] then []
    else if SameEntry(es[0], e) then [es[0]] + Selected(es[1..], e)
    else Selected(es[1..], e)
  }

  lemma {:induction false} SelectedById(es: seq<Entry>, e: Entry)
    ensures Selected(es, e) == WithId(es, Id, Id(e))
    decreases |es|
  {
    if es != [] {
      IdIff(es[0], e);
      SelectedById(es[1..], e);
    }
  }

  /** Of each principal, key version and enctype a merge holds the added entries if there are any, and otherwise
      the existing ones, all of them and in their order. */
  lemma MergeReplacesById(existing: seq<Entry>, added: seq<Entry>, e: Entry)
    ensures Selected(Merge(existing, added), e) == if Replaced(e, added) then Selected(added, e) else Selected(existing, e)
  {
    MergeByReplaces(existing, added, Id, Id(e));
    SelectedById(Merge(existing, added), e);
    SelectedById(existing, e);
    SelectedById(added, e);
    ReplacedIff(e, added);
  }

  /** The positions among the first `n` whose identity is not replaced. */
  function KeptAt<T>(es: seq<T>, id: T -> bytes, ids: set<bytes>, n: nat): seq<nat>
    requires n <= |es|
  {
    if n == 0 then []
    else if id(es[n - 1]) in ids then KeptAt(es, id, ids, n - 1)
    else KeptAt(es, id, ids, n - 1) + [n - 1]
  }

  predicate IsRank(at: seq<nat>, i: nat, j: nat) {
    j < |at| && at[j] == i
  }

  /** `kept` is `es` at the positions `at`: rising, and all those whose identity is not replaced. */
  ghost predicate IsKept<T(!new)>(es: seq<T>, id: T -> bytes, ids: set<bytes>, n: nat, at: seq<nat>, kept: seq<T>) {
    && n <= |es| && |kept| == |at|
    && (forall j | 0 <= j < |at| :: at[j] < n && kept[j] == es[at[j]] && id(es[at[j]]) !in ids)
    && (forall j, k | 0 <= j < k < |at| :: at[j] < at[k])
    && (forall i: nat | i < n && id(es[i]) !in ids :: exists j: nat :: IsRank(at, i, j))
  }

  lemma OneMoreKept<T(!new)>(es: seq<T>, id: T -> bytes, ids: set<bytes>, n: nat, at: seq<nat>, kept: seq<T>)
    requires n < |es| && IsKept(es, id, ids, n, at, kept)
    ensures if id(es[n]) in ids then IsKept(es, id, ids, n + 1, at, kept)
            else IsKept(es, id, ids, n + 1, at + [n], kept + [es[n]])
  {
    if id(es[n]) !in ids {
      forall i: nat | i < n + 1 && id(es[i]) !in ids ensures exists j: nat :: IsRank(at + [n], i, j) {
        if i == n {
          assert IsRank(at + [n], i, |at|);
        } else {
          var j: nat :| IsRank(at, i, j);
          assert IsRank(at + [n], i, j);
        }
      }
    }
  }

  lemma WithoutOneMore<T>(es: seq<T>, id: T -> bytes, ids: set<bytes>, n: nat)
    requires n < |es|
    ensures Without(es[..n + 1], id, ids) ==
            if id(es[n]) in ids then Without(es[..n], id, ids) else Without(es[..n], id, ids) + [es[n]]
  {
    assert es[..n + 1] == es[..n] + [es[n]];
    WithoutSplits(es[..n], [es[n]], id, ids);
  }

  lemma {:induction false} WithoutIsKept<T(!new)>(es: seq<T>, id: T -> bytes, ids: set<bytes>, n: nat)
    requires n <= |es|
    ensures IsKept(es, id, ids, n, KeptAt(es, id, ids, n), Without(es[..n], id, ids))
    decreases n
  {
    if n > 0 {
      WithoutIsKept(es, id, ids, n - 1);
      OneMoreKept(es, id, ids, n - 1, KeptAt(es, id, ids, n - 1), Without(es[..n - 1], id, ids));
      WithoutOneMore(es, id, ids, n - 1);
    }
  }

  /** `merged` is `existing` at the rising positions `at`, which are all those of entries not replaced, and
      then `added`. */
  ghost predicate InOrder(existing: seq<Entry>, added: seq<Entry>, at: seq<nat>, merged: seq<Entry>) {
    && |merged| == |at| + |added| && merged[|at|..] == added
    && (forall j | 0 <= j < |at| ::
          at[j] < |existing| && merged[j] == existing[at[j]] && !Replaced(existing[at[j]], added))
    && (forall j, k | 0 <= j < k < |at| :: at[j] < at[k])
    && (forall i: nat | i < |existing| && !Replaced(existing[i], added) :: exists j: nat :: IsRank(at, i, j))
  }

  lemma KeptInOrder(existing: seq<Entry>, added: seq<Entry>, ids: set<bytes>, at: seq<nat>, kept: seq<Entry>)
    requires IsKept(existing, Id, ids, |existing|, at, kept)
    requires forall i | 0 <= i < |existing| :: Replaced(existing[i], added) <==> Id(existing[i]) in ids
    ensures InOrder(existing, added, at, kept + added)
  {
    var merged := kept + added;
    assert merged[|at|..] == added;
    forall j | 0 <= j < |at|
      ensures at[j] < |existing| && merged[j] == existing[at[j]] && !Replaced(existing[at[j]], added)
    {
      assert merged[j] == kept[j];
    }
    forall i: nat | i < |existing| && !Replaced(existing[i], added) ensures exists j: nat :: IsRank(at, i, j) {
      assert Id(existing[i]) !in ids;
    }
  }

  /** A merge drops exactly the existing entries for which an entry of the same principal, key version and
      enctype is added, keeps the others in the order they stood, and puts the added ones last. */
  lemma MergeKeepsOrder(existing: seq<Entry>, added: seq<Entry>)
    ensures InOrder(existing, added, KeptAt(existing, Id, Ids(added, Id), |existing|), Merge(existing, added))
  {
    var ids := Ids(added, Id);
    WithoutIsKept(existing, Id, ids, |existing|);
    assert existing[..|existing|] == existing;
    forall i | 0 <= i < |existing| ensures Replaced(existing[i], added) <==> Id(existing[i]) in ids {
      ReplacedIff(existing[i], added);
    }
    KeptInOrder(existing, added, ids, KeptAt(existing, Id, ids, |existing|), Without(existing, Id, ids));
  }

  // ----- The reader and writer as the code runs them -----

  method WriteEntry(e: Entry, now: int) returns (r: Result<bytes>)
    ensures r == MarshalEntry(e, now)
  {
    if |e.components| == 0 { return Err(NoComponents); }
    if |e.components| > 0x7fff { return Err(TooManyComponents); }
    if |e.key.value| > 0xffff { return Err(KeyTooLong); }
    if |e.realm| > MAX_STRING { return Err(StringTooLong); }
    var names := Counted(e.realm);
    for i := 0 to |e.components|
      invariant forall k | 0 <= k < i :: |e.components[k]| <= MAX_STRING
      invariant names + CountedAll(e.components[i..]) == Counted(e.realm) + CountedAll(e.components)
    {
      if |e.components[i]| > MAX_STRING { return Err(StringTooLong); }
      assert e.components[i..][1..] == e.components[i + 1..];
      names := names + Counted(e.components[i]);
    }
    assert names == Counted(e.realm) + CountedAll(e.components);
    var fixed := Be(NameType(e), 4) + (Be(TimeOf(e, now), 4) + (Be(e.kvno, 1) + KeyPart(e)));
    var body := Be(|e.components|, 2) + (names + fixed);
    assert names + fixed == Counted(e.realm) + (CountedAll(e.components) + fixed);
    r := Ok(Be(|body|, 4) + body);
  }

  lemma PrefixedAgain(a: bytes, b: bytes, r: Result<bytes>)
    ensures Prefixed(a, Prefixed(b, r)) == Prefixed(a + b, r)
  {
    if r.Ok? { assert a + (b + r.value) == a + b + r.value; }
  }

  method MarshalKeytab(entries: seq<Entry>, now: int) returns (r: Result<bytes>)
    ensures r == Marshal(entries, now)
  {
    var buf := HEADER;
    for i := 0 to |entries|
      invariant Marshal(entries, now) == Prefixed(buf, MarshalAll(entries[i..], now))
    {
      var eb := WriteEntry(entries[i], now);
      assert entries[i..][1..] == entries[i + 1..];
      if eb.Err? { return Err(eb.problem); }
      PrefixedAgain(buf, eb.value, MarshalAll(entries[i + 1..], now));
      buf := buf + eb.value;
    }
    assert buf + [] == buf;
    r := Ok(buf);
  }

  lemma ConsedAgain(a: seq<Entry>, e: Entry, r: Result<seq<Entry>>)
    ensures Consed(a, Consed([e], r)) == Consed(a + [e], r)
  {
    if r.Ok? { assert a + ([e] + r.value) == a + [e] + r.value; }
  }

  lemma ConsedNothing(r: Result<seq<Entry>>)
    ensures Consed([], r) == r
  {
    if r.Ok? { assert [] + r.value == r.value; }
  }

  /** Reads a file entry by entry, advancing past each one and past every hole. */
  method ParseKeytab(data: bytes) returns (r: Result<seq<Entry>>)
    ensures r == Parse(data)
  {
    if data == [] { return Ok([]); }
    if |data| < 2 || data[..2] != HEADER { return Err(NotKeytab); }
    var entries: seq<Entry> := [];
    var rest := data[2..];
    ConsedNothing(ParseAll(rest));
    while rest != []
      invariant ParseAll(data[2..]) == Consed(entries, ParseAll(rest))
      decreases |rest|
    {
      if |rest| < 4 { return Err(Truncated); }
      var size := Signed32(ReadBe(rest[..4]));
      var body := rest[4..];
      if size < 0 {
        if -size > |body| { return Err(Truncated); }
        rest := body[-size..];
        continue;
      }
      if size == 0 || size > |body| { return Err(Truncated); }
      var e := ParseEntry(body[..size]);
      if e.Err? { return Err(e.problem); }
      ConsedAgain(entries, e.value, ParseAll(body[size..]));
      entries := entries + [e.value];
      rest := body[size..];
    }
    assert entries + [] == entries;
    r := Ok(entries);
  }

  method MergeLists<T(==)>(existing: seq<T>, added: seq<T>, id: T -> bytes) returns (out: seq<T>)
    ensures out == MergeBy(existing, added, id)
  {
    var replaced: set<bytes> := {};
    for i := 0 to |added|
      invariant replaced == set k | 0 <= k < i :: id(added[k])
    {
      replaced := replaced + {id(added[i])};
    }
    assert replaced == Ids(added, id);
    out := [];
    for i := 0 to |existing|
      invariant out + Without(existing[i..], id, replaced) == Without(existing, id, replaced)
    {
      assert existing[i..][1..] == existing[i + 1..];
      if id(existing[i]) !in replaced {
        out := out + [existing[i]];
      }
    }
    assert existing[|existing|..] == [];
    out := out + added;
  }

  method MergeKeytab(existing: seq<Entry>, added: seq<Entry>) returns (out: seq<Entry>)
    ensures out == Merge(existing, added)
  {
    out := MergeLists(existing, added, Id);
  }
}
