/** The advertisement of a resource: a MessagePack map with one-letter keys. */
module Advertisement {
  import opened Basics
  import opened MessagePack
  import ResourceModel
  import PacketFormat

  const MAPHASH_LEN: nat := 4

  datatype Flags = Flags(encrypted: bool, compressed: bool, split: bool, isRequest: bool, isResponse: bool, metadata: bool)

  /** t d n h r o i l q f m. */
  datatype Advertisement = Advertisement(
    transferSize: nat, dataSize: nat, parts: nat,
    hash: Text, randomHash: Text, originalHash: Text,
    segmentIndex: nat, totalSegments: nat, requestId: Text, flags: nat, hashmap: Text)

  const Blank: Advertisement := Advertisement(0, 0, 0, [], [], [], 0, 0, [], 0, [])

  // --------------------------------------------------------------------- flags

  function Bit(b: bool): nat { if b then 1 else 0 }

  function FlagByte(f: Flags): nat {
    Bit(f.encrypted) + 2 * UpperBits(f)
  }

  function UpperBits(f: Flags): nat {
    Bit(f.compressed) + 2 * (Bit(f.split) + 2 * (Bit(f.isRequest) + 2 * (Bit(f.isResponse) + 2 * Bit(f.metadata))))
  }

  /** Each flag is the lowest bit of what is left when those below it are shifted out. */
  function FlagsOf(byte: nat): Flags {
    var upper := byte / 2;
    Flags(byte % 2 == 1, upper % 2 == 1, upper / 2 % 2 == 1, upper / 2 / 2 % 2 == 1, upper / 2 / 2 / 2 % 2 == 1, upper / 2 / 2 / 2 / 2 % 2 == 1)
  }

  lemma {:induction false} FlagsRoundTrip(f: Flags)
    ensures FlagsOf(FlagByte(f)) == f && FlagByte(f) < 64
  {
    var d := Bit(f.isResponse) + 2 * Bit(f.metadata);
    var c := Bit(f.isRequest) + 2 * d;
    var b := Bit(f.split) + 2 * c;
    LowestBit(f.encrypted, UpperBits(f));
    LowestBit(f.compressed, b);
    LowestBit(f.split, c);
    LowestBit(f.isRequest, d);
    LowestBit(f.isResponse, Bit(f.metadata));
  }

  lemma {:induction false} LowestBit(b: bool, n: nat)
    ensures (Bit(b) + 2 * n) / 2 == n && ((Bit(b) + 2 * n) % 2 == 1 <==> b)
  {
  }

  // ------------------------------------------------------------------- packing

  /** The map hashes of a segment; none if the hashmap is too short for it. */
  function Slice(a: Advertisement, segment: nat): Text {
    var start := segment * ResourceModel.HASHMAP_MAX_LEN;
    var end := if start + ResourceModel.HASHMAP_MAX_LEN > a.parts then a.parts else start + ResourceModel.HASHMAP_MAX_LEN;
    if |a.hashmap| >= end * MAPHASH_LEN && end > start then a.hashmap[start * MAPHASH_LEN..end * MAPHASH_LEN] else []
  }

  datatype Field = Number(key: Octet, n: nat) | Binary(key: Octet, b: Text) | Nil(key: Octet)

  const T: Octet := 116
  const D: Octet := 100
  const N: Octet := 110
  const H: Octet := 104
  const R: Octet := 114
  const O: Octet := 111
  const I: Octet := 105
  const L: Octet := 108
  const Q: Octet := 113
  const F: Octet := 102
  const M: Octet := 109

  function Fields(a: Advertisement, hashmap: Text): seq<Field> {
    [Number(T, a.transferSize), Number(D, a.dataSize), Number(N, a.parts),
     Binary(H, a.hash), Binary(R, a.randomHash), Binary(O, a.originalHash),
     Number(I, a.segmentIndex), Number(L, a.totalSegments),
     if a.requestId != [] then Binary(Q, a.requestId) else Nil(Q),
     Number(F, a.flags), Binary(M, hashmap)]
  }

  function PackField(f: Field): Text {
    PackKey(f.key) + match f
                     case Number(_, n) => PackUint(n)
                     case Binary(_, b) => PackBin(b)
                     case Nil(_) => [0xC0]
  }

  /** Fields i and on. */
  function PackFields(fields: seq<Field>, i: nat): Text
    requires i <= |fields|
    decreases |fields| - i
  {
    if i == |fields| then [] else PackField(fields[i]) + PackFields(fields, i + 1)
  }

  function Pack(a: Advertisement, segment: nat): Text {
    [0x80 + 11] + PackFields(Fields(a, Slice(a, segment)), 0)
  }

  // ----------------------------------------------------------------- unpacking

  predicate IsNumberKey(k: Octet) { k == T || k == D || k == N || k == I || k == L || k == F }

  predicate IsBinaryKey(k: Octet) { k == H || k == R || k == O || k == M }

  /** One entry of the map; stops on unknown keys and on values of another type. */
  function ReadField(s: Text): Parsed<Field> {
    match UnpackString(s)
    case Failed => Failed
    case Parsed(key, rest) =>
      if |key| != 1 then Failed
      else if IsNumberKey(key[0]) then
        (match UnpackUint(rest) case Failed => Failed case Parsed(n, rest') => Parsed(Number(key[0], n), rest'))
      else if key[0] == Q && rest != [] && rest[0] == 0xC0 then Parsed(Nil(Q), rest[1..])
      else if IsBinaryKey(key[0]) || key[0] == Q then
        (match UnpackBin(rest) case Failed => Failed case Parsed(b, rest') => Parsed(Binary(key[0], b), rest'))
      else Failed
  }

  /** Numbers are cut to the width of the field they go to. */
  function Store(a: Advertisement, f: Field): Advertisement {
    match f
    case Number(k, n) =>
      if k == T then a.(transferSize := n) else if k == D then a.(dataSize := n)
      else if k == N then a.(parts := n % 0x1_0000_0000)
      else if k == I then a.(segmentIndex := n % 0x1_0000) else if k == L then a.(totalSegments := n % 0x1_0000)
      else if k == F then a.(flags := n % 0x100) else a
    case Binary(k, b) =>
      if k == H then a.(hash := b) else if k == R then a.(randomHash := b) else if k == O then a.(originalHash := b)
      else if k == Q then a.(requestId := b) else if k == M then a.(hashmap := b) else a
    case Nil(_) => a
  }

  /** What was read, and whether the map was read to its end. */
  datatype Reading = Reading(advertisement: Advertisement, whole: bool)

  /** The fields read, in order, up to the first that cannot be read. */
  function ReadFields(s: Text, count: nat): (seq<Field>, bool)
    decreases count
  {
    if count == 0 then ([], true)
    else
      match ReadField(s)
      case Failed => ([], false)
      case Parsed(f, rest) =>
        var (fields, whole) := ReadFields(rest, count - 1);
        ([f] + fields, whole)
  }

  function StoreAll(a: Advertisement, fields: seq<Field>, i: nat): Advertisement
    requires i <= |fields|
    decreases |fields| - i
  {
    if i == |fields| then a else StoreAll(Store(a, fields[i]), fields, i + 1)
  }

  function Unpack(s: Text): Reading {
    match UnpackMapSize(s)
    case Failed => Reading(Blank, false)
    case Parsed(count, rest) =>
      var (fields, whole) := ReadFields(rest, count);
      Reading(StoreAll(Blank, fields, 0), whole)
  }

  // ---------------------------------------------------------------- round trip

  predicate Encodable(f: Field) {
    match f
    case Number(k, n) => IsNumberKey(k) && n < 0x1_0000_0000_0000_0000
    case Binary(k, b) => (IsBinaryKey(k) || k == Q) && |b| < 0x1_0000_0000
    case Nil(k) => k == Q
  }

  predicate AllEncodable(fields: seq<Field>) { forall j :: 0 <= j < |fields| ==> Encodable(fields[j]) }

  lemma {:induction false} FieldRoundTrip(f: Field, rest: Text)
    requires Encodable(f)
    ensures ReadField(PackField(f) + rest) == Parsed(f, rest)
  {
    match f
    case Number(k, n) => NumberRoundTrip(k, n, rest);
    case Binary(k, b) => BinaryRoundTrip(k, b, rest);
    case Nil(k) => NilRoundTrip(rest);
  }

  lemma {:induction false} NumberRoundTrip(k: Octet, n: nat, rest: Text)
    requires IsNumberKey(k) && n < 0x1_0000_0000_0000_0000
    ensures ReadField(PackKey(k) + PackUint(n) + rest) == Parsed(Number(k, n), rest)
  {
    assert PackKey(k) + PackUint(n) + rest == PackKey(k) + (PackUint(n) + rest);
    KeyRoundTrip(k, PackUint(n) + rest);
    UintRoundTrip(n, rest);
  }

  lemma {:induction false} BinaryRoundTrip(k: Octet, b: Text, rest: Text)
    requires (IsBinaryKey(k) || k == Q) && |b| < 0x1_0000_0000
    ensures ReadField(PackKey(k) + PackBin(b) + rest) == Parsed(Binary(k, b), rest)
  {
    var value := PackBin(b) + rest;
    assert PackKey(k) + PackBin(b) + rest == PackKey(k) + value;
    KeyRoundTrip(k, value);
    BinRoundTrip(b, rest);
    ReadsBinary(PackKey(k) + value, k, value, b, rest);
  }

  lemma {:induction false} ReadsBinary(s: Text, k: Octet, value: Text, b: Text, rest: Text)
    requires (IsBinaryKey(k) || k == Q) && UnpackString(s) == Parsed([k], value)
    requires IsBin(value) && UnpackBin(value) == Parsed(b, rest)
    ensures ReadField(s) == Parsed(Binary(k, b), rest)
  {
  }

  lemma {:induction false} NilRoundTrip(rest: Text)
    ensures ReadField(PackKey(Q) + [0xC0] + rest) == Parsed(Nil(Q), rest)
  {
    assert PackKey(Q) + [0xC0] + rest == PackKey(Q) + ([0xC0] + rest);
    KeyRoundTrip(Q, [0xC0] + rest);
    assert ([0xC0] + rest)[1..] == rest;
  }

  lemma {:induction false} FieldsStep(fields: seq<Field>, i: nat, rest: seq<Field>)
    requires i < |fields| && AllEncodable(fields)
    requires ReadFields(PackFields(fields, i + 1), |fields| - i - 1) == (rest, true)
    ensures ReadFields(PackFields(fields, i), |fields| - i) == ([fields[i]] + rest, true)
  {
    FieldRoundTrip(fields[i], PackFields(fields, i + 1));
  }

  lemma {:induction false} FieldsRoundTrip(fields: seq<Field>, i: nat)
    requires i <= |fields| && AllEncodable(fields)
    ensures ReadFields(PackFields(fields, i), |fields| - i) == (fields[i..], true)
    decreases |fields| - i
  {
    if i < |fields| {
      FieldsRoundTrip(fields, i + 1);
      assert fields[i..] == [fields[i]] + fields[i + 1..];
      FieldsStep(fields, i, fields[i + 1..]);
    } else {
      assert fields[i..] == [];
    }
  }

  function FirstSix(a: Advertisement): Advertisement {
    Advertisement(a.transferSize, a.dataSize, a.parts, a.hash, a.randomHash, a.originalHash, 0, 0, [], 0, [])
  }

  lemma {:induction false} StoredFirstSix(a: Advertisement, f: seq<Field>)
    requires a.parts < 0x1_0000_0000 && |f| == 11 && f[10].Binary? && f == Fields(a, f[10].b)
    ensures StoreAll(Blank, f, 0) == StoreAll(FirstSix(a), f, 6)
  {
    var a1 := Blank.(transferSize := a.transferSize);
    var a2 := a1.(dataSize := a.dataSize);
    var a3 := a2.(parts := a.parts);
    var a4 := a3.(hash := a.hash);
    var a5 := a4.(randomHash := a.randomHash);
    assert StoreAll(Blank, f, 0) == StoreAll(a1, f, 1) == StoreAll(a2, f, 2) == StoreAll(a3, f, 3);
    assert StoreAll(a3, f, 3) == StoreAll(a4, f, 4) == StoreAll(a5, f, 5) == StoreAll(FirstSix(a), f, 6);
  }

  /** Storing the eleven fields fills in everything. */
  lemma {:induction false} StoredWhole(a: Advertisement, hashmap: Text)
    requires a.parts < 0x1_0000_0000 && a.segmentIndex < 0x1_0000 && a.totalSegments < 0x1_0000 && a.flags < 0x100
    ensures StoreAll(Blank, Fields(a, hashmap), 0) == a.(hashmap := hashmap)
  {
    var f := Fields(a, hashmap);
    StoredFirstSix(a, f);
    var a7 := FirstSix(a).(segmentIndex := a.segmentIndex);
    var a8 := a7.(totalSegments := a.totalSegments);
    var a9 := a8.(requestId := a.requestId);
    var a10 := a9.(flags := a.flags);
    assert StoreAll(FirstSix(a), f, 6) == StoreAll(a7, f, 7) == StoreAll(a8, f, 8) == StoreAll(a9, f, 9);
    assert StoreAll(a9, f, 9) == StoreAll(a10, f, 10) == StoreAll(a10.(hashmap := hashmap), f, 11);
  }

  /** Fields within the widths of their types. */
  predicate Valid(a: Advertisement) {
    && a.transferSize < 0x1_0000_0000_0000_0000 && a.dataSize < 0x1_0000_0000_0000_0000 && a.parts < 0x1_0000_0000
    && a.segmentIndex < 0x1_0000 && a.totalSegments < 0x1_0000 && a.flags < 0x100
    && |a.hash| < 0x1_0000_0000 && |a.randomHash| < 0x1_0000_0000 && |a.originalHash| < 0x1_0000_0000
    && |a.requestId| < 0x1_0000_0000
  }

  lemma {:induction false} SliceSize(a: Advertisement, segment: nat)
    ensures |Slice(a, segment)| <= ResourceModel.HASHMAP_MAX_LEN * MAPHASH_LEN
  {
  }

  /** Every field comes back, with the hashmap of the segment packed. */
  lemma {:induction false} PackRoundTrip(a: Advertisement, segment: nat)
    requires Valid(a)
    ensures Unpack(Pack(a, segment)) == Reading(a.(hashmap := Slice(a, segment)), true)
  {
    var slice := Slice(a, segment);
    SliceSize(a, segment);
    var fields := Fields(a, slice);
    var s := Pack(a, segment);
    assert s[1..] == PackFields(fields, 0);
    assert UnpackMapSize(s) == Parsed(11, PackFields(fields, 0));
    FieldsRoundTrip(fields, 0);
    assert fields[0..] == fields;
    StoredWhole(a, slice);
  }

  /** The first advertisement carries the first 74 map hashes, and the flags it was built with. */
  lemma {:induction false} AdvertisedHashmap(a: Advertisement, flags: Flags)
    requires Valid(a) && a.flags == FlagByte(flags) && |a.hashmap| == a.parts * MAPHASH_LEN
    ensures var got := Unpack(Pack(a, 0)).advertisement;
            && got.hashmap == a.hashmap[..(if a.parts > ResourceModel.HASHMAP_MAX_LEN then ResourceModel.HASHMAP_MAX_LEN else a.parts) * MAPHASH_LEN]
            && FlagsOf(got.flags) == flags
  {
    PackRoundTrip(a, 0);
    FlagsRoundTrip(flags);
  }

  /** The letters of the map, in the order they go out, and the places of the flags. */
  lemma {:induction false} WireOrder(a: Advertisement, hashmap: Text, f: Flags)
    ensures var fields := Fields(a, hashmap);
            |fields| == 11 && [fields[0].key, fields[1].key, fields[2].key, fields[3].key, fields[4].key, fields[5].key, fields[6].key,
             fields[7].key, fields[8].key, fields[9].key, fields[10].key]
            == ['t' as nat, 'd' as nat, 'n' as nat, 'h' as nat, 'r' as nat, 'o' as nat, 'i' as nat, 'l' as nat, 'q' as nat, 'f' as nat, 'm' as nat]
    ensures FlagByte(f) == Bit(f.encrypted) + 2 * Bit(f.compressed) + 4 * Bit(f.split) + 8 * Bit(f.isRequest)
                           + 16 * Bit(f.isResponse) + 32 * Bit(f.metadata)
  {
  }

  /** A missing request id is nil. */
  lemma {:induction false} EmptyIsNil(a: Advertisement, hashmap: Text)
    ensures Fields(a, hashmap)[8] == if a.requestId == [] then Nil('q' as nat) else Binary('q' as nat, a.requestId)
  {
  }

  /** Flags above the sixth bit are not looked at. */
  lemma {:induction false} HigherBitsAreIgnored(byte: nat, n: nat)
    ensures FlagsOf(byte + 64 * n) == FlagsOf(byte)
  {
    var upper := byte / 2 / 2 / 2;
    Eighth(byte, 8 * n);
    Eighth(upper, n);
    assert (byte + 64 * n) / 2 / 2 / 2 == upper + 8 * n;
  }

  lemma {:induction false} Eighth(m: nat, n: nat)
    ensures (m + 8 * n) / 2 / 2 / 2 == m / 2 / 2 / 2 + n
    ensures (m + 8 * n) % 2 == m % 2 && (m + 8 * n) / 2 % 2 == m / 2 % 2 && (m + 8 * n) / 2 / 2 % 2 == m / 2 / 2 % 2
  {
    Shift(m, 4 * n);
    Shift(m / 2, 2 * n);
    Shift(m / 2 / 2, n);
  }

  lemma {:induction false} Shift(m: nat, n: nat)
    ensures (m + 2 * n) / 2 == m / 2 + n && (m + 2 * n) % 2 == m % 2
  {
  }

  /** Reading stops at an entry that cannot be read, such as one with a key of other than one letter or of another letter. */
  lemma {:induction false} UnreadableStops(s: Text, count: nat)
    requires count > 0
    ensures ReadField(s).Failed? ==> ReadFields(s, count) == ([], false)
    ensures UnpackString(s).Parsed? && |UnpackString(s).value| != 1 ==> ReadField(s).Failed?
    ensures (var key := UnpackString(s);
             key.Parsed? && |key.value| == 1 && key.value[0] !in {T, D, N, H, R, O, I, L, Q, F, M}) ==> ReadField(s).Failed?
  {
  }

  /** All segments, one after the other, up to segment n. */
  function Segments(a: Advertisement, n: nat): Text {
    if n == 0 then [] else Segments(a, n - 1) + Slice(a, n - 1)
  }

  /** The segments a resource sends, in order, are its hashmap: none is left out or sent twice. */
  lemma {:induction false} SegmentsCoverHashmap(a: Advertisement, n: nat)
    requires |a.hashmap| == a.parts * MAPHASH_LEN
    ensures Segments(a, n) == a.hashmap[..Min(n * ResourceModel.HASHMAP_MAX_LEN, a.parts) * MAPHASH_LEN]
  {
    if n > 0 {
      SegmentsCoverHashmap(a, n - 1);
      SliceFollows(a, n - 1);
    }
  }

  lemma {:induction false} SliceFollows(a: Advertisement, n: nat)
    requires |a.hashmap| == a.parts * MAPHASH_LEN
    ensures var before, after := Min(n * ResourceModel.HASHMAP_MAX_LEN, a.parts), Min((n + 1) * ResourceModel.HASHMAP_MAX_LEN, a.parts);
            Slice(a, n) == a.hashmap[before * MAPHASH_LEN..after * MAPHASH_LEN]
  {
  }

  // ---------------------------------------------------------------------- size

  const LINK_MDU: nat := 431

  predicate Ordinary(a: Advertisement) {
    && a.transferSize < 0x1_0000_0000 && a.dataSize < 0x1_0000_0000 && a.parts < 0x1_0000
    && a.segmentIndex < 128 && a.totalSegments < 128 && a.flags < 64
    && |a.hash| == 32 && |a.randomHash| == 4 && |a.originalHash| == 32 && |a.requestId| <= 16
  }

  lemma {:induction false} PackStep(fields: seq<Field>, i: nat)
    requires i < |fields|
    ensures |PackFields(fields, i)| == |PackField(fields[i])| + |PackFields(fields, i + 1)|
  {
  }

  lemma {:induction false} NumberSize(k: Octet, n: nat)
    ensures n < 0x1_0000_0000 ==> |PackField(Number(k, n))| <= 7
    ensures n < 0x1_0000 ==> |PackField(Number(k, n))| <= 5
    ensures n < 128 ==> |PackField(Number(k, n))| == 3
  {
  }

  lemma {:induction false} BinarySize(k: Octet, b: Text)
    ensures |b| < 0x100 ==> |PackField(Binary(k, b))| == 4 + |b|
    ensures |b| < 0x1_0000 ==> |PackField(Binary(k, b))| <= 5 + |b|
  {
  }

  lemma {:induction false} FirstSixSteps(f: seq<Field>)
    requires |f| >= 6
    ensures |PackFields(f, 0)| == |PackField(f[0])| + |PackField(f[1])| + |PackField(f[2])|
                                  + |PackField(f[3])| + |PackField(f[4])| + |PackField(f[5])| + |PackFields(f, 6)|
  {
    PackStep(f, 0);
    PackStep(f, 1);
    PackStep(f, 2);
    PackStep(f, 3);
    PackStep(f, 4);
    PackStep(f, 5);
  }

  lemma {:induction false} FirstSixSize(a: Advertisement, f: seq<Field>)
    requires Ordinary(a) && |f| == 11 && f[10].Binary? && f == Fields(a, f[10].b)
    ensures |PackFields(f, 0)| <= 99 + |PackFields(f, 6)|
  {
    NumberSize(f[0].key, f[0].n);
    NumberSize(f[1].key, f[1].n);
    NumberSize(f[2].key, f[2].n);
    BinarySize(f[3].key, f[3].b);
    BinarySize(f[4].key, f[4].b);
    BinarySize(f[5].key, f[5].b);
    FirstSixSteps(f);
  }

  lemma {:induction false} LastFiveSize(a: Advertisement, f: seq<Field>)
    requires Ordinary(a) && |f| == 11 && f[10].Binary? && f == Fields(a, f[10].b) && |f[10].b| <= ResourceModel.HASHMAP_MAX_LEN * MAPHASH_LEN
    ensures |PackFields(f, 6)| <= 330
  {
    assert |PackField(f[6])| == 3 && |PackField(f[7])| == 3 && |PackField(f[8])| <= 20;
    assert |PackField(f[9])| == 3 && |PackField(f[10])| <= 301;
    PackStep(f, 6);
    PackStep(f, 7);
    PackStep(f, 8);
    PackStep(f, 9);
    PackStep(f, 10);
    assert PackFields(f, 11) == [];
  }

  /** An advertisement of ordinary size fits a link packet. */
  lemma {:induction false} AdvertisementFits(a: Advertisement, flags: Flags, segment: nat)
    requires a.flags == FlagByte(flags) && Ordinary(a.(flags := 0))
    ensures |Pack(a, segment)| <= 430 < LINK_MDU
  {
    SliceSize(a, segment);
    FlagsRoundTrip(flags);
    var f := Fields(a, Slice(a, segment));
    FirstSixSize(a, f);
    LastFiveSize(a, f);
  }

  // ----------------------------------------------------------------------- MDU

  const IFAC_MIN_SIZE: nat := 1
  const TOKEN_OVERHEAD: nat := 48
  const BLOCK: nat := 16

  /** A token: overhead, and the payload padded to whole blocks with at least one byte. */
  function TokenSize(payload: nat): nat { TOKEN_OVERHEAD + (payload / BLOCK + 1) * BLOCK }

  /** update_mdu. */
  function Mdu(mtu: nat): int {
    if mtu >= IFAC_MIN_SIZE + PacketFormat.HEADER_MINSIZE + TOKEN_OVERHEAD
    then (mtu - IFAC_MIN_SIZE - PacketFormat.HEADER_MINSIZE - TOKEN_OVERHEAD) / BLOCK * BLOCK - 1
    else -((IFAC_MIN_SIZE + PacketFormat.HEADER_MINSIZE + TOKEN_OVERHEAD - mtu) / BLOCK) * BLOCK - 1
  }

  /** The MDU is the largest payload whose token fits a packet, at every MTU. */
  lemma {:induction false} MduIsLargest(mtu: nat, payload: nat)
    ensures IFAC_MIN_SIZE + PacketFormat.HEADER_MINSIZE + TokenSize(payload) <= mtu <==> payload <= Mdu(mtu)
    ensures Mdu(500) == LINK_MDU
  {
    var room := mtu - IFAC_MIN_SIZE - PacketFormat.HEADER_MINSIZE - TOKEN_OVERHEAD;
    if room >= 0 {
      Blocks(payload, room);
    }
  }

  lemma {:induction false} Blocks(payload: nat, room: nat)
    ensures (payload / BLOCK + 1) * BLOCK <= room <==> payload <= room / BLOCK * BLOCK - 1
  {
    var q, r := payload / BLOCK, room / BLOCK;
    assert payload == q * BLOCK + payload % BLOCK && room == r * BLOCK + room % BLOCK;
  }
}
