/** The part of MessagePack that advertisements and request envelopes use. Encoders pick the shortest form; decoders take any. */
module MessagePack {
  import opened Basics

  type Text = seq<Octet>

  datatype Parsed<+T> = Failed | Parsed(value: T, rest: Text)

  // ------------------------------------------------------------- big endian

  function Power(width: nat): nat { if width == 0 then 1 else 0x100 * Power(width - 1) }

  function BigEndian(n: nat, width: nat): (r: Text)
    ensures |r| == width
  {
    if width == 0 then [] else BigEndian(n / 0x100, width - 1) + [n % 0x100]
  }

  function FromBigEndian(s: Text): nat
    decreases |s|
  {
    if s == [] then 0 else FromBigEndian(s[..|s| - 1]) * 0x100 + s[|s| - 1]
  }

  lemma {:induction false} BigEndianRoundTrip(n: nat, width: nat)
    requires n < Power(width)
    ensures FromBigEndian(BigEndian(n, width)) == n
    decreases width
  {
    if width > 0 {
      BigEndianRoundTrip(n / 0x100, width - 1);
      assert BigEndian(n, width)[..width - 1] == BigEndian(n / 0x100, width - 1);
    }
  }

  lemma {:induction false} FromBigEndianRoundTrip(s: Text)
    ensures BigEndian(FromBigEndian(s), |s|) == s
    decreases |s|
  {
    if s != [] {
      FromBigEndianRoundTrip(s[..|s| - 1]);
      assert s == s[..|s| - 1] + [s[|s| - 1]];
      LowestByte(FromBigEndian(s[..|s| - 1]), s[|s| - 1]);
    }
  }

  lemma {:induction false} LowestByte(n: nat, b: Octet)
    ensures (n * 0x100 + b) / 0x100 == n && (n * 0x100 + b) % 0x100 == b
  {
  }

  lemma {:induction false} Powers()
    ensures Power(1) == 0x100 && Power(2) == 0x1_0000 && Power(4) == 0x1_0000_0000 && Power(8) == 0x1_0000_0000_0000_0000
  {
    assert Power(3) == 0x100_0000;
    assert Power(5) == 0x100_0000_0000 && Power(6) == 0x1_0000_0000_0000 && Power(7) == 0x100_0000_0000_0000;
  }

  /** A tag, then a number of so many bytes. */
  function Tagged(tag: Octet, n: nat, width: nat): (r: Text)
    ensures |r| == 1 + width
  {
    [tag] + BigEndian(n, width)
  }

  function ReadNumber(s: Text, width: nat): Parsed<nat> {
    if |s| < 1 + width then Failed else Parsed(FromBigEndian(s[1..1 + width]), s[1 + width..])
  }

  lemma {:induction false} ReadTagged(tag: Octet, n: nat, width: nat, rest: Text)
    requires n < Power(width)
    ensures ReadNumber(Tagged(tag, n, width) + rest, width) == Parsed(n, rest)
  {
    var s := Tagged(tag, n, width) + rest;
    BigEndianRoundTrip(n, width);
    assert s[1..1 + width] == BigEndian(n, width);
    assert s[1 + width..] == rest;
  }

  // ----------------------------------------------------- unsigned integers

  function PackUint(n: nat): (r: Text)
    ensures |r| <= 9 && (n < 0x80 ==> |r| == 1) && (n < 0x1_0000 ==> |r| <= 3) && (n < 0x1_0000_0000 ==> |r| <= 5)
  {
    if n < 0x80 then [n]
    else if n < 0x100 then Tagged(0xCC, n, 1)
    else if n < 0x1_0000 then Tagged(0xCD, n, 2)
    else if n < 0x1_0000_0000 then Tagged(0xCE, n, 4)
    else Tagged(0xCF, n, 8)
  }

  function UnpackUint(s: Text): Parsed<nat> {
    if s == [] then Failed
    else if s[0] < 0x80 then Parsed(s[0], s[1..])
    else if s[0] == 0xCC then ReadNumber(s, 1)
    else if s[0] == 0xCD then ReadNumber(s, 2)
    else if s[0] == 0xCE then ReadNumber(s, 4)
    else if s[0] == 0xCF then ReadNumber(s, 8)
    else Failed
  }

  lemma {:induction false} UintRoundTrip(n: nat, rest: Text)
    requires n < 0x1_0000_0000_0000_0000
    ensures UnpackUint(PackUint(n) + rest) == Parsed(n, rest)
  {
    Powers();
    if n < 0x80 {
      assert ([n] + rest)[1..] == rest;
    } else if n < 0x100 {
      ReadTagged(0xCC, n, 1, rest);
    } else if n < 0x1_0000 {
      ReadTagged(0xCD, n, 2, rest);
    } else if n < 0x1_0000_0000 {
      ReadTagged(0xCE, n, 4, rest);
    } else {
      ReadTagged(0xCF, n, 8, rest);
    }
  }

  // ----------------------------------------------------------------- binary

  function BinHead(size: nat): (r: Text)
    ensures |r| == if size < 0x100 then 2 else if size < 0x1_0000 then 3 else 5
  {
    if size < 0x100 then Tagged(0xC4, size, 1) else if size < 0x1_0000 then Tagged(0xC5, size, 2) else Tagged(0xC6, size, 4)
  }

  function PackBin(b: Text): (r: Text)
    ensures |r| == |BinHead(|b|)| + |b|
  {
    BinHead(|b|) + b
  }

  predicate IsBin(s: Text) { s != [] && 0xC4 <= s[0] <= 0xC6 }

  function BinSize(s: Text): Parsed<nat>
    requires IsBin(s)
  {
    if s[0] == 0xC4 then ReadNumber(s, 1) else if s[0] == 0xC5 then ReadNumber(s, 2) else ReadNumber(s, 4)
  }

  function UnpackBin(s: Text): Parsed<Text> {
    if !IsBin(s) then Failed
    else
      match BinSize(s)
      case Failed => Failed
      case Parsed(size, rest) => if |rest| < size then Failed else Parsed(rest[..size], rest[size..])
  }

  lemma {:induction false} BinRoundTrip(b: Text, rest: Text)
    requires |b| < 0x1_0000_0000
    ensures IsBin(PackBin(b) + rest) && UnpackBin(PackBin(b) + rest) == Parsed(b, rest)
  {
    var s := PackBin(b) + rest;
    assert s == BinHead(|b|) + (b + rest);
    BinSizeRoundTrip(|b|, b + rest);
    assert (b + rest)[..|b|] == b && (b + rest)[|b|..] == rest;
  }

  lemma {:induction false} BinSizeRoundTrip(size: nat, rest: Text)
    requires size < 0x1_0000_0000
    ensures IsBin(BinHead(size) + rest) && BinSize(BinHead(size) + rest) == Parsed(size, rest)
  {
    Powers();
    if size < 0x100 {
      ReadTagged(0xC4, size, 1, rest);
    } else if size < 0x1_0000 {
      ReadTagged(0xC5, size, 2, rest);
    } else {
      ReadTagged(0xC6, size, 4, rest);
    }
  }

  // ------------------------------------------------------- arrays and maps

  function PackArraySize(n: nat): (r: Text)
    ensures |r| == if n < 16 then 1 else if n < 0x1_0000 then 3 else 5
  {
    if n < 16 then [0x90 + n] else if n < 0x1_0000 then Tagged(0xDC, n, 2) else Tagged(0xDD, n, 4)
  }

  function UnpackArraySize(s: Text): Parsed<nat> {
    if s == [] then Failed
    else if 0x90 <= s[0] < 0xA0 then Parsed(s[0] - 0x90, s[1..])
    else if s[0] == 0xDC then ReadNumber(s, 2)
    else if s[0] == 0xDD then ReadNumber(s, 4)
    else Failed
  }

  function UnpackMapSize(s: Text): Parsed<nat> {
    if s == [] then Failed
    else if 0x80 <= s[0] < 0x90 then Parsed(s[0] - 0x80, s[1..])
    else if s[0] == 0xDE then ReadNumber(s, 2)
    else if s[0] == 0xDF then ReadNumber(s, 4)
    else Failed
  }

  // -------------------------------------------------------------- short keys

  /** A string of one character. */
  function PackKey(c: Octet): Text { [0xA1, c] }

  function StringSize(s: Text): Parsed<nat> {
    if s == [] then Failed
    else if 0xA0 <= s[0] < 0xC0 then Parsed(s[0] - 0xA0, s[1..])
    else if s[0] == 0xD9 then ReadNumber(s, 1)
    else if s[0] == 0xDA then ReadNumber(s, 2)
    else if s[0] == 0xDB then ReadNumber(s, 4)
    else Failed
  }

  function UnpackString(s: Text): Parsed<Text> {
    match StringSize(s)
    case Failed => Failed
    case Parsed(size, rest) => if |rest| < size then Failed else Parsed(rest[..size], rest[size..])
  }

  lemma {:induction false} KeyRoundTrip(c: Octet, rest: Text)
    ensures UnpackString(PackKey(c) + rest) == Parsed([c], rest)
  {
    var s := PackKey(c) + rest;
    assert s[1..] == [c] + rest;
    assert ([c] + rest)[..1] == [c] && ([c] + rest)[1..] == rest;
  }

  // ----------------------------------------------------------------- floats

  /** A float by its bits: four bytes or eight. */
  datatype Float = Float32(bits: Text) | Float64(bits: Text)

  predicate ValidFloat(f: Float) { |f.bits| == if f.Float32? then 4 else 8 }

  function PackFloat(f: Float): Text { [if f.Float32? then 0xCA else 0xCB] + f.bits }

  function UnpackFloat(s: Text): Parsed<Float> {
    if s == [] then Failed
    else if s[0] == 0xCA then if |s| < 5 then Failed else Parsed(Float32(s[1..5]), s[5..])
    else if s[0] == 0xCB then if |s| < 9 then Failed else Parsed(Float64(s[1..9]), s[9..])
    else Failed
  }

  lemma {:induction false} FloatRoundTrip(f: Float, rest: Text)
    requires ValidFloat(f)
    ensures UnpackFloat(PackFloat(f) + rest) == Parsed(f, rest)
  {
    var s := PackFloat(f) + rest;
    assert s[1..1 + |f.bits|] == f.bits && s[1 + |f.bits|..] == rest;
  }

  // ---------------------------------------------------------- shortest form

  /** A head of the same length as the shortest is the shortest, so re-encoding finds where it ends exactly then. */
  lemma {:induction false} ArrayHeadExact(s: Text)
    requires UnpackArraySize(s).Parsed?
    ensures var p := UnpackArraySize(s);
            && |PackArraySize(p.value)| + |p.rest| <= |s|
            && (|PackArraySize(p.value)| + |p.rest| == |s| <==> s == PackArraySize(p.value) + p.rest)
  {
    Powers();
    var p := UnpackArraySize(s);
    if 0x90 <= s[0] < 0xA0 {
      assert s == [s[0]] + s[1..];
    } else {
      var width := if s[0] == 0xDC then 2 else 4;
      HeadShape(s, width);
    }
  }

  lemma {:induction false} HeadShape(s: Text, width: nat)
    requires ReadNumber(s, width).Parsed?
    ensures s == Tagged(s[0], ReadNumber(s, width).value, width) + ReadNumber(s, width).rest
    ensures ReadNumber(s, width).value < Power(width)
  {
    FromBigEndianRoundTrip(s[1..1 + width]);
    FromBigEndianBound(s[1..1 + width]);
    assert s == [s[0]] + s[1..1 + width] + s[1 + width..];
  }

  lemma {:induction false} FromBigEndianBound(s: Text)
    ensures FromBigEndian(s) < Power(|s|)
    decreases |s|
  {
    if s != [] { FromBigEndianBound(s[..|s| - 1]); }
  }

  function BinWidth(tag: Octet): nat { if tag == 0xC4 then 1 else if tag == 0xC5 then 2 else 4 }

  lemma {:induction false} BinHeadLeast(tag: Octet, size: nat)
    requires 0xC4 <= tag <= 0xC6 && size < Power(BinWidth(tag))
    ensures |BinHead(size)| <= 1 + BinWidth(tag)
    ensures |BinHead(size)| == 1 + BinWidth(tag) ==> BinHead(size) == Tagged(tag, size, BinWidth(tag))
  {
    Powers();
  }

  lemma {:induction false} BinHeadExact(s: Text)
    requires UnpackBin(s).Parsed?
    ensures var p := UnpackBin(s);
            && |PackBin(p.value)| + |p.rest| <= |s|
            && (|PackBin(p.value)| + |p.rest| == |s| <==> s == PackBin(p.value) + p.rest)
  {
    var p, width := UnpackBin(s), BinWidth(s[0]);
    HeadShape(s, width);
    var number := ReadNumber(s, width);
    assert number.rest == p.value + p.rest && number.value == |p.value|;
    BinHeadLeast(s[0], |p.value|);
    BinJoin(Tagged(s[0], |p.value|, width), p.value, p.rest);
  }

  lemma {:induction false} BinJoin(head: Text, value: Text, rest: Text)
    ensures |head| == |BinHead(|value|)| ==> (head + (value + rest) == PackBin(value) + rest <==> head == BinHead(|value|))
  {
    var s, t := head + (value + rest), PackBin(value) + rest;
    assert t == BinHead(|value|) + (value + rest);
    if |head| == |BinHead(|value|)| && s == t {
      assert s[..|head|] == head && t[..|head|] == BinHead(|value|);
    }
  }

  // ------------------------------------------------------------- on the wire

  /** Examples of the specification's encodings, one for each form. */
  lemma {:induction false} WireForms()
    ensures PackUint(5) == [5] && PackUint(200) == [0xCC, 200] && PackUint(0x1234) == [0xCD, 0x12, 0x34]
    ensures PackUint(0x1234_5678) == [0xCE, 0x12, 0x34, 0x56, 0x78]
  {
    TwoBytes(0x12, 0x34);
    FourBytes(0x12, 0x34, 0x56, 0x78);
  }

  lemma {:induction false} WireSizes()
    ensures PackBin([7]) == [0xC4, 1, 7] && BinHead(0x1234) == [0xC5, 0x12, 0x34] && BinHead(0x1234_5678) == [0xC6, 0x12, 0x34, 0x56, 0x78]
    ensures PackArraySize(3) == [0x93] && PackArraySize(0x1234) == [0xDC, 0x12, 0x34]
    ensures PackKey(116) == [0xA1, 116] && PackFloat(Float64([1, 2, 3, 4, 5, 6, 7, 8])) == [0xCB, 1, 2, 3, 4, 5, 6, 7, 8]
  {
    TwoBytes(0x12, 0x34);
    FourBytes(0x12, 0x34, 0x56, 0x78);
  }

  lemma {:induction false} TwoBytes(a: Octet, b: Octet)
    ensures BigEndian(a * 0x100 + b, 2) == [a, b]
  {
    LowestByte(a, b);
    LowestByte(0, a);
    assert BigEndian(a, 1) == [a];
  }

  lemma {:induction false} FourBytes(a: Octet, b: Octet, c: Octet, d: Octet)
    ensures BigEndian(((a * 0x100 + b) * 0x100 + c) * 0x100 + d, 4) == [a, b, c, d]
  {
    TwoBytes(a, b);
    LowestByte(a * 0x100 + b, c);
    LowestByte((a * 0x100 + b) * 0x100 + c, d);
  }

  // ------------------------------------------------------------ what is read

  /** The numbers after a tag are read in every width, shortest or not. */
  lemma {:induction false} AnyWidthIsRead(tag: Octet, width: nat, n: nat, rest: Text)
    requires (tag, width) in {(0xCC, 1), (0xCD, 2), (0xCE, 4), (0xCF, 8)} && n < Power(width)
    ensures UnpackUint(Tagged(tag, n, width) + rest) == Parsed(n, rest)
  {
    ReadTagged(tag, n, width, rest);
  }

  lemma {:induction false} AnyStringSizeIsRead(tag: Octet, width: nat, n: nat, rest: Text)
    requires (tag, width) in {(0xD9, 1), (0xDA, 2), (0xDB, 4)} && n < Power(width)
    ensures StringSize(Tagged(tag, n, width) + rest) == Parsed(n, rest)
  {
    ReadTagged(tag, n, width, rest);
  }

  lemma {:induction false} AnySizeIsRead(tag: Octet, width: nat, n: nat, rest: Text)
    requires n < Power(width)
    ensures (tag, width) in {(0xC4, 1), (0xC5, 2), (0xC6, 4)} ==>
              IsBin(Tagged(tag, n, width) + rest) && BinSize(Tagged(tag, n, width) + rest) == Parsed(n, rest)
    ensures (tag, width) in {(0xDC, 2), (0xDD, 4)} ==> UnpackArraySize(Tagged(tag, n, width) + rest) == Parsed(n, rest)
    ensures (tag, width) in {(0xDE, 2), (0xDF, 4)} ==> UnpackMapSize(Tagged(tag, n, width) + rest) == Parsed(n, rest)
  {
    ReadTagged(tag, n, width, rest);
  }

  /** The sizes that fit into the first byte. */
  lemma {:induction false} ShortFormsAreRead(n: nat, rest: Text)
    ensures n < 0x80 ==> UnpackUint([n] + rest) == Parsed(n, rest)
    ensures n < 16 ==> UnpackArraySize([0x90 + n] + rest) == Parsed(n, rest) && UnpackMapSize([0x80 + n] + rest) == Parsed(n, rest)
    ensures n < 32 ==> StringSize([0xA0 + n] + rest) == Parsed(n, rest)
  {
    if n < 0x80 {
      assert ([n] + rest)[1..] == rest;
    }
    if n < 32 {
      assert ([0xA0 + n] + rest)[1..] == rest;
    }
    if n < 16 {
      assert ([0x90 + n] + rest)[1..] == rest && ([0x80 + n] + rest)[1..] == rest;
    }
  }

  /** Bytes that begin with another tag, or not at all, are refused. */
  lemma {:induction false} OtherTagsAreRefused(s: Text)
    ensures UnpackUint(s).Parsed? ==> s != [] && (s[0] < 0x80 || 0xCC <= s[0] <= 0xCF)
    ensures UnpackArraySize(s).Parsed? ==> s != [] && (0x90 <= s[0] < 0xA0 || s[0] in {0xDC, 0xDD})
    ensures UnpackMapSize(s).Parsed? ==> s != [] && (0x80 <= s[0] < 0x90 || s[0] in {0xDE, 0xDF})
    ensures StringSize(s).Parsed? ==> s != [] && (0xA0 <= s[0] < 0xC0 || s[0] in {0xD9, 0xDA, 0xDB})
    ensures UnpackBin(s).Parsed? ==> s != [] && s[0] in {0xC4, 0xC5, 0xC6}
    ensures UnpackFloat(s).Parsed? ==> s != [] && s[0] in {0xCA, 0xCB}
  {
  }
}
