/** The envelopes of requests and responses over a link: a MessagePack array whose last element is spliced in as it is. */
module Envelope {
  import opened Basics
  import opened MessagePack

  datatype Prefix = Prefix(count: nat, stamp: Option<Float>, hash: Text)
  datatype Request = Request(stamp: Float, hash: Text, payload: Text)
  datatype Response = Response(requestId: Text, payload: Text)

  function PackStamp(stamp: Option<Float>): Text { if stamp.Some? then PackFloat(stamp.value) else [] }

  /** The elements before the payload, in shortest form. */
  function PackPrefix(p: Prefix): Text {
    PackArraySize(p.count) + PackStamp(p.stamp) + PackBin(p.hash)
  }

  /** pack_request_envelope; the time stamp by its eight bytes. */
  function PackRequest(stamp: Text, hash: Text, payload: Text): Text {
    PackPrefix(Prefix(3, Some(Float64(stamp)), hash)) + payload
  }

  /** pack_response_envelope. */
  function PackResponse(requestId: Text, payload: Text): Text {
    PackPrefix(Prefix(2, None, requestId)) + payload
  }

  /** What the unpacker reads, and where it really stops. */
  function ReadPrefix(packed: Text, stamped: bool): Parsed<Prefix> {
    match UnpackArraySize(packed)
    case Failed => Failed
    case Parsed(count, rest) =>
      if count < (if stamped then 3 else 2) then Failed
      else if !stamped then ReadHash(count, None, rest)
      else
        match UnpackFloat(rest)
        case Failed => Failed
        case Parsed(stamp, rest') => ReadHash(count, Some(stamp), rest')
  }

  function ReadHash(count: nat, stamp: Option<Float>, rest: Text): Parsed<Prefix> {
    match UnpackBin(rest)
    case Failed => Failed
    case Parsed(hash, rest') => Parsed(Prefix(count, stamp, hash), rest')
  }

  /** The payload is whatever follows as many bytes as the parsed prefix takes when packed again. */
  function Splice(packed: Text, p: Prefix): Option<Text> {
    var cursor := |PackPrefix(p)|;
    if cursor > |packed| then None else Some(packed[cursor..])
  }

  function UnpackRequest(packed: Text): Option<Request> {
    if |packed| < 2 then None
    else
      match ReadPrefix(packed, true)
      case Failed => None
      case Parsed(p, _) =>
        var payload := Splice(packed, p);
        if payload.None? then None else Some(Request(p.stamp.value, p.hash, payload.value))
  }

  function UnpackResponse(packed: Text): Option<Response> {
    if |packed| < 2 then None
    else
      match ReadPrefix(packed, false)
      case Failed => None
      case Parsed(p, _) =>
        var payload := Splice(packed, p);
        if payload.None? then None else Some(Response(p.hash, payload.value))
  }

  // -------------------------------------------------------------- round trips

  lemma {:induction false} HashRoundTrip(p: Prefix, payload: Text)
    requires |p.hash| < 0x1_0000_0000
    ensures ReadHash(p.count, p.stamp, PackBin(p.hash) + payload) == Parsed(p, payload)
  {
    BinRoundTrip(p.hash, payload);
  }

  lemma {:induction false} PrefixRoundTrip(p: Prefix, payload: Text)
    requires (if p.stamp.Some? then 3 else 2) <= p.count < 16 && |p.hash| < 0x1_0000_0000
    requires p.stamp.Some? ==> ValidFloat(p.stamp.value)
    ensures ReadPrefix(PackPrefix(p) + payload, p.stamp.Some?) == Parsed(p, payload)
    ensures Splice(PackPrefix(p) + payload, p) == Some(payload)
  {
    var packed, after := PackPrefix(p) + payload, PackStamp(p.stamp) + (PackBin(p.hash) + payload);
    Regroup([0x90 + p.count], PackStamp(p.stamp), PackBin(p.hash), payload);
    assert packed[1..] == after;
    assert UnpackArraySize(packed) == Parsed(p.count, after);
    HashRoundTrip(p, payload);
    if p.stamp.Some? {
      FloatRoundTrip(p.stamp.value, PackBin(p.hash) + payload);
    } else {
      assert after == PackBin(p.hash) + payload;
    }
    assert packed[|PackPrefix(p)|..] == payload;
  }

  lemma {:induction false} Regroup(a: Text, b: Text, c: Text, d: Text)
    ensures a + b + c + d == a + (b + (c + d))
  {
  }

  /** Every time stamp, hash and payload comes back from a request envelope. */
  lemma {:induction false} RequestRoundTrip(stamp: Text, hash: Text, payload: Text)
    requires |stamp| == 8 && |hash| < 0x1_0000_0000
    ensures UnpackRequest(PackRequest(stamp, hash, payload)) == Some(Request(Float64(stamp), hash, payload))
  {
    PrefixRoundTrip(Prefix(3, Some(Float64(stamp)), hash), payload);
  }

  lemma {:induction false} ResponseRoundTrip(requestId: Text, payload: Text)
    requires |requestId| < 0x1_0000_0000
    ensures UnpackResponse(PackResponse(requestId, payload)) == Some(Response(requestId, payload))
  {
    PrefixRoundTrip(Prefix(2, None, requestId), payload);
  }

  // ---------------------------------------------------------------- exactness

  /** Two heads no longer than what was read of them, and the bytes in between, end where the reading did only if they are what was read. */
  lemma {:induction false} CursorExact(packed: Text, head: Text, after: Text, middle: Text, hashed: Text, bin: Text, rest: Text)
    requires |head| + |after| <= |packed| && (|head| + |after| == |packed| ==> packed == head + after)
    requires after == middle + hashed
    requires |bin| + |rest| <= |hashed| && (|bin| + |rest| == |hashed| ==> hashed == bin + rest)
    ensures var prefix := head + middle + bin;
            |prefix| <= |packed| && (packed[|prefix|..] == rest <==> packed == prefix + rest)
  {
    var prefix := head + middle + bin;
    if packed[|prefix|..] == rest {
      assert |prefix| + |rest| == |packed|;
      assert packed == head + (middle + (bin + rest));
      Regroup(head, middle, bin, rest);
    }
  }

  /**
   On any bytes that parse, whoever packed them, re-encoding finds the payload if and only if
   the prefix is in shortest form. It never runs past the end.
   */
  lemma {:induction false} SpliceExactlyWhen(packed: Text, stamped: bool)
    requires ReadPrefix(packed, stamped).Parsed?
    ensures var parsed := ReadPrefix(packed, stamped);
            && Splice(packed, parsed.value).Some?
            && (Splice(packed, parsed.value).value == parsed.rest <==> packed == PackPrefix(parsed.value) + parsed.rest)
  {
    var parsed, size := ReadPrefix(packed, stamped), UnpackArraySize(packed);
    var p := parsed.value;
    ArrayHeadExact(packed);
    var hashed := if stamped then UnpackFloat(size.rest).rest else size.rest;
    StampShape(size.rest, stamped, hashed);
    BinHeadExact(hashed);
    CursorExact(packed, PackArraySize(p.count), size.rest, PackStamp(p.stamp), hashed, PackBin(p.hash), parsed.rest);
  }

  lemma {:induction false} StampShape(s: Text, stamped: bool, hashed: Text)
    requires if stamped then UnpackFloat(s).Parsed? && hashed == UnpackFloat(s).rest else hashed == s
    ensures s == PackStamp(if stamped then Some(UnpackFloat(s).value) else None) + hashed
  {
    if stamped {
      var n := if s[0] == 0xCA then 5 else 9;
      assert s == [s[0]] + s[1..n] + s[n..];
    }
  }
}
