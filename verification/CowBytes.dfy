/**
 Bytes: a handle on a buffer that other handles may share. A handle that is exclusive writes
 its buffer in place; one that is not makes its own first. Each handle should behave as if it
 held a value of its own.
 */
module CowBytes {
  import opened Basics

  type Value = seq<Octet>

  // ---------------------------------------------------------------------- hex

  /** The value of one hexadecimal character, and of whatever other byte stands in its place. */
  function Digit(c: Octet): (d: nat)
    ensures d < 25
  {
    var k := c % 32;
    if k < 16 then k + 9 else k - 16
  }

  /** The byte of two characters, cut to eight bits. */
  function Pair(x: Octet, y: Octet): Octet {
    var sum := Digit(x) * 16 + Digit(y);
    if sum < 0x100 then sum else sum - 0x100
  }

  /** As the original writes them, with remainders. */
  lemma {:induction false} PairByRemainders(x: Octet, y: Octet)
    ensures Digit(x) == (x % 32 + 9) % 25
    ensures Pair(x, y) == (Digit(x) * 16 + Digit(y)) % 0x100
  {
  }

  /** The bytes of the first n pairs. */
  function Pairs(hex: seq<Octet>, n: nat): Value
    requires 2 * n <= |hex|
  {
    if n == 0 then [] else Pairs(hex, n - 1) + [Pair(hex[2 * n - 2], hex[2 * n - 1])]
  }

  /** assignHex reads pairs and leaves out an odd last character. */
  function FromHex(hex: seq<Octet>): Value { Pairs(hex, |hex| / 2) }

  function HexChar(digit: nat, upper: bool): Octet
    requires digit < 16
  {
    if digit < 10 then 48 + digit else (if upper then 65 else 97) + (digit - 10)
  }

  function HexChars(byte: Octet, upper: bool): seq<Octet> { [HexChar(byte / 16, upper), HexChar(byte % 16, upper)] }

  function ToHex(bytes: Value, upper: bool): (r: seq<Octet>)
    ensures |r| == 2 * |bytes|
    decreases |bytes|
  {
    if bytes == [] then []
    else
      ToHex(bytes[..|bytes| - 1], upper) + HexChars(bytes[|bytes| - 1], upper)
  }

  lemma {:induction false} HexRoundTrip(bytes: Value, upper: bool)
    ensures FromHex(ToHex(bytes, upper)) == bytes
  {
    PairsOfHex(bytes, upper);
  }

  lemma {:induction false} PairsOfHex(bytes: Value, upper: bool)
    ensures Pairs(ToHex(bytes, upper), |bytes|) == bytes
    decreases |bytes|
  {
    if bytes != [] {
      var n := |bytes| - 1;
      PairsOfHex(bytes[..n], upper);
      PairsOfFront(ToHex(bytes[..n], upper), HexChars(bytes[n], upper), n);
      PairOfByte(bytes[n], upper);
      assert bytes == bytes[..n] + [bytes[n]];
    }
  }

  /** The first pairs do not depend on what follows. */
  lemma {:induction false} PairsOfFront(front: seq<Octet>, rest: seq<Octet>, n: nat)
    requires 2 * n <= |front|
    ensures Pairs(front + rest, n) == Pairs(front, n)
    decreases n
  {
    if n > 0 { PairsOfFront(front, rest, n - 1); }
  }

  lemma {:induction false} PairOfByte(byte: Octet, upper: bool)
    ensures Pair(HexChar(byte / 16, upper), HexChar(byte % 16, upper)) == byte
  {
    DigitOfChar(byte / 16, upper);
    DigitOfChar(byte % 16, upper);
  }

  lemma {:induction false} DigitOfChar(digit: nat, upper: bool)
    requires digit < 16
    ensures Digit(HexChar(digit, upper)) == digit
  {
  }

  // --------------------------------------------------------------------- order

  /** The order of std::vector. */
  function Less(a: Value, b: Value): bool
    decreases |a|
  {
    b != [] && (a == [] || a[0] < b[0] || (a[0] == b[0] && Less(a[1..], b[1..])))
  }

  lemma {:induction false} LessIsStrict(a: Value, b: Value)
    ensures !(Less(a, b) && Less(b, a))
    ensures !Less(a, b) && !Less(b, a) <==> a == b
    decreases |a|
  {
    if a != [] && b != [] {
      LessIsStrict(a[1..], b[1..]);
      if a[0] == b[0] && a[1..] == b[1..] {
        assert a == [a[0]] + a[1..] == b;
      }
    }
  }

  /** The order of bytes: by the first that differs, and a proper beginning comes before the whole. */
  lemma {:induction false} LessExactlyWhen(a: Value, b: Value)
    ensures Less(a, b) <==>
              || (|a| < |b| && a == b[..|a|])
              || exists k :: 0 <= k < |a| && k < |b| && a[..k] == b[..k] && a[k] < b[k]
    decreases |a|
  {
    if a != [] && b != [] {
      LessExactlyWhen(a[1..], b[1..]);
      forall k | 0 < k <= |a| && k <= |b| && a[..k] == b[..k] ensures a[0] == b[0] {
        assert a[..k][0] == b[..k][0];
      }
      assert a[..|a|] == a && a[..0] == b[..0];
      if a[0] == b[0] {
        LessOfTails(a, b);
      }
    }
  }

  lemma {:induction false} LessOfTails(a: Value, b: Value)
    requires a != [] && b != [] && a[0] == b[0]
    ensures (|a| < |b| && a == b[..|a|]) <==> (|a[1..]| < |b[1..]| && a[1..] == b[1..][..|a[1..]|])
    ensures (exists k :: 0 <= k < |a| && k < |b| && a[..k] == b[..k] && a[k] < b[k])
            <==> exists k :: 0 <= k < |a[1..]| && k < |b[1..]| && a[1..][..k] == b[1..][..k] && a[1..][k] < b[1..][k]
  {
    assert a == [a[0]] + a[1..] && b == [b[0]] + b[1..];
    if |a| < |b| {
      assert b[..|a|] == [b[0]] + b[1..][..|a[1..]|];
      assert b[..|a|][1..] == b[1..][..|a[1..]|];
    }
    if k :| 0 <= k < |a| && k < |b| && a[..k] == b[..k] && a[k] < b[k] {
      assert k > 0;
      assert a[1..][..k - 1] == a[..k][1..] && b[1..][..k - 1] == b[..k][1..];
      assert a[1..][k - 1] < b[1..][k - 1];
    }
    if k :| 0 <= k < |a[1..]| && k < |b[1..]| && a[1..][..k] == b[1..][..k] && a[1..][k] < b[1..][k] {
      assert a[..k + 1] == [a[0]] + a[1..][..k] && b[..k + 1] == [b[0]] + b[1..][..k];
      assert a[k + 1] < b[k + 1];
    }
  }

  /** The characters of a digit. */
  lemma {:induction false} HexCharIsAscii(digit: nat)
    requires digit < 16
    ensures HexChar(digit, true) == "0123456789ABCDEF"[digit] as nat && HexChar(digit, false) == "0123456789abcdef"[digit] as nat
  {
  }

  // ------------------------------------------------------------------- buffers

  class Buffer {
    var contents: Value

    constructor (contents: Value)
      ensures this.contents == contents
    {
      this.contents := contents;
    }
  }

  /** A buffer held by an exclusive handle is held by no other. */
  ghost predicate Owned(handles: set<Bytes>)
    reads handles
  {
    forall a, b :: a in handles && b in handles && a != b && a.data != null && a.data == b.data ==>
      !a.exclusive && !b.exclusive
  }

  /** The buffer that a change to the handle may write. */
  ghost function Writes(b: Bytes): set<object>
    reads b
  {
    if b.exclusive && b.data != null then {b.data} else {}
  }

  /** All handles but one hold what they held, the way they held it. */
  twostate predicate OthersKept(handles: set<Bytes>, changed: Bytes)
    reads handles, set b | b in handles && b.data != null :: b.data
  {
    forall b :: b in handles && b != changed ==> b.data == old(b.data) && b.exclusive == old(b.exclusive) && b.Value() == old(b.Value())
  }

  class Bytes {
    var data: Buffer?
    var exclusive: bool

    function Value(): Value
      reads this, data
    {
      if data == null then [] else data.contents
    }

    constructor ()
      ensures data == null && exclusive
    {
      data, exclusive := null, true;
    }

    method NewData()
      modifies this
      ensures fresh(data) && exclusive && Value() == []
    {
      data := new Buffer([]);
      exclusive := true;
    }

    /** exclusiveData: afterwards the handle may write its buffer. */
    method ExclusiveData(copy: bool, ghost handles: set<Bytes>)
      requires this in handles && Owned(handles)
      modifies this
      ensures data != null && exclusive && Owned(handles)
      ensures if old(exclusive) && old(data) != null then data == old(data) else fresh(data)
      ensures copy ==> Value() == old(Value())
      ensures OthersKept(handles, this)
      ensures forall b :: b in handles && b != this ==> b.data != data
    {
      if data == null {
        NewData();
      } else if !exclusive {
        if copy && data.contents != [] {
          data := new Buffer(data.contents);
          exclusive := true;
        } else {
          NewData();
        }
      }
    }

    method Clear(ghost handles: set<Bytes>)
      requires this in handles && Owned(handles)
      modifies this
      ensures Owned(handles) && Value() == [] && OthersKept(handles, this)
      ensures data == null
    {
      data, exclusive := null, true;
    }

    /** assign from another handle: the buffer is shared, and neither is exclusive any more. */
    method Assign(source: Bytes, ghost handles: set<Bytes>)
      requires this in handles && source in handles && Owned(handles)
      modifies this, source`exclusive
      ensures Owned(handles) && Value() == old(source.Value())
      ensures data == old(source.data)
      ensures forall b :: b in handles && b != this ==> b.data == old(b.data) && b.Value() == old(b.Value())
    {
      source.exclusive := false;
      data := source.data;
      exclusive := false;
    }

    method AssignChunk(chunk: Value, ghost handles: set<Bytes>)
      requires this in handles && Owned(handles)
      modifies this, Writes(this)
      ensures Owned(handles) && Value() == chunk && OthersKept(handles, this)
      ensures data == null || data == old(data) || fresh(data)
    {
      if chunk == [] {
        data, exclusive := null, true;
        return;
      }
      ExclusiveData(false, handles);
      data.contents := chunk;
    }

    method AppendChunk(chunk: Value, ghost handles: set<Bytes>)
      requires this in handles && Owned(handles)
      modifies this, Writes(this)
      ensures Owned(handles) && Value() == old(Value()) + chunk && OthersKept(handles, this)
      ensures data == null || data == old(data) || fresh(data)
    {
      if chunk == [] {
        return;
      }
      ExclusiveData(true, handles);
      data.contents := data.contents + chunk;
    }

    /** append from another handle. */
    method Append(source: Bytes, ghost handles: set<Bytes>)
      requires this in handles && source in handles && source != this && Owned(handles)
      modifies this, Writes(this)
      ensures Owned(handles) && Value() == old(Value()) + old(source.Value()) && OthersKept(handles, this)
      ensures data == null || data == old(data) || fresh(data)
    {
      if source.data == null || source.data.contents == [] {
        return;
      }
      ExclusiveData(true, handles);
      data.contents := data.contents + source.data.contents;
    }

    method AppendByte(byte: Octet, ghost handles: set<Bytes>)
      requires this in handles && Owned(handles)
      modifies this, Writes(this)
      ensures Owned(handles) && Value() == old(Value()) + [byte] && OthersKept(handles, this)
      ensures data == old(data) || fresh(data)
    {
      ExclusiveData(true, handles);
      data.contents := data.contents + [byte];
    }

    method Resize(size: nat, ghost handles: set<Bytes>)
      requires this in handles && Owned(handles)
      modifies this, Writes(this)
      ensures Owned(handles) && Value() == Resized(old(Value()), size) && OthersKept(handles, this)
      ensures data == null || data == old(data) || fresh(data)
    {
      if size == |Value()| {
        return;
      }
      ExclusiveData(true, handles);
      data.contents := Resized(data.contents, size);
    }

    method AssignHex(hex: seq<Octet>, ghost handles: set<Bytes>)
      requires this in handles && Owned(handles)
      modifies this, Writes(this)
      ensures Owned(handles) && Value() == FromHex(hex) && OthersKept(handles, this)
      ensures data == null || data == old(data) || fresh(data)
    {
      var size := 2 * (|hex| / 2);
      if size == 0 {
        data, exclusive := null, true;
        return;
      }
      ExclusiveData(false, handles);
      data.contents := [];
      PushHex(hex, size, |hex| / 2);
    }

    method AppendHex(hex: seq<Octet>, ghost handles: set<Bytes>)
      requires this in handles && Owned(handles)
      modifies this, Writes(this)
      ensures Owned(handles) && Value() == old(Value()) + FromHex(hex) && OthersKept(handles, this)
      ensures data == null || data == old(data) || fresh(data)
    {
      var size := 2 * (|hex| / 2);
      if size == 0 {
        return;
      }
      ExclusiveData(true, handles);
      PushHex(hex, size, |hex| / 2);
    }

    /** The loop of both: push the byte of each pair. */
    method PushHex(hex: seq<Octet>, size: nat, ghost pairs: nat)
      requires data != null && size == 2 * pairs <= |hex|
      modifies data
      ensures data.contents == old(data.contents) + Pairs(hex, pairs)
    {
      var i := 0;
      ghost var n: nat := 0;
      while i < size
        invariant i == 2 * n && n <= pairs
        invariant data.contents == old(data.contents) + Pairs(hex, n)
      {
        data.contents := data.contents + [Pair(hex[i], hex[i + 1])];
        i, n := i + 2, n + 1;
      }
    }

    /** compare: zero exactly for equal values of the same kind; a null handle is less than any buffer, even an empty one. */
    method Compare(other: Bytes) returns (r: int)
      ensures r == 0 <==> Value() == other.Value() && (data == null <==> other.data == null)
      ensures r < 0 <==> Less(Value(), other.Value()) || (data == null && other.data != null && Value() == other.Value())
      ensures r > 0 <==> Less(other.Value(), Value()) || (data != null && other.data == null && Value() == other.Value())
    {
      LessIsStrict(Value(), other.Value());
      if data == other.data {
        r := 0;
      } else if data == null {
        r := -1;
      } else if other.data == null {
        r := 1;
      } else if Less(data.contents, other.data.contents) {
        r := -1;
      } else if Less(other.data.contents, data.contents) {
        r := 1;
      } else {
        r := 0;
      }
    }

    /** toHex. */
    method Hex(upper: bool) returns (hex: seq<Octet>)
      ensures hex == ToHex(Value(), upper) && FromHex(hex) == Value()
    {
      hex := [];
      var value := Value();
      for i := 0 to |value|
        invariant hex == ToHex(value[..i], upper)
      {
        assert value[..i + 1][..i] == value[..i];
        hex := hex + [HexChar(value[i] / 16, upper), HexChar(value[i] % 16, upper)];
      }
      assert value[..|value|] == value;
      HexRoundTrip(value, upper);
    }

    /** mid. */
    method Mid(begin: nat, length: nat) returns (part: Bytes)
      ensures fresh(part) && (part.data == null || fresh(part.data))
      ensures part.Value() == if begin >= |Value()| then [] else if length > |Value()| - begin then Value()[begin..] else Value()[begin..begin + length]
    {
      part := new Bytes();
      var value := Value();
      if begin >= |value| {
        return;
      }
      var n := if length > |value| - begin then |value| - begin else length;
      part.AssignChunk(value[begin..begin + n], {part});
    }
  }

  /** std::vector::resize. */
  function Resized(value: Value, size: nat): Value {
    if size <= |value| then value[..size] else value + seq(size - |value|, _ => 0)
  }

  // --------------------------------------------------------- value semantics

  datatype Op =
    | ClearOp(target: nat)
    | CopyOp(target: nat, source: nat)
    | AssignOp(target: nat, chunk: Value)
    | AppendOp(target: nat, source: nat)
    | AppendChunkOp(target: nat, chunk: Value)
    | AppendByteOp(target: nat, byte: Octet)
    | ResizeOp(target: nat, size: nat)
    | AssignHexOp(target: nat, hex: seq<Octet>)
    | AppendHexOp(target: nat, hex: seq<Octet>)

  /** Appending a handle to itself is left out. */
  predicate Allowed(op: Op, n: nat) {
    && op.target < n
    && (op.CopyOp? ==> op.source < n)
    && (op.AppendOp? ==> op.source < n && op.source != op.target)
  }

  /** The operation on independent values. */
  function OnValues(values: seq<Value>, op: Op): (r: seq<Value>)
    requires Allowed(op, |values|)
    ensures |r| == |values|
  {
    var value := values[op.target];
    var next := match op
      case ClearOp(_) => []
      case CopyOp(_, source) => values[source]
      case AssignOp(_, chunk) => chunk
      case AppendOp(_, source) => value + values[source]
      case AppendChunkOp(_, chunk) => value + chunk
      case AppendByteOp(_, byte) => value + [byte]
      case ResizeOp(_, size) => Resized(value, size)
      case AssignHexOp(_, hex) => FromHex(hex)
      case AppendHexOp(_, hex) => value + FromHex(hex);
    values[op.target := next]
  }

  function RunOnValues(values: seq<Value>, ops: seq<Op>): (r: seq<Value>)
    requires forall i :: 0 <= i < |ops| ==> Allowed(ops[i], |values|)
    ensures |r| == |values|
    decreases |ops|
  {
    if ops == [] then values else OnValues(RunOnValues(values, ops[..|ops| - 1]), ops[|ops| - 1])
  }

  ghost predicate Distinct(handles: seq<Bytes>) {
    forall i, j :: 0 <= i < j < |handles| ==> handles[i] != handles[j]
  }

  ghost function All(handles: seq<Bytes>): (r: set<Bytes>)
    ensures forall i :: 0 <= i < |handles| ==> handles[i] in r
    ensures forall b :: b in r ==> b in handles
  {
    set b | b in handles
  }

  ghost function Buffers(handles: set<Bytes>): set<object>
    reads handles
  {
    set b | b in handles && b.data != null :: b.data
  }

  ghost predicate Hold(handles: seq<Bytes>, values: seq<Value>)
    reads handles, Buffers(All(handles))
  {
    |handles| == |values| && forall i :: 0 <= i < |handles| ==> handles[i].Value() == values[i]
  }

  /** One operation changes the handles as it changes independent values. */
  method Perform(handles: seq<Bytes>, op: Op, ghost values: seq<Value>)
    requires Distinct(handles) && Owned(All(handles)) && Hold(handles, values) && Allowed(op, |handles|)
    modifies handles, Buffers(All(handles))
    ensures Owned(All(handles)) && Hold(handles, OnValues(values, op))
    ensures forall b :: b in handles ==> b.data == null || b.data in old(Buffers(All(handles))) || fresh(b.data)
  {
    if Extends(op) {
      Extend(handles, op, values);
      return;
    }
    var target := handles[op.target];
    ghost var all := All(handles);
    match op
    case ClearOp(_) => target.Clear(all);
    case CopyOp(_, source) => target.Assign(handles[source], all);
    case AssignOp(_, chunk) => target.AssignChunk(chunk, all);
    case ResizeOp(_, size) => target.Resize(size, all);
    case AssignHexOp(_, hex) => target.AssignHex(hex, all);
  }

  predicate Extends(op: Op) { op.AppendOp? || op.AppendChunkOp? || op.AppendByteOp? || op.AppendHexOp? }

  method Extend(handles: seq<Bytes>, op: Op, ghost values: seq<Value>)
    requires Distinct(handles) && Owned(All(handles)) && Hold(handles, values) && Allowed(op, |handles|) && Extends(op)
    modifies handles, Buffers(All(handles))
    ensures Owned(All(handles)) && Hold(handles, OnValues(values, op))
    ensures forall b :: b in handles ==> b.data == null || b.data in old(Buffers(All(handles))) || fresh(b.data)
  {
    var target := handles[op.target];
    ghost var all := All(handles);
    match op
    case AppendOp(_, source) => target.Append(handles[source], all);
    case AppendChunkOp(_, chunk) => target.AppendChunk(chunk, all);
    case AppendByteOp(_, byte) => target.AppendByte(byte, all);
    case AppendHexOp(_, hex) => target.AppendHex(hex, all);
  }

  /**
   Copy-on-write refines values: after any operations on any handles, each holds what it
   would hold if it had never shared a buffer.
   */
  method Run(handles: seq<Bytes>, ops: seq<Op>, ghost values: seq<Value>)
    requires Distinct(handles) && Owned(All(handles)) && Hold(handles, values)
    requires forall i :: 0 <= i < |ops| ==> Allowed(ops[i], |handles|)
    modifies handles, Buffers(All(handles))
    ensures Owned(All(handles)) && Hold(handles, RunOnValues(values, ops))
  {
    for i := 0 to |ops|
      invariant Owned(All(handles)) && Hold(handles, RunOnValues(values, ops[..i]))
      invariant forall b :: b in handles ==> b.data == null || b.data in old(Buffers(All(handles))) || fresh(b.data)
    {
      assert ops[..i + 1][..i] == ops[..i];
      Perform(handles, ops[i], RunOnValues(values, ops[..i]));
    }
    assert ops[..|ops|] == ops;
  }

  /** A resized value has the size asked for, begins as before and ends in zeros. */
  lemma {:induction false} ResizedExactly(value: Value, size: nat)
    ensures |Resized(value, size)| == size
    ensures forall k :: 0 <= k < size ==> Resized(value, size)[k] == if k < |value| then value[k] else 0
  {
  }
}
