/** The three signalling bytes of a link request and of its proof, and how each hop clamps the MTU they carry. */
module Signalling {
  import opened Basics
  import opened PacketFormat

  type Mtu = m: nat | m < 0x1_0000

  const DEFAULT_MTU: Mtu := 500
  const MODE_AES128_CBC: Byte := 0
  const MODE_AES256_CBC: Byte := 1
  const MODE_DEFAULT: Byte := MODE_AES256_CBC

  predicate Enabled(mode: Byte) { mode == MODE_AES256_CBC }

  datatype Interface = Interface(index: nat, hwMtu: Mtu, autoconfigure: bool, fixedMtu: bool)

  // ------------------------------------------------------------------- codec

  /** The byte with this value. */
  function ByteOf(n: nat): (b: Byte)
    requires n < 0x100
    ensures b as nat == n
  {
    if n == 0 then 0
    else
      var b := ByteOf(n - 1);
      Successor(b);
      b + 1
  }

  lemma {:induction false} Successor(b: Byte)
    requires (b as nat) < 0xFF
    ensures (b + 1) as nat == (b as nat) + 1
  {
  }

  /** signalling_bytes, once the mode is known to be enabled: a 21-bit MTU field under three mode bits. */
  function SignallingBytes(mtu: Mtu, mode: Byte): Raw {
    [(mode << 5) & 0xE0, ByteOf(mtu / 0x100), ByteOf(mtu % 0x100)]
  }

  /** Both decoders of the MTU keep sixteen of its bits. */
  function SignalledMtu(bytes: Raw): Mtu
    requires |bytes| == LINK_MTU_SIZE
  {
    (bytes[1] as nat) * 0x100 + (bytes[2] as nat)
  }

  function SignalledMode(bytes: Raw): Byte
    requires |bytes| == LINK_MTU_SIZE
  {
    (bytes[0] & 0xE0) >> 5
  }

  lemma {:induction false} SignallingRoundTrip(mtu: Mtu, mode: Byte)
    requires mode <= 7
    ensures var bytes := SignallingBytes(mtu, mode);
            |bytes| == LINK_MTU_SIZE && SignalledMtu(bytes) == mtu && SignalledMode(bytes) == mode
  {
  }

  /** On the wire: one big-endian number of 24 bits, the mode above 21 bits for the MTU. */
  lemma {:induction false} SignallingIsBigEndian(mtu: Mtu, mode: Byte)
    requires mode <= 7
    ensures var b := SignallingBytes(mtu, mode);
            b[0] as nat * 0x1_0000 + b[1] as nat * 0x100 + b[2] as nat == mode as nat * 0x20_0000 + mtu
  {
    ShiftedMode(mode);
  }

  lemma {:induction false} ShiftedMode(mode: Byte)
    requires mode <= 7
    ensures ((mode << 5) & 0xE0) as nat == mode as nat * 32
  {
  }

  /** mtu_from_lr_packet and mode_from_lr_packet, on the data of a link request. */
  function RequestMtu(data: Raw): Mtu {
    if |data| == ECPUBSIZE + LINK_MTU_SIZE then SignalledMtu(data[ECPUBSIZE..]) else 0
  }

  function RequestMode(data: Raw): Byte {
    if |data| > ECPUBSIZE then (data[ECPUBSIZE] & 0xE0) >> 5 else MODE_DEFAULT
  }

  /** What a link request signals is read from it; without signalling there is no MTU, and the default mode. */
  lemma {:induction false} RequestSignals(keys: Raw, mtu: Mtu, mode: Byte, data: Raw)
    requires |keys| == ECPUBSIZE && mode <= 7
    ensures var signalled := keys + SignallingBytes(mtu, mode); RequestMtu(signalled) == mtu && RequestMode(signalled) == mode
    ensures |data| != ECPUBSIZE + LINK_MTU_SIZE ==> RequestMtu(data) == 0
    ensures |data| <= ECPUBSIZE ==> RequestMode(data) == MODE_AES256_CBC
  {
    var bytes := SignallingBytes(mtu, mode);
    SignallingRoundTrip(mtu, mode);
    assert (keys + bytes)[ECPUBSIZE..] == bytes;
  }

  // ---------------------------------------------------------------- clamping

  datatype Decision = Keep | Drop | Edit(rewrite: Rewrite)

  predicate Strips(outward: Interface) {
    outward.hwMtu == 0 || (!outward.autoconfigure && !outward.fixedMtu)
  }

  /** What a transit node does to the signalled MTU of a link request. */
  function ClampDecision(mtu: Mtu, mode: Byte, inward: Interface, outward: Interface): Decision {
    if mtu == 0 then Keep
    else if Strips(outward) then Edit(StripMtu)
    else if outward.hwMtu < mtu || (inward.hwMtu != 0 && inward.hwMtu < mtu) then
      if Enabled(mode) then
        Edit(ClampMtu(SignallingBytes(Min(outward.hwMtu, if inward.hwMtu > 0 then inward.hwMtu else outward.hwMtu), mode)))
      else Drop
    else Keep
  }

  datatype Hop = Hop(inward: Interface, outward: Interface)

  /** The MTU signalled after a hop; zero is no signalling. */
  function HopMtu(mtu: Mtu, hop: Hop): Mtu {
    if mtu == 0 || Strips(hop.outward) then 0
    else Min(Min(mtu, hop.outward.hwMtu), if hop.inward.hwMtu == 0 then mtu else hop.inward.hwMtu)
  }

  function PathMtu(mtu: Mtu, hops: seq<Hop>): Mtu
    decreases |hops|
  {
    if hops == [] then mtu else PathMtu(HopMtu(mtu, hops[0]), hops[1..])
  }

  /** Every hardware MTU that a hop holds the link to. */
  predicate Bounds(m: Mtu, hop: Hop) {
    m == hop.outward.hwMtu || (m != 0 && m == hop.inward.hwMtu)
  }

  lemma {:induction false} HopMtuIsMinimum(mtu: Mtu, hop: Hop)
    requires mtu != 0
    ensures HopMtu(mtu, hop) == 0 <==> Strips(hop.outward)
    ensures HopMtu(mtu, hop) <= mtu
    ensures HopMtu(mtu, hop) <= hop.outward.hwMtu
    ensures hop.inward.hwMtu != 0 ==> HopMtu(mtu, hop) <= hop.inward.hwMtu
    ensures HopMtu(mtu, hop) == 0 || HopMtu(mtu, hop) == mtu || Bounds(HopMtu(mtu, hop), hop)
  {
  }

  /** Nothing arrives exactly when some hop strips the signalling. */
  lemma {:induction false} StrippedExactlyWhen(mtu: Mtu, hops: seq<Hop>)
    requires mtu != 0
    ensures PathMtu(mtu, hops) == 0 <==> exists i :: 0 <= i < |hops| && Strips(hops[i].outward)
    decreases |hops|
  {
    if hops != [] {
      HopMtuIsMinimum(mtu, hops[0]);
      if Strips(hops[0].outward) {
        StrippedStays(hops[1..]);
      } else {
        StrippedExactlyWhen(HopMtu(mtu, hops[0]), hops[1..]);
        assert forall i :: 0 < i < |hops| ==> hops[i] == hops[1..][i - 1];
        if i :| 0 <= i < |hops[1..]| && Strips(hops[1..][i].outward) {
          assert Strips(hops[i + 1].outward);
        }
      }
    }
  }

  /** It arrives exactly when every hop goes out over an interface of known, fixed or negotiable MTU. */
  lemma {:induction false} SignallingArrives(mtu: Mtu, hops: seq<Hop>)
    requires mtu != 0
    ensures PathMtu(mtu, hops) != 0
            <==> forall i :: 0 <= i < |hops| ==> hops[i].outward.hwMtu > 0 && (hops[i].outward.autoconfigure || hops[i].outward.fixedMtu)
  {
    StrippedExactlyWhen(mtu, hops);
  }

  /** The MTU that arrives is the least of the signalled one and of all the hardware MTUs along the path. */
  lemma {:induction false} PathMtuIsLeast(mtu: Mtu, hops: seq<Hop>, i: nat, bound: Mtu)
    requires i < |hops| ==> Bounds(bound, hops[i])
    requires i == |hops| ==> bound == mtu
    requires i <= |hops|
    ensures PathMtu(mtu, hops) <= bound
    decreases |hops|
  {
    if mtu == 0 {
      StrippedStays(hops);
    } else if hops != [] {
      HopMtuIsMinimum(mtu, hops[0]);
      var next := HopMtu(mtu, hops[0]);
      if 0 < i < |hops| {
        PathMtuIsLeast(next, hops[1..], i - 1, bound);
      } else {
        PathMtuIsLeast(next, hops[1..], |hops[1..]|, next);
      }
    }
  }

  /** It is one of them. */
  lemma {:induction false} PathMtuIsAttained(mtu: Mtu, hops: seq<Hop>)
    requires PathMtu(mtu, hops) != 0
    ensures PathMtu(mtu, hops) == mtu || exists i :: 0 <= i < |hops| && Bounds(PathMtu(mtu, hops), hops[i])
    decreases |hops|
  {
    if mtu == 0 {
      StrippedStays(hops);
    } else if hops != [] {
      HopMtuIsMinimum(mtu, hops[0]);
      var next := HopMtu(mtu, hops[0]);
      if next == 0 {
        StrippedStays(hops[1..]);
      }
      PathMtuIsAttained(next, hops[1..]);
      if PathMtu(mtu, hops) != next {
        var i :| 0 <= i < |hops[1..]| && Bounds(PathMtu(mtu, hops), hops[1..][i]);
        assert Bounds(PathMtu(mtu, hops), hops[i + 1]);
      }
    }
  }

  lemma {:induction false} StrippedStays(hops: seq<Hop>)
    ensures PathMtu(0, hops) == 0
    decreases |hops|
  {
    if hops != [] { StrippedStays(hops[1..]); }
  }

  /** The decision a transit node takes, as the MTU it signals. */
  lemma {:induction false} ClampIsHopMtu(mtu: Mtu, mode: Byte, inward: Interface, outward: Interface)
    requires Enabled(mode)
    ensures var next := HopMtu(mtu, Hop(inward, outward));
            match ClampDecision(mtu, mode, inward, outward)
            case Keep => next == mtu
            case Edit(StripMtu) => mtu != 0 && next == 0
            case Edit(ClampMtu(bytes)) => mtu != 0 && next != 0 && bytes == SignallingBytes(next, mode)
            case _ => false
  {
  }
}
