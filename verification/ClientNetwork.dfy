/** Trusted networks, and the hop of a proxy chain that is taken for the client. */
module ClientNetwork {
  import opened Common

  type Bytes = seq<bv8>

  datatype Network = Network(bytes: Bytes, prefix: nat)

  // ---------- bits ----------

  // Bit k of a byte, the most significant first.
  predicate BitOf(b: bv8, k: nat)
    requires k < 8
  {
    (b & (1 << (7 - k))) != 0
  }

  predicate Bit(a: Bytes, i: nat)
    requires i < 8 * |a|
  {
    BitOf(a[i / 8], i % 8)
  }

  predicate Agree(a: Bytes, b: Bytes, n: nat)
    requires n <= 8 * |a| && n <= 8 * |b|
  {
    forall i: nat | i < n :: Bit(a, i) == Bit(b, i)
  }

  // The first bits of two bytes under the mask of a partial byte.
  predicate SameUnderMask(a: bv8, b: bv8, remaining: nat)
    requires remaining <= 8
  {
    (a & (0xFF << (8 - remaining))) == (b & (0xFF << (8 - remaining)))
  }

  lemma MaskIsBits(a: bv8, b: bv8, remaining: nat)
    requires 1 <= remaining <= 7
    ensures SameUnderMask(a, b, remaining) <==> forall k: nat | k < remaining :: BitOf(a, k) == BitOf(b, k)
  {
    if remaining == 1 {
      assert SameUnderMask(a, b, 1) <==> BitOf(a, 0) == BitOf(b, 0);
    } else {
      MaskIsBits(a, b, remaining - 1);
      MaskStep(a, b, remaining);
      if SameUnderMask(a, b, remaining) {
        forall k: nat | k < remaining ensures BitOf(a, k) == BitOf(b, k) {
          assert k == remaining - 1 || k < remaining - 1;
        }
      }
    }
  }

  lemma MaskStep(a: bv8, b: bv8, remaining: nat)
    requires 2 <= remaining <= 7
    ensures SameUnderMask(a, b, remaining) <==>
              SameUnderMask(a, b, remaining - 1) && BitOf(a, remaining - 1) == BitOf(b, remaining - 1)
  {
    if remaining == 2 {
    } else if remaining == 3 {
    } else if remaining == 4 {
    } else if remaining == 5 {
    } else if remaining == 6 {
    } else {
    }
  }

  lemma SameBits(a: bv8, b: bv8)
    requires forall k: nat | k < 8 :: BitOf(a, k) == BitOf(b, k)
    ensures a == b
  {
    assert BitOf(a, 0) == BitOf(b, 0) && BitOf(a, 1) == BitOf(b, 1) && BitOf(a, 2) == BitOf(b, 2)
      && BitOf(a, 3) == BitOf(b, 3);
    assert BitOf(a, 4) == BitOf(b, 4) && BitOf(a, 5) == BitOf(b, 5) && BitOf(a, 6) == BitOf(b, 6)
      && BitOf(a, 7) == BitOf(b, 7);
  }

  // ---------- membership ----------

  predicate Inside(network: Network, address: Bytes)
    requires network.prefix <= 8 * |network.bytes|
  {
    |address| == |network.bytes| && Agree(address, network.bytes, network.prefix)
  }

  /** Comparing whole bytes and then the rest under a mask decides whether the address agrees with the
      network on its first bits. */
  method Contains(network: Network, address: Bytes) returns (inside: bool)
    requires network.prefix <= 8 * |network.bytes|
    ensures inside <==> Inside(network, address)
  {
    if |address| != |network.bytes| { return false; }
    var whole := network.prefix / 8;
    for index := 0 to whole
      invariant forall j | 0 <= j < index :: address[j] == network.bytes[j]
    {
      if address[index] != network.bytes[index] {
        ByteDiffers(address, network.bytes, index, network.prefix);
        return false;
      }
    }
    var remaining := network.prefix % 8;
    WholeBytes(address, network.bytes, whole);
    if remaining == 0 { return true; }
    inside := SameUnderMask(address[whole], network.bytes[whole], remaining);
    MaskIsBits(address[whole], network.bytes[whole], remaining);
    PartialByte(address, network.bytes, whole, remaining);
  }

  lemma ByteDiffers(a: Bytes, b: Bytes, j: nat, n: nat)
    requires |a| == |b| && n <= 8 * |a| && 8 * (j + 1) <= n && a[j] != b[j]
    ensures !Agree(a, b, n)
  {
    if Agree(a, b, n) {
      forall k: nat | k < 8 ensures BitOf(a[j], k) == BitOf(b[j], k) {
        assert Bit(a, 8 * j + k) == Bit(b, 8 * j + k);
        assert (8 * j + k) / 8 == j && (8 * j + k) % 8 == k;
      }
      SameBits(a[j], b[j]);
    }
  }

  lemma WholeBytes(a: Bytes, b: Bytes, whole: nat)
    requires |a| == |b| && whole <= |a| && forall j | 0 <= j < whole :: a[j] == b[j]
    ensures Agree(a, b, 8 * whole)
  {
    forall i: nat | i < 8 * whole ensures Bit(a, i) == Bit(b, i) { assert i / 8 < whole; }
  }

  lemma PartialByte(a: Bytes, b: Bytes, whole: nat, remaining: nat)
    requires |a| == |b| && whole < |a| && remaining < 8 && Agree(a, b, 8 * whole)
    ensures Agree(a, b, 8 * whole + remaining) <==>
              forall k: nat | k < remaining :: BitOf(a[whole], k) == BitOf(b[whole], k)
  {
    if Agree(a, b, 8 * whole + remaining) {
      forall k: nat | k < remaining ensures BitOf(a[whole], k) == BitOf(b[whole], k) {
        assert Bit(a, 8 * whole + k) == Bit(b, 8 * whole + k);
        assert (8 * whole + k) / 8 == whole && (8 * whole + k) % 8 == k;
      }
    }
    if forall k: nat | k < remaining :: BitOf(a[whole], k) == BitOf(b[whole], k) {
      forall i: nat | i < 8 * whole + remaining ensures Bit(a, i) == Bit(b, i) {
        if i >= 8 * whole { assert i / 8 == whole && i % 8 == i - 8 * whole; }
      }
    }
  }

  method HostBitsZero(bytes: Bytes, prefix: nat) returns (zero: bool)
    requires prefix <= 8 * |bytes|
    ensures zero <==> forall i: nat | prefix <= i < 8 * |bytes| :: !Bit(bytes, i)
  {
    for bit := prefix to 8 * |bytes|
      invariant forall i: nat | prefix <= i < bit :: !Bit(bytes, i)
    {
      if (bytes[bit / 8] & (1 << (7 - bit % 8))) != 0 {
        assert Bit(bytes, bit);
        return false;
      }
    }
    zero := true;
  }

  // ---------- a network is an interval ----------

  function Bits(a: Bytes): (r: seq<bool>)
    ensures |r| == 8 * |a| && forall i: nat | i < 8 * |a| :: r[i] == Bit(a, i)
  {
    seq(8 * |a|, i requires 0 <= i < 8 * |a| => Bit(a, i))
  }

  function Number(bits: seq<bool>): nat {
    if bits == [] then 0 else var n := |bits| - 1; 2 * Number(bits[..n]) + if bits[n] then 1 else 0
  }

  lemma {:induction false} NumberSplits(high: seq<bool>, low: seq<bool>)
    ensures Number(high + low) == Number(high) * Pow2(|low|) + Number(low) && Number(low) < Pow2(|low|)
    decreases |low|
  {
    if low == [] {
      assert high + low == high;
    } else {
      var n := |low| - 1;
      NumberSplits(high, low[..n]);
      assert (high + low)[..|high| + n] == high + low[..n];
      assert Number(high) * Pow2(|low|) == 2 * (Number(high) * Pow2(n)) by { DoublePow(Number(high), n); }
    }
  }

  lemma DoublePow(x: nat, n: nat)
    ensures x * Pow2(n + 1) == 2 * (x * Pow2(n))
  {
    assert Pow2(n + 1) == 2 * Pow2(n);
  }

  lemma {:induction false} NumberInjective(a: seq<bool>, b: seq<bool>)
    requires |a| == |b| && Number(a) == Number(b)
    ensures a == b
    decreases |a|
  {
    if a != [] {
      var n := |a| - 1;
      NumberInjective(a[..n], b[..n]);
      assert a == a[..n] + [a[n]] && b == b[..n] + [b[n]];
    }
  }

  lemma {:induction false} ZeroNumber(bits: seq<bool>)
    requires forall i | 0 <= i < |bits| :: !bits[i]
    ensures Number(bits) == 0
  {
    if bits != [] { ZeroNumber(bits[..|bits| - 1]); }
  }

  // a * p + x lies in [b * p, b * p + p) exactly when a == b, for x < p.
  lemma BlockOf(a: nat, x: nat, b: nat, p: nat)
    requires x < p
    ensures b * p <= a * p + x < b * p + p <==> a == b
  {
    if a < b {
      assert a * p + p <= b * p by { MulMonotone(a + 1, b, p); assert (a + 1) * p == a * p + p; }
    } else if a > b {
      assert b * p + p <= a * p by { MulMonotone(b + 1, a, p); assert (b + 1) * p == b * p + p; }
    }
  }

  lemma MulMonotone(a: nat, b: nat, p: nat)
    requires a <= b
    ensures a * p <= b * p
  {
  }

  lemma AgreeIsPrefix(a: Bytes, b: Bytes, n: nat)
    requires |a| == |b| && n <= 8 * |a|
    ensures Agree(a, b, n) <==> Bits(a)[..n] == Bits(b)[..n]
  {
    if Bits(a)[..n] == Bits(b)[..n] {
      forall i: nat | i < n ensures Bit(a, i) == Bit(b, i) { assert Bits(a)[..n][i] == Bits(b)[..n][i]; }
    }
  }

  function Value(a: Bytes): nat { Number(Bits(a)) }

  lemma IntervalOfBits(a: seq<bool>, b: seq<bool>, n: nat)
    requires |a| == |b| && n <= |b| && forall i | n <= i < |b| :: !b[i]
    ensures a[..n] == b[..n] <==> Number(b) <= Number(a) < Number(b) + Pow2(|b| - n)
  {
    assert a == a[..n] + a[n..] && b == b[..n] + b[n..];
    NumberSplits(a[..n], a[n..]);
    NumberSplits(b[..n], b[n..]);
    ZeroNumber(b[n..]);
    BlockOf(Number(a[..n]), Number(a[n..]), Number(b[..n]), Pow2(|b| - n));
    if Number(a[..n]) == Number(b[..n]) { NumberInjective(a[..n], b[..n]); }
  }

  /** A network whose host bits are zero is exactly the interval of addresses from its own number on, of
      length two to the number of host bits. */
  lemma NetworkIsInterval(network: Network, address: Bytes)
    requires network.prefix <= 8 * |network.bytes| && |address| == |network.bytes|
    requires forall i: nat | network.prefix <= i < 8 * |network.bytes| :: !Bit(network.bytes, i)
    ensures Inside(network, address) <==>
      Value(network.bytes) <= Value(address) < Value(network.bytes) + Pow2(8 * |network.bytes| - network.prefix)
  {
    AgreeIsPrefix(address, network.bytes, network.prefix);
    IntervalOfBits(Bits(address), Bits(network.bytes), network.prefix);
  }

  // ---------- the client of a chain ----------

  datatype Mode = Direct | Always | TrustedProxies

  datatype Config = Config(mode: Mode, trusted: seq<Network>)

  predicate Wellformed(config: Config) {
    forall i | 0 <= i < |config.trusted| :: config.trusted[i].prefix <= 8 * |config.trusted[i].bytes|
  }

  predicate Trusts(config: Config, address: Bytes)
    requires Wellformed(config)
  {
    exists i | 0 <= i < |config.trusted| :: Inside(config.trusted[i], address)
  }

  const MAX_CHAIN: nat := 32

  method IsTrusted(config: Config, address: Bytes) returns (trusted: bool)
    requires Wellformed(config)
    ensures trusted == Trusts(config, address)
  {
    for i := 0 to |config.trusted|
      invariant forall j | 0 <= j < i :: !Inside(config.trusted[j], address)
    {
      var inside := Contains(config.trusted[i], address);
      if inside { return true; }
    }
    trusted := false;
  }

  // The rightmost hop that is not trusted, or the first hop when all are.
  function Rightmost(config: Config, chain: seq<Bytes>): Bytes
    requires Wellformed(config) && chain != []
  {
    var n := |chain| - 1;
    if n == 0 || !Trusts(config, chain[n]) then chain[n] else Rightmost(config, chain[..n])
  }

  // `header` holds the hops parsed from the forwarding header, if the request has one.
  method Resolve(config: Config, peer: Bytes, header: Option<seq<Bytes>>) returns (source: Option<Bytes>)
    requires Wellformed(config)
    ensures source == Resolved(config, peer, header)
  {
    if config.mode.Direct? { return Some(peer); }
    if config.mode.TrustedProxies? {
      var trusted := IsTrusted(config, peer);
      if !trusted { return Some(peer); }
    }
    if header.None? { return Some(peer); }
    var chain := header.value;
    if |chain| < 1 || |chain| > MAX_CHAIN { return None; }
    if config.mode.Always? { return Some(chain[0]); }
    var index := |chain|;
    assert chain[..|chain|] == chain;
    while index > 0
      invariant 0 <= index <= |chain|
      invariant index > 0 ==> Rightmost(config, chain) == Rightmost(config, chain[..index])
      invariant index == 0 ==> Rightmost(config, chain) == chain[0]
    {
      index := index - 1;
      var trusted := IsTrusted(config, chain[index]);
      if !trusted { return Some(chain[index]); }
      assert chain[..index + 1][..index] == chain[..index];
    }
    source := Some(chain[0]);
  }

  function Resolved(config: Config, peer: Bytes, header: Option<seq<Bytes>>): Option<Bytes>
    requires Wellformed(config)
  {
    if config.mode.Direct? || (config.mode.TrustedProxies? && !Trusts(config, peer)) || header.None? then Some(peer)
    else if |header.value| < 1 || |header.value| > MAX_CHAIN then None
    else if config.mode.Always? then Some(header.value[0])
    else Some(Rightmost(config, header.value))
  }

  // Hop k, every later hop being trusted, and k too only if it is the first.
  predicate IsClient(config: Config, chain: seq<Bytes>, k: nat)
    requires Wellformed(config)
  {
    k < |chain| && (forall j | k < j < |chain| :: Trusts(config, chain[j])) && (Trusts(config, chain[k]) ==> k == 0)
  }

  /** In trusted mode the answer is the rightmost untrusted hop, or the first hop when there is none. */
  lemma {:induction false} RightmostUntrusted(config: Config, chain: seq<Bytes>)
    requires Wellformed(config) && chain != []
    ensures exists k: nat :: IsClient(config, chain, k) && Rightmost(config, chain) == chain[k]
    decreases |chain|
  {
    var n := |chain| - 1;
    if n > 0 && Trusts(config, chain[n]) {
      RightmostUntrusted(config, chain[..n]);
      var k: nat :| IsClient(config, chain[..n], k) && Rightmost(config, chain[..n]) == chain[..n][k];
      assert forall j | k < j < n :: chain[j] == chain[..n][j];
      assert IsClient(config, chain, k);
    } else {
      assert IsClient(config, chain, n);
    }
  }

  lemma {:induction false} RightmostIgnoresFront(config: Config, front: seq<Bytes>, chain: seq<Bytes>)
    requires Wellformed(config) && chain != [] && exists k :: 0 <= k < |chain| && !Trusts(config, chain[k])
    ensures Rightmost(config, front + chain) == Rightmost(config, chain)
    decreases |chain|
  {
    var n := |chain| - 1;
    assert (front + chain)[|front| + n] == chain[n];
    if Trusts(config, chain[n]) {
      var k :| 0 <= k < |chain| && !Trusts(config, chain[k]);
      assert chain[..n][k] == chain[k];
      RightmostIgnoresFront(config, front, chain[..n]);
      assert (front + chain)[..|front| + n] == front + chain[..n];
    }
  }

  /** Hops put in front of a chain, which a client can write as it likes, never change the client found
      once some hop is untrusted: the answer is the same, or the chain is refused as too long. */
  lemma PrependingHopsIsUseless(config: Config, peer: Bytes, front: seq<Bytes>, chain: seq<Bytes>)
    requires Wellformed(config) && !config.mode.Always?
    requires |chain| <= MAX_CHAIN && exists k :: 0 <= k < |chain| && !Trusts(config, chain[k])
    ensures |front| + |chain| <= MAX_CHAIN ==>
              Resolved(config, peer, Some(front + chain)) == Resolved(config, peer, Some(chain))
    ensures |front| + |chain| > MAX_CHAIN ==>
              Resolved(config, peer, Some(front + chain)) ==
                if config.mode.TrustedProxies? && Trusts(config, peer) then
                  None else Resolved(config, peer, Some(chain))
  {
    RightmostIgnoresFront(config, front, chain);
  }
}
