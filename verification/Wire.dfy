/** The byte order of the length prefix. */
module Wire {
  import opened Words

  type Byte = b: int | 0 <= b < 256

  datatype Host = LittleEndian | BigEndian

  function Pow256(n: nat): (p: nat)
    ensures p > 0
  {
    if n == 0 then 1 else 256 * Pow256(n - 1)
  }

  /** The `n` low bytes of `x`, least significant first. */
  function Bytes(x: nat, n: nat): (s: seq<Byte>)
    ensures |s| == n
  {
    if n == 0 then [] else [x % 256] + Bytes(x / 256, n - 1)
  }

  function Value(s: seq<Byte>): nat {
    if s == [] then 0 else s[0] + 256 * Value(s[1..])
  }

  function Reverse(s: seq<Byte>): (r: seq<Byte>)
    ensures |r| == |s|
    ensures forall i :: 0 <= i < |s| ==> r[i] == s[|s| - 1 - i]
  {
    seq(|s|, i requires 0 <= i < |s| => s[|s| - 1 - i])
  }

  /** The bytes of `x`, most significant first: the layout on the wire. */
  function BigEndianBytes(x: nat, n: nat): seq<Byte> {
    if n == 0 then [] else BigEndianBytes(x / 256, n - 1) + [x % 256]
  }

  function Zeros(n: nat): (z: seq<Byte>)
    ensures |z| == n && forall i :: 0 <= i < n ==> z[i] == 0
  {
    seq(n, i => 0)
  }

  // ---- a host's words in memory ----

  function Store(host: Host, x: nat, n: nat): (s: seq<Byte>)
    ensures |s| == n
  {
    if host.LittleEndian? then Bytes(x, n) else Reverse(Bytes(x, n))
  }

  function Load(host: Host, s: seq<Byte>): nat {
    if host.LittleEndian? then Value(s) else Value(Reverse(s))
  }

  /** `htonl`, which is also `ntohl`: swap the four bytes on a little-endian host. */
  function Htonl(host: Host, x: nat): nat {
    if host.LittleEndian? then Value(Reverse(Bytes(x, 4))) else x
  }

  /** `htonll`, which is also `ntohll`: nothing if `htonl` does nothing to 1, otherwise swap the
      halves and the bytes of each; the two halves of the disjunction have no bit in common. */
  function Htonll(host: Host, x: nat): nat {
    if 1 == Htonl(host, 1) then x
    else Htonl(host, x % WORD32) * WORD32 + Htonl(host, x / WORD32)
  }

  // ---- bytes and values ----

  lemma {:induction false} BytesOfValue(s: seq<Byte>)
    ensures Bytes(Value(s), |s|) == s && Value(s) < Pow256(|s|)
  {
    if s != [] {
      BytesOfValue(s[1..]);
    }
  }

  lemma {:induction false} ValueOfBytes(x: nat, n: nat)
    requires x < Pow256(n)
    ensures Value(Bytes(x, n)) == x
  {
    if n > 0 {
      ValueOfBytes(x / 256, n - 1);
    }
  }

  lemma {:induction false} ValueConcat(a: seq<Byte>, b: seq<Byte>)
    ensures Value(a + b) == Value(a) + Pow256(|a|) * Value(b)
  {
    if a == [] {
      assert a + b == b;
    } else {
      assert (a + b)[1..] == a[1..] + b;
      ValueConcat(a[1..], b);
      assert Pow256(|a|) * Value(b) == 256 * (Pow256(|a| - 1) * Value(b));
    }
  }

  lemma {:induction false} BigEndianIsReverse(x: nat, n: nat)
    ensures BigEndianBytes(x, n) == Reverse(Bytes(x, n))
  {
    if n > 0 {
      BigEndianIsReverse(x / 256, n - 1);
      ReverseConcat([x % 256], Bytes(x / 256, n - 1));
      assert Reverse([x % 256]) == [x % 256];
    }
  }

  lemma ReverseTwice(s: seq<Byte>)
    ensures Reverse(Reverse(s)) == s
  {
  }

  lemma ReverseConcat(a: seq<Byte>, b: seq<Byte>)
    ensures Reverse(a + b) == Reverse(b) + Reverse(a)
  {
  }

  lemma Powers()
    ensures Pow256(4) == WORD32 && Pow256(8) == WORD64
  {
    assert Pow256(2) == 0x1_0000 && Pow256(4) == 0x1_0000 * Pow256(2);
    assert Pow256(6) == 0x1_0000 * Pow256(4) && Pow256(8) == 0x1_0000 * Pow256(6);
  }

  lemma SwapsOne()
    ensures Htonl(LittleEndian, 1) != 1 && Htonl(BigEndian, 1) == 1
  {
    assert Bytes(1, 4) == [1, 0, 0, 0];
    assert Reverse(Bytes(1, 4)) == [0, 0, 0, 1];
    assert [0, 0, 0, 1][1..] == [0, 0, 1];
    assert Value([0, 0, 0, 1]) % 256 == 0;
  }

  /** The eight bytes of a 64-bit value are those of its two halves. */
  lemma Halves(x: nat)
    requires x < WORD64
    ensures Bytes(x, 8) == Bytes(x % WORD32, 4) + Bytes(x / WORD32, 4)
  {
    Powers();
    ValueOfBytes(x % WORD32, 4);
    ValueOfBytes(x / WORD32, 4);
    JoinHalves(Bytes(x % WORD32, 4), Bytes(x / WORD32, 4));
  }

  lemma SwapLayout(x: nat)
    requires x < WORD64
    ensures Bytes(Htonl(LittleEndian, x % WORD32) * WORD32 + Htonl(LittleEndian, x / WORD32), 8) == Reverse(Bytes(x, 8))
  {
    var lo, hi := Bytes(x % WORD32, 4), Bytes(x / WORD32, 4);
    Halves(x);
    ReverseConcat(lo, hi);
    JoinHalves(Reverse(hi), Reverse(lo));
    assert Htonl(LittleEndian, x % WORD32) == Value(Reverse(lo)) &&
      Htonl(LittleEndian, x / WORD32) == Value(Reverse(hi));
  }

  lemma JoinHalves(a: seq<Byte>, b: seq<Byte>)
    requires |a| == |b| == 4
    ensures Bytes(Value(b) * WORD32 + Value(a), 8) == a + b
  {
    Powers();
    ValueConcat(a, b);
    BytesOfValue(a + b);
  }

  /** On either kind of host the converted value lies in memory most significant byte first. */
  lemma WireLayout(host: Host, x: nat)
    requires x < WORD64
    ensures Store(host, Htonll(host, x), 8) == BigEndianBytes(x, 8)
  {
    SwapsOne();
    BigEndianIsReverse(x, 8);
    if host.LittleEndian? {
      SwapLayout(x);
    }
  }

  lemma LoadStore(host: Host, x: nat, n: nat)
    requires x < Pow256(n)
    ensures Load(host, Store(host, x, n)) == x
  {
    ValueOfBytes(x, n);
    ReverseTwice(Bytes(x, n));
  }

  lemma HtonllInRange(host: Host, x: nat)
    requires x < WORD64
    ensures Htonll(host, x) < WORD64
  {
    Powers();
    if 1 != Htonl(host, 1) {
      BytesOfValue(Reverse(Bytes(x % WORD32, 4)));
      BytesOfValue(Reverse(Bytes(x / WORD32, 4)));
    }
  }

  /** The conversion is its own inverse on all 64-bit values. */
  lemma HtonllInvolutive(host: Host, x: nat)
    requires x < WORD64
    ensures Htonll(host, Htonll(host, x)) == x
  {
    Powers();
    SwapsOne();
    if host.LittleEndian? {
      var y := Htonll(host, x);
      HtonllInRange(host, x);
      WireLayout(host, x);
      WireLayout(host, y);
      BigEndianIsReverse(x, 8);
      BigEndianIsReverse(y, 8);
      ReverseTwice(Bytes(x, 8));
      HtonllInRange(host, y);
      ValueOfBytes(Htonll(host, y), 8);
      ValueOfBytes(x, 8);
    }
  }

  /** What one host writes any host reads: interoperation across byte orders. */
  lemma PrefixReadsBack(host: Host, x: nat)
    requires x < WORD64
    ensures Htonll(host, Load(host, BigEndianBytes(x, 8))) == x
  {
    Powers();
    WireLayout(host, x);
    HtonllInRange(host, x);
    LoadStore(host, Htonll(host, x), 8);
    HtonllInvolutive(host, x);
  }
}
