/** Bytes, fixed-width integers and the two byte orders used on the wire. */
module Bytes {
  import opened Outcomes

  type byte = b: int | 0 <= b < 256
  type Bytes = seq<byte>

  type Bytes20 = s: Bytes | |s| == 20 witness Zeros(20)
  type Bytes32 = s: Bytes | |s| == 32 witness Zeros(32)
  type Bytes33 = s: Bytes | |s| == 33 witness Zeros(33)
  type Bytes64 = s: Bytes | |s| == 64 witness Zeros(64)
  type Bytes65 = s: Bytes | |s| == 65 witness Zeros(65)

  function Zeros(n: nat): Bytes {
    seq(n, _ => 0)
  }

  lemma SliceOfSlice(s: Bytes, a: nat, b: nat, c: nat, d: nat)
    requires a <= b <= |s| && c <= d <= b - a
    ensures s[a..b][c..d] == s[a + c..a + d]
  {
    var t := s[a..b];
    assert forall i :: 0 <= i < d - c ==> t[c..d][i] == t[c + i] == s[a + c + i];
  }

  lemma SliceJoin(s: Bytes, a: nat, b: nat, c: nat)
    requires a <= b <= c <= |s|
    ensures s[a..b] + s[b..c] == s[a..c]
  {
  }

  lemma SliceInside(a: Bytes, s: Bytes, b: Bytes, c: nat, d: nat)
    requires c <= d <= |s|
    ensures (a + (s + b))[|a| + c..|a| + d] == s[c..d]
  {
    assert forall i :: c <= i < d ==> (a + (s + b))[|a| + i] == (s + b)[i] == s[i];
  }

  datatype ByteOrder = LE | BE

  // ----- Fixed-width unsigned integers -----

  function Pow256(w: nat): nat {
    if w == 0 then 1 else 256 * Pow256(w - 1)
  }

  function ToLE(n: nat, w: nat): (r: Bytes)
    ensures |r| == w
  {
    if w == 0 then [] else [n % 256] + ToLE(n / 256, w - 1)
  }

  function FromLE(s: Bytes): nat {
    if s == [] then 0 else s[0] + 256 * FromLE(s[1..])
  }

  function ToBE(n: nat, w: nat): (r: Bytes)
    ensures |r| == w
  {
    if w == 0 then [] else ToBE(n / 256, w - 1) + [n % 256]
  }

  function FromBE(s: Bytes): nat {
    if s == [] then 0 else 256 * FromBE(s[..|s| - 1]) + s[|s| - 1]
  }

  function Put(bo: ByteOrder, n: nat, w: nat): (r: Bytes)
    ensures |r| == w
  {
    match bo case LE => ToLE(n, w) case BE => ToBE(n, w)
  }

  function Get(bo: ByteOrder, s: Bytes): nat {
    match bo case LE => FromLE(s) case BE => FromBE(s)
  }

  lemma LowByte(m: nat, b: byte)
    ensures (256 * m + b) / 256 == m && (256 * m + b) % 256 == b
  {
  }

  lemma {:induction false} LEOfValue(n: nat, w: nat)
    requires n < Pow256(w)
    ensures FromLE(ToLE(n, w)) == n
  {
    if w > 0 {
      LEOfValue(n / 256, w - 1);
      assert ToLE(n, w)[1..] == ToLE(n / 256, w - 1);
    }
  }

  lemma {:induction false} LEOfBytes(s: Bytes)
    ensures FromLE(s) < Pow256(|s|)
    ensures ToLE(FromLE(s), |s|) == s
  {
    if s != [] {
      var m := FromLE(s[1..]);
      LEOfBytes(s[1..]);
      LowByte(m, s[0]);
      assert ToLE(FromLE(s), |s|) == [s[0]] + ToLE(m, |s| - 1);
      assert s == [s[0]] + s[1..];
    }
  }

  lemma {:induction false} BEOfValue(n: nat, w: nat)
    requires n < Pow256(w)
    ensures FromBE(ToBE(n, w)) == n
  {
    if w > 0 {
      BEOfValue(n / 256, w - 1);
      assert ToBE(n, w)[..w - 1] == ToBE(n / 256, w - 1);
    }
  }

  lemma {:induction false} BEOfBytes(s: Bytes)
    ensures FromBE(s) < Pow256(|s|)
    ensures ToBE(FromBE(s), |s|) == s
  {
    if s != [] {
      var n := |s| - 1;
      var m := FromBE(s[..n]);
      BEOfBytes(s[..n]);
      LowByte(m, s[n]);
      assert ToBE(FromBE(s), |s|) == ToBE(m, n) + [s[n]];
      assert s == s[..n] + [s[n]];
    }
  }

  /** Writing an integer and reading it back is the identity, in both byte orders. */
  lemma {:induction false} GetPut(bo: ByteOrder, n: nat, w: nat)
    requires n < Pow256(w)
    ensures Get(bo, Put(bo, n, w)) == n
  {
    match bo case LE => LEOfValue(n, w); case BE => BEOfValue(n, w);
  }

  /** Reading bytes as an integer loses nothing: the integer writes back to the same bytes. */
  lemma {:induction false} PutGet(bo: ByteOrder, s: Bytes)
    ensures Get(bo, s) < Pow256(|s|)
    ensures Put(bo, Get(bo, s), |s|) == s
  {
    match bo case LE => LEOfBytes(s); case BE => BEOfBytes(s);
  }

  lemma Pow256Values()
    ensures Pow256(1) == 0x100 && Pow256(2) == 0x1_0000 && Pow256(4) == 0x1_0000_0000
    ensures Pow256(8) == 0x1_0000_0000_0000_0000
  {
    assert Pow256(3) == 0x100_0000;
    assert Pow256(5) == 0x100_0000_0000;
    assert Pow256(6) == 0x1_0000_0000_0000;
    assert Pow256(7) == 0x100_0000_0000_0000;
  }

  // ----- Two's complement -----

  /** The unsigned word that carries a signed value modulo `m`. */
  function Unsigned(v: int, m: nat): (u: nat)
    requires -(m as int) <= 2 * v < m
    ensures u < m
  {
    if v < 0 then v + m else v
  }

  /** The signed value carried by an unsigned word modulo `m`: Rust's `as i16` and `as i64`. */
  function Signed(u: nat, m: nat): (v: int)
    requires u < m
    ensures -(m as int) <= 2 * v < m
    ensures Unsigned(v, m) == u
  {
    if 2 * u < m then u else u - m
  }

  // ----- Indexed readers of the Stellar contracts -----

  function At(s: Bytes, i: nat): nat
    requires i < |s|
  {
    s[i]
  }

  function GetByte(data: Bytes, i: nat): Option<byte> {
    if i < |data| then Some(data[i]) else None
  }

  function ReadBeU16(data: Bytes, o: nat): Option<nat> {
    if o + 2 <= |data| then Some(0x100 * At(data, o) + data[o + 1]) else None
  }

  function ReadBeU32(data: Bytes, o: nat): Option<nat> {
    if o + 4 <= |data| then
      Some(0x100_0000 * At(data, o) + 0x1_0000 * At(data, o + 1) + 0x100 * At(data, o + 2) + data[o + 3])
    else None
  }

  function ReadBeU64(data: Bytes, o: nat): Option<nat> {
    if o + 8 <= |data| then
      Some(0x100_0000_0000_0000 * At(data, o) + 0x1_0000_0000_0000 * At(data, o + 1)
           + 0x100_0000_0000 * At(data, o + 2) + 0x1_0000_0000 * At(data, o + 3)
           + 0x100_0000 * At(data, o + 4) + 0x1_0000 * At(data, o + 5)
           + 0x100 * At(data, o + 6) + data[o + 7])
    else None
  }

  function ReadLeU16(data: Bytes, o: nat): Option<nat> {
    if o + 2 <= |data| then Some(data[o] + 0x100 * At(data, o + 1)) else None
  }

  function ReadLeU32(data: Bytes, o: nat): Option<nat> {
    if o + 4 <= |data| then
      Some(data[o] + 0x100 * At(data, o + 1) + 0x1_0000 * At(data, o + 2) + 0x100_0000 * At(data, o + 3))
    else None
  }

  lemma {:induction false} FromBE4(s: Bytes)
    requires |s| == 4
    ensures FromBE(s) == 0x100_0000 * At(s, 0) + 0x1_0000 * At(s, 1) + 0x100 * At(s, 2) + s[3]
  {
    assert s[..3][..2] == s[..2] && s[..2][..1] == s[..1] && s[..1][..0] == [];
    assert FromBE(s[..1]) == s[0];
    assert FromBE(s[..2]) == 256 * FromBE(s[..1]) + s[1];
    assert FromBE(s[..3]) == 256 * FromBE(s[..2]) + s[2];
  }

  lemma {:induction false} FromLE4(s: Bytes)
    requires |s| == 4
    ensures FromLE(s) == s[0] + 0x100 * At(s, 1) + 0x1_0000 * At(s, 2) + 0x100_0000 * At(s, 3)
  {
    assert s[1..][1..] == s[2..] && s[2..][1..] == s[3..] && s[3..][1..] == [];
    assert FromLE(s[3..]) == s[3];
    assert FromLE(s[2..]) == s[2] + 256 * FromLE(s[3..]);
    assert FromLE(s[1..]) == s[1] + 256 * FromLE(s[2..]);
  }

  lemma {:induction false} FromBE2(s: Bytes)
    requires |s| == 2
    ensures FromBE(s) == 0x100 * At(s, 0) + s[1]
  {
    assert s[..1][..0] == [];
    assert FromBE(s[..1]) == s[0];
  }

  lemma {:induction false} FromLE2(s: Bytes)
    requires |s| == 2
    ensures FromLE(s) == s[0] + 0x100 * At(s, 1)
  {
    assert s[1..][1..] == [];
    assert FromLE(s[1..]) == s[1];
  }

  lemma {:induction false} FromBE8(s: Bytes)
    requires |s| == 8
    ensures FromBE(s) == 0x1_0000_0000 * FromBE(s[..4]) + FromBE(s[4..])
  {
    assert s[..5][..4] == s[..4] && s[..6][..5] == s[..5] && s[..7][..6] == s[..6];
    assert FromBE(s[..5]) == 256 * FromBE(s[..4]) + s[4];
    assert FromBE(s[..6]) == 256 * FromBE(s[..5]) + s[5];
    assert FromBE(s[..7]) == 256 * FromBE(s[..6]) + s[6];
    FromBE4(s[4..]);
  }

  lemma BeU16Agrees(data: Bytes, o: nat)
    requires o + 2 <= |data|
    ensures ReadBeU16(data, o) == Some(FromBE(data[o..o + 2]))
  {
    FromBE2(data[o..o + 2]);
  }

  lemma BeU32Agrees(data: Bytes, o: nat)
    requires o + 4 <= |data|
    ensures ReadBeU32(data, o) == Some(FromBE(data[o..o + 4]))
  {
    FromBE4(data[o..o + 4]);
  }

  lemma BeU64Agrees(data: Bytes, o: nat)
    requires o + 8 <= |data|
    ensures ReadBeU64(data, o) == Some(FromBE(data[o..o + 8]))
  {
    var s := data[o..o + 8];
    FromBE8(s);
    assert s[..4] == data[o..o + 4] && s[4..] == data[o + 4..o + 8];
    BeU32Agrees(data, o);
    BeU32Agrees(data, o + 4);
  }

  /** The shift-and-or readers compute exactly the big-endian value of the bytes they cover, and fail exactly where
      those are not all there. */
  lemma BeReadersAgree(data: Bytes, o: nat)
    ensures ReadBeU16(data, o) == if o + 2 <= |data| then Some(FromBE(data[o..o + 2])) else None
    ensures ReadBeU32(data, o) == if o + 4 <= |data| then Some(FromBE(data[o..o + 4])) else None
    ensures ReadBeU64(data, o) == if o + 8 <= |data| then Some(FromBE(data[o..o + 8])) else None
  {
    if o + 2 <= |data| {
      BeU16Agrees(data, o);
    }
    if o + 4 <= |data| {
      BeU32Agrees(data, o);
    }
    if o + 8 <= |data| {
      BeU64Agrees(data, o);
    }
  }

  /** The same for the little-endian readers. */
  lemma LeReadersAgree(data: Bytes, o: nat)
    ensures ReadLeU16(data, o) == if o + 2 <= |data| then Some(FromLE(data[o..o + 2])) else None
    ensures ReadLeU32(data, o) == if o + 4 <= |data| then Some(FromLE(data[o..o + 4])) else None
  {
    if o + 2 <= |data| {
      FromLE2(data[o..o + 2]);
    }
    if o + 4 <= |data| {
      FromLE4(data[o..o + 4]);
    }
  }

  /** Fills a fixed-size buffer from `data`, byte by byte, as the contracts do for
      signatures, addresses, module identifiers and digests. */
  method ReadArray(data: Bytes, o: nat, n: nat) returns (r: Option<Bytes>)
    requires n > 0
    ensures r == if o + n <= |data| then Some(data[o..o + n]) else None
  {
    var buf := new byte[n];
    var i := 0;
    while i < n
      invariant 0 <= i <= n
      invariant i > 0 ==> o + i <= |data|
      invariant forall k :: 0 <= k < i ==> buf[k] == data[o + k]
    {
      match GetByte(data, o + i) {
        case None => return None;
        case Some(b) => buf[i] := b;
      }
      i := i + 1;
    }
    assert buf[..] == data[o..o + n];
    return Some(buf[..]);
  }
}
