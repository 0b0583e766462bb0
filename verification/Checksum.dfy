/** lib/com_util/util.c: integers in network byte order, and the Internet checksum of
    RFC 1071 over the bytes they travel in. */
module Checksum {
  import opened Words

  // ---------- network byte order ----------

  function Word(hi: U8, lo: U8): U16 {
    hi * 0x100 + lo
  }

  /** A U16 as it stands in memory on the wire. */
  function Be16(v: U16): (b: seq<U8>)
    ensures |b| == 2
  {
    [v / 0x100, v % 0x100]
  }

  function Be32(v: U32): (b: seq<U8>)
    ensures |b| == 4
  {
    [v / 0x100_0000, v / 0x1_0000 % 0x100, v / 0x100 % 0x100, v % 0x100]
  }

  function Word32(b: seq<U8>): U32
    requires |b| == 4
  {
    b[0] as int * 0x100_0000 + b[1] as int * 0x1_0000 + b[2] as int * 0x100 + b[3]
  }

  /** buf with s written over it from off on. */
  function Patched(buf: seq<U8>, off: nat, s: seq<U8>): (r: seq<U8>)
    requires off + |s| <= |buf|
    ensures |r| == |buf|
  {
    buf[..off] + s + buf[off + |s|..]
  }

  /** Writing one piece behind another is writing both at once. */
  lemma PatchMore(buf: seq<U8>, off: nat, a: seq<U8>, b: seq<U8>)
    requires off + |a| + |b| <= |buf|
    ensures Patched(Patched(buf, off, a), off + |a|, b) == Patched(buf, off, a + b)
  {
    var p := Patched(buf, off, a);
    assert p[..off + |a|] == buf[..off] + a;
    assert p[off + |a| + |b|..] == buf[off + |a| + |b|..];
  }

  lemma RoundTrip16(v: U16)
    ensures Word(Be16(v)[0], Be16(v)[1]) == v
  {
  }

  lemma WordBytes(hi: U8, lo: U8)
    ensures Be16(Word(hi, lo)) == [hi, lo]
  {
  }

  lemma RoundTrip32(v: U32)
    ensures Word32(Be32(v)) == v
  {
    assert v / 0x1_0000 == v / 0x100_0000 * 0x100 + v / 0x1_0000 % 0x100;
    assert v / 0x100 == v / 0x1_0000 * 0x100 + v / 0x100 % 0x100;
  }

  /** The high-order byte comes first. */
  lemma Be16Is(v: U16)
    ensures var b := Be16(v); v == 0x100 * b[0] as int + b[1]
  {
  }

  lemma Be32Is(v: U32)
    ensures var b := Be32(v);
      v == 0x100_0000 * b[0] as int + 0x1_0000 * b[1] as int + 0x100 * b[2] as int + b[3]
  {
    RoundTrip32(v);
    hide Be32;
  }

  lemma {:induction false} WordBytes32(b: seq<U8>)
    requires |b| == 4
    ensures Be32(Word32(b)) == b
  {
    var v := Word32(b);
    assert v / 0x100_0000 == b[0];
    assert v / 0x1_0000 == b[0] as int * 0x100 + b[1];
    assert v / 0x100 == b[0] as int * 0x1_0000 + b[1] as int * 0x100 + b[2];
  }

  /** *mp++ = val. */
  method ENCODE_U8(mp: array<U8>, off: nat, val: U8) returns (next: nat)
    requires off < mp.Length
    modifies mp
    ensures next == off + 1 && mp[..] == Patched(old(mp[..]), off, [val])
  {
    mp[off] := val;
    next := off + 1;
  }

  method memcpy(mp: array<U8>, off: nat, s: seq<U8>) returns (next: nat)
    requires off + |s| <= mp.Length
    modifies mp
    ensures next == off + |s| && mp[..] == Patched(old(mp[..]), off, s)
  {
    forall i | 0 <= i < |s| {
      mp[off + i] := s[i];
    }
    next := off + |s|;
  }

  method ENCODE_U16(mp: array<U8>, off: nat, val: U16) returns (next: nat)
    requires off + 2 <= mp.Length
    modifies mp
    ensures next == off + 2 && mp[..] == Patched(old(mp[..]), off, Be16(val))
    ensures 0x100 * mp[off] as int + mp[off + 1] == val
  {
    mp[off] := val / 0x100;
    mp[off + 1] := val % 0x100;
    next := off + 2;
  }

  method ENCODE_U32(mp: array<U8>, off: nat, val: U32) returns (next: nat)
    requires off + 4 <= mp.Length
    modifies mp
    ensures next == off + 4 && mp[..] == Patched(old(mp[..]), off, Be32(val))
    ensures val ==
      0x100_0000 * mp[off] as int + 0x1_0000 * mp[off + 1] as int + 0x100 * mp[off + 2] as int + mp[off + 3]
  {
    Be32Is(val);
    mp[off] := val / 0x100_0000;
    mp[off + 1] := val / 0x1_0000 % 0x100;
    mp[off + 2] := val / 0x100 % 0x100;
    mp[off + 3] := val % 0x100;
    next := off + 4;
  }

  method DECODE_U16(mp: array<U8>, off: nat) returns (val: U16, next: nat)
    requires off + 2 <= mp.Length
    ensures next == off + 2 && val == Word(mp[off], mp[off + 1])
    ensures val == 0x100 * mp[off] as int + mp[off + 1]
  {
    val := mp[off] as int * 0x100 + mp[off + 1];
    next := off + 2;
  }

  method DECODE_U32(mp: array<U8>, off: nat) returns (val: U32, next: nat)
    requires off + 4 <= mp.Length
    ensures next == off + 4 && Be32(val) == mp[off..off + 4]
    ensures val ==
      0x100_0000 * mp[off] as int + 0x1_0000 * mp[off + 1] as int + 0x100 * mp[off + 2] as int + mp[off + 3]
  {
    val := mp[off] as int * 0x100_0000 + mp[off + 1] as int * 0x1_0000 + mp[off + 2] as int * 0x100 + mp[off + 3];
    WordBytes32(mp[off..off + 4]);
    next := off + 4;
  }

  // ---------- RFC 1071 ----------

  /** 16-bit one's-complement addition: the carry comes back in at the bottom. */
  function OnesAdd(a: U16, b: U16): U16 {
    if a + b > 0xffff then a + b - 0xffff else a + b
  }

  /** The one's-complement sum of the 16-bit words of b, an odd last byte left out. */
  function OnesSum(b: seq<U8>): U16 {
    if |b| < 2 then 0 else OnesAdd(Word(b[0], b[1]), OnesSum(b[2..]))
  }

  /** A receiver's test: the words with their checksum among them sum to all ones. */
  predicate SumsToOnes(b: seq<U8>) {
    OnesSum(b) == 0xffff
  }

  /** The plain sum of the words, as the source accumulates it before the carries. */
  function Raw(b: seq<U8>): nat {
    if |b| < 2 then 0 else Word(b[0], b[1]) + Raw(b[2..])
  }

  /** Any sum brought into 16 bits by adding its carries back until none is left. */
  function Fold(n: nat): U16 {
    if n == 0 then 0 else 1 + (n - 1) % 0xffff
  }

  /** What CHECK_SUM computes: the top eight bits of the sum are lost. */
  function CheckSum(sum: U32): U16 {
    0xffff - Fold(sum % 0x100_0000)
  }

  lemma FoldStep(w: U16, n: nat)
    ensures OnesAdd(w, Fold(n)) == Fold(w + n)
  {
    if n > 0 {
      FoldShift(n - 1 - (n - 1) / 0xffff * 0xffff + w, (n - 1) / 0xffff);
    }
  }

  lemma FoldShift(m: nat, k: nat)
    ensures (m + k * 0xffff) % 0xffff == m % 0xffff
  {
  }

  /** Adding the carries back at the end equals adding them back at every word. */
  lemma {:induction false} OnesSumIsFold(b: seq<U8>)
    ensures OnesSum(b) == Fold(Raw(b))
  {
    if |b| >= 2 {
      OnesSumIsFold(b[2..]);
      FoldStep(Word(b[0], b[1]), Raw(b[2..]));
      hide Fold, OnesAdd, Word;
    }
  }

  lemma {:induction false} RawAppend(a: seq<U8>, b: seq<U8>)
    requires |a| % 2 == 0
    ensures Raw(a + b) == Raw(a) + Raw(b)
  {
    if a == [] {
      assert a + b == b;
    } else {
      RawAppend(a[2..], b);
      assert (a + b)[2..] == a[2..] + b;
      hide Word;
    }
  }

  lemma {:induction false} RawBound(b: seq<U8>)
    ensures Raw(b) <= |b| / 2 * 0xffff
  {
    if |b| >= 2 {
      RawBound(b[2..]);
      assert |b| / 2 == |b[2..]| / 2 + 1;
    }
  }

  lemma TwoCarries(h: U8, l: U16)
    ensures var s := h as int + l; ToU16(s + s / 0x1_0000) == Fold(h * 0x1_0000 + l)
  {
    var n := h * 0x1_0000 + l;
    var s := h as int + l;
    if s > 0 {
      FoldShift(s - 1, h);
      assert n - 1 == s - 1 + h * 0xffff;
    }
  }

  lemma Split(sum: U32)
    ensures ToU8(sum / 0x1_0000) * 0x1_0000 + sum % 0x1_0000 == sum % 0x100_0000
  {
    assert sum / 0x1_0000 / 0x100 == sum / 0x100_0000;
  }

  /** The two additions of a U8 carry. */
  method ADD_CARRY_FOR_CHKSUM(sum: U32) returns (r: U16)
    ensures r == Fold(sum % 0x100_0000)
  {
    Split(sum);
    TwoCarries(ToU8(sum / 0x1_0000), sum % 0x1_0000);
    var carry: U8 := ToU8(sum / 0x1_0000);
    var value := sum % 0x1_0000;
    var s: U32 := carry as int + value;
    carry := ToU8(s / 0x1_0000);
    s := s as int + carry;
    r := ToU16(s);
  }

  method CHECK_SUM(sum: U32) returns (r: U16)
    ensures r == CheckSum(sum)
  {
    Split(sum);
    TwoCarries(ToU8(sum / 0x1_0000), sum % 0x1_0000);
    var carry: U8 := ToU8(sum / 0x1_0000);
    var value := sum % 0x1_0000;
    var s: U32 := carry as int + value;
    carry := ToU8(s / 0x1_0000);
    s := s as int + carry;
    r := 0xffff - ToU16(s);
  }

  /** CHECK_SUM complements the one's-complement sum exactly when the carry fits its U8. */
  lemma CheckSumExactIff(sum: U32)
    ensures CheckSum(sum) == 0xffff - Fold(sum) <==> sum < 0x100_0000
  {
    var low, k := sum % 0x100_0000, sum / 0x100_0000;
    assert sum == low + k * 0x100_0000 && k < 0x100;
    if k > 0 && low > 0 {
      assert sum - 1 == (low - 1 + k * 0x100) + k * 0x100 * 0xffff;
      FoldShift(low - 1 + k * 0x100, k * 0x100);
      NoWrapBack(low - 1, k * 0x100);
    }
  }

  lemma NoWrapBack(m: nat, d: nat)
    requires 0 < d < 0xffff
    ensures (m + d) % 0xffff != m % 0xffff
  {
    var q := m / 0xffff;
    assert m == m % 0xffff + q * 0xffff;
    FoldShift(m % 0xffff + d, q);
  }

  /** The checksum makes the whole sum to all ones, and a receiver that recomputes it
      accepts exactly the valid words in which it was not sent as all ones. */
  lemma ReceiverAccepts(rest: nat, chksum: U16)
    requires 0 < rest < 0x100_0000
    ensures chksum == CheckSum(rest) <==> Fold(rest + chksum) == 0xffff && chksum != 0xffff
  {
    var f := Fold(rest);
    var k := (rest - 1) / 0xffff;
    assert rest - 1 == f - 1 + k * 0xffff;
    FoldShift(f - 1 + chksum, k);
    assert Fold(rest + chksum) == 1 + (f - 1 + chksum) % 0xffff;
  }

  lemma FoldsToOnes(n: nat)
    ensures Fold(n) == 0xffff <==> n > 0 && n % 0xffff == 0
  {
    if n > 0 {
      var q := (n - 1) / 0xffff;
      assert n - 1 == (n - 1) % 0xffff + q * 0xffff;
      FoldShift((n - 1) % 0xffff + 1, q);
    }
  }

  lemma LowValid(low: nat)
    ensures (low + 0xffff - Fold(low)) % 0xffff == 0
  {
    if low > 0 {
      FoldShift(low - 1 - Fold(low) + 1, 1);
      var q := (low - 1) / 0xffff;
      assert low - Fold(low) == q * 0xffff;
      FoldShift(0, q + 1);
    }
  }

  lemma HighShifts(low: nat, k: nat, c: nat)
    ensures (low + k * 0x100_0000 + c) % 0xffff == (low + c + k * 0x100) % 0xffff
  {
    assert low + k * 0x100_0000 + c == (low + c + k * 0x100) + k * 0x100 * 0xffff;
    FoldShift(low + c + k * 0x100, k * 0x100);
  }

  /** The checksum of a sum that is too wide for CHECK_SUM is never the right one. */
  lemma WideNeverValid(rest: U32, chksum: U16)
    requires rest >= 0x100_0000 && chksum == CheckSum(rest)
    ensures Fold(rest + chksum) != 0xffff
  {
    var low, k := rest % 0x100_0000, rest / 0x100_0000;
    assert rest == low + k * 0x100_0000 && 0 < k < 0x100;
    LowValid(low);
    HighShifts(low, k, chksum);
    NoWrapBack(low + chksum, k * 0x100);
    FoldsToOnes(rest + chksum);
    hide Fold;
  }
}
