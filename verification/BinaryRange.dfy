/** Binary numbers as strings of bits, most significant first: printing by hexadecimal digits, reading, and
    counting with a ripple of carries. */
module BinaryRange {

  datatype Option<T> = None | Some(value: T)

  /** `true` stands for the character 1. */
  type Bits = seq<bool>

  function Bit(b: bool): nat { if b then 1 else 0 }

  function Pow2(n: nat): nat { if n == 0 then 1 else 2 * Pow2(n - 1) }

  /** The number a string stands for. */
  function Bin2Int(s: Bits): nat {
    if s == [] then 0 else 2 * Bin2Int(s[..|s| - 1]) + Bit(s[|s| - 1])
  }

  lemma Double(a: nat, n: nat)
    ensures a * Pow2(n + 1) == 2 * (a * Pow2(n))
  {
  }

  lemma {:induction false} Concat(a: Bits, b: Bits)
    ensures Bin2Int(a + b) == Bin2Int(a) * Pow2(|b|) + Bin2Int(b)
  {
    if b == [] {
      assert a + b == a;
    } else {
      var n := |b| - 1;
      assert (a + b)[..|a + b| - 1] == a + b[..n];
      Concat(a, b[..n]);
      hide Pow2;
      Double(Bin2Int(a), n);
    }
  }

  lemma {:induction false} Bound(s: Bits)
    ensures Bin2Int(s) < Pow2(|s|)
  {
    if s != [] { Bound(s[..|s| - 1]); }
  }

  lemma {:induction false} ZeroIff(s: Bits)
    ensures Bin2Int(s) == 0 <==> true !in s
  {
    if s != [] {
      ZeroIff(s[..|s| - 1]);
      assert s == s[..|s| - 1] + [s[|s| - 1]];
    }
  }

  /** Whether the number is odd after halving it `k` times. */
  predicate OddAfter(n: nat, k: nat) { if k == 0 then n % 2 == 1 else OddAfter(n / 2, k - 1) }

  /** The most significant bit comes first: bit `k` counted from the end is digit `k` of the number. */
  lemma {:induction false} BitAt(s: Bits, k: nat)
    requires k < |s|
    ensures s[|s| - 1 - k] <==> OddAfter(Bin2Int(s), k)
  {
    var front := s[..|s| - 1];
    assert Bin2Int(s) / 2 == Bin2Int(front);
    if k > 0 { BitAt(front, k - 1); }
  }

  /** Strings of the same length stand for different numbers. */
  lemma {:induction false} SameString(s: Bits, t: Bits)
    requires |s| == |t| && Bin2Int(s) == Bin2Int(t)
    ensures s == t
  {
    if s != [] {
      var n := |s| - 1;
      SameString(s[..n], t[..n]);
      assert s == s[..n] + [s[n]] && t == t[..n] + [t[n]];
    }
  }

  // ---- printing ---------------------------------------------------------------------------------

  function Hex(i: nat): seq<nat> { (if i < 16 then [] else Hex(i / 16)) + [i % 16] }

  function Nibble(d: nat): Bits { [d / 8 % 2 == 1, d / 4 % 2 == 1, d / 2 % 2 == 1, d % 2 == 1] }

  function Expand(ds: seq<nat>): Bits {
    if ds == [] then [] else Expand(ds[..|ds| - 1]) + Nibble(ds[|ds| - 1])
  }

  function Zeros(n: int): Bits { if n <= 0 then [] else seq(n, _ => false) }

  /** What does not fit may only be zeros, what is missing is filled up. With `n == 0` nothing is cut off. */
  function Fit(result: Bits, n: nat): Option<Bits> {
    var cut := if n == 0 || |result| <= n then 0 else |result| - n;
    if true in result[..cut] then None else Some(Zeros(n - |result[cut..]|) + result[cut..])
  }

  /** Digits are mapped to four bits each. A negative number has no such digits. */
  function Int2Bin(i: int, n: nat): Option<Bits> {
    if i < 0 then None else Fit(Expand(Hex(i)), n)
  }

  lemma NibbleValue(d: nat)
    requires d < 16
    ensures Bin2Int(Nibble(d)) == d && Pow2(4) == 16
  {
    var b := Nibble(d);
    assert b[..3][..2][..1][..0] == [] && b[..3][..2][..1][0] == b[0] && b[..3][..2][1] == b[1] && b[..3][2] == b[2];
    assert b[..3][..2] == b[..2] && b[..2][..1] == b[..1];
    assert Bin2Int(b[..1]) == Bit(b[0]);
    assert Bin2Int(b[..2]) == 2 * Bin2Int(b[..1]) + Bit(b[1]);
    assert Bin2Int(b[..3]) == 2 * Bin2Int(b[..2]) + Bit(b[2]);
  }

  lemma {:induction false} HexValue(i: nat)
    ensures Bin2Int(Expand(Hex(i))) == i
  {
    var front := if i < 16 then [] else Hex(i / 16);
    if i >= 16 { HexValue(i / 16); }
    assert Hex(i)[..|front|] == front;
    OneMoreDigit(front, i % 16);
  }

  lemma OneMoreDigit(ds: seq<nat>, d: nat)
    requires d < 16
    ensures Bin2Int(Expand(ds + [d])) == 16 * Bin2Int(Expand(ds)) + d
  {
    assert (ds + [d])[..|ds|] == ds;
    NibbleValue(d);
    Concat(Expand(ds), Nibble(d));
    hide Nibble;
    hide Pow2;
    hide Bin2Int;
  }

  lemma ZerosValue(n: int, s: Bits)
    ensures Bin2Int(Zeros(n) + s) == Bin2Int(s) && |Zeros(n) + s| == if n < 0 then |s| else n + |s|
  {
    Concat(Zeros(n), s);
    ZeroIff(Zeros(n));
  }

  /** For `n >= 1` printing fails exactly on numbers that do not fit, and otherwise gives the string of `n` bits that
      reads back as the number. */
  lemma PrintedReadsBack(i: int, n: nat)
    requires n >= 1
    ensures Int2Bin(i, n) == None <==> i < 0 || i >= Pow2(n)
    ensures 0 <= i < Pow2(n) ==> |Int2Bin(i, n).value| == n && Bin2Int(Int2Bin(i, n).value) == i
  {
    if i >= 0 {
      HexValue(i);
      Fitted(Expand(Hex(i)), n);
      hide Fit;
      hide Expand;
      hide Hex;
      hide Pow2;
      hide Bin2Int;
    }
  }

  /** A string cut or filled up to `n` bits stands for the same number, if that fits. */
  lemma Fitted(s: Bits, n: nat)
    requires n >= 1
    ensures Fit(s, n) == None <==> Bin2Int(s) >= Pow2(n)
    ensures Fit(s, n) != None ==> |Fit(s, n).value| == n && Bin2Int(Fit(s, n).value) == Bin2Int(s)
  {
    if |s| <= n {
      Bound(s);
      Wider(|s|, n);
      ZerosValue(n - |s|, s);
      assert s[0..] == s;
    } else {
      CutOff(s, |s| - n);
      assert Zeros(0) + s[|s| - n..] == s[|s| - n..];
    }
    hide Bin2Int;
    hide Pow2;
    hide Zeros;
  }

  /** Cutting off leading bits changes the number, making it too large for the rest, iff one of them is set. */
  lemma CutOff(s: Bits, cut: nat)
    requires cut <= |s|
    ensures true in s[..cut] ==> Bin2Int(s) >= Pow2(|s| - cut)
    ensures true !in s[..cut] ==> Bin2Int(s[cut..]) == Bin2Int(s) < Pow2(|s| - cut)
  {
    assert s[..cut] + s[cut..] == s;
    Concat(s[..cut], s[cut..]);
    ZeroIff(s[..cut]);
    Bound(s[cut..]);
    Shifted(Bin2Int(s[..cut]), |s[cut..]|);
    hide Bin2Int;
    hide Pow2;
  }

  lemma Shifted(a: nat, n: nat)
    ensures a > 0 ==> a * Pow2(n) >= Pow2(n)
    ensures a == 0 ==> a * Pow2(n) == 0
  {
  }

  lemma {:induction false} Wider(m: nat, n: nat)
    requires m <= n
    ensures Pow2(m) <= Pow2(n)
  {
    if m < n { Wider(m, n - 1); }
  }

  /** Every string of `n` bits is what printing its number gives. */
  lemma ReadPrintsBack(s: Bits)
    requires |s| >= 1
    ensures Int2Bin(Bin2Int(s), |s|) == Some(s)
  {
    Bound(s);
    PrintedReadsBack(Bin2Int(s), |s|);
    SameString(Int2Bin(Bin2Int(s), |s|).value, s);
  }

  // ---- counting -------------------------------------------------------------------------------------

  function Reverse(v: Bits): (r: Bits)
    ensures |r| == |v|
  {
    seq(|v|, i requires 0 <= i < |v| => v[|v| - 1 - i])
  }

  /** The number in a counter, least significant bit first. */
  function Counter(v: Bits): nat { Bin2Int(Reverse(v)) }

  lemma CounterHead(v: Bits)
    requires v != []
    ensures Counter(v) == 2 * Counter(v[1..]) + Bit(v[0])
  {
    assert Reverse(v)[..|v| - 1] == Reverse(v[1..]);
  }

  lemma {:induction false} Flip(v: Bits, i: nat)
    requires i < |v|
    ensures if v[i] then Counter(v[i := false]) + Pow2(i) == Counter(v) else Counter(v[i := true]) == Counter(v) + Pow2(i)
  {
    var w := v[i := !v[i]];
    CounterHead(v);
    CounterHead(w);
    if i > 0 {
      assert w[1..] == v[1..][i - 1 := !v[1..][i - 1]];
      Flip(v[1..], i - 1);
    } else {
      assert w[1..] == v[1..];
    }
  }

  /** The loops over the counter `v` and the carries `toggle`. They end, for `bits >= 1` after all strings of `bits`
      bits in order, each the one that printing its number gives. */
  method BinaryRange(bits: nat) returns (l: seq<Bits>)
    ensures bits == 0 ==> l == []
    ensures bits >= 1 ==> |l| == Pow2(bits) && forall k | 0 <= k < |l| :: Int2Bin(k, bits) == Some(l[k]) && Bin2Int(l[k]) == k
  {
    l := [];
    var v := seq(bits, _ => false);
    var toggle := [true] + seq(bits, _ => false);
    ZeroIff(Reverse(v));
    Bound(Reverse(v));
    while !toggle[bits]
      invariant |v| == bits && |toggle| == bits + 1 && |l| <= Pow2(bits)
      invariant bits > 0 ==> (if toggle[bits] then |l| == Pow2(bits) else Counter(v) == |l| < Pow2(bits))
      invariant bits == 0 ==> toggle[bits] && l == []
      invariant forall k | 0 <= k < |l| :: |l[k]| == bits && Bin2Int(l[k]) == k
      decreases Pow2(bits) - |l|, if toggle[bits] then 0 else 1
    {
      l := l + [Reverse(v)];
      v, toggle := Increment(v);
    }
    forall k | 0 <= k < |l| ensures Int2Bin(k, bits) == Some(l[k]) {
      ReadPrintsBack(l[k]);
    }
  }

  method Increment(start: Bits) returns (v: Bits, toggle: Bits)
    ensures |v| == |start| && |toggle| == |start| + 1
    ensures Counter(v) + (if toggle[|start|] then Pow2(|start|) else 0) == Counter(start) + 1
    ensures Counter(v) < Pow2(|start|)
  {
    v := start;
    toggle := [true] + seq(|v|, _ => false);
    var i := 0;
    while i < |v| && toggle[i]
      invariant i <= |v| == |start| && |toggle| == |v| + 1
      invariant Counter(v) + (if toggle[i] then Pow2(i) else 0) == Counter(start) + 1
      invariant forall k | i < k <= |v| :: !toggle[k]
    {
      Flip(v, i);
      if !v[i] {
        v := v[i := true];
        toggle := toggle[i + 1 := false];
      } else {
        v := v[i := false];
        toggle := toggle[i + 1 := true];
      }
      i := i + 1;
    }
    Bound(Reverse(v));
  }
}
