/**
 * Text helpers from Go's standard library as the handlers use them:
 * `%x` on a byte slice, `%d` on an integer, `filepath.Ext`,
 * `strings.TrimSuffix` and `filepath.Join`.
 */
module Text {

  import opened Wrappers

  newtype byte = x: int | 0 <= x < 256

  /** One of the sixteen lowercase hex digits. */
  predicate IsHexDigit(c: char) {
    '0' <= c <= '9' || 'a' <= c <= 'f'
  }

  predicate IsLowerHex(s: string) {
    forall i :: 0 <= i < |s| ==> IsHexDigit(s[i])
  }

  /** The hex digit of a nibble. */
  function HexChar(n: int): (c: char)
    requires 0 <= n < 16
    ensures IsHexDigit(c)
  {
    if n < 10 then ('0' as int + n) as char else ('a' as int + n - 10) as char
  }

  /** The nibble of a hex digit (0 for any other character). */
  function HexValue(c: char): (v: int)
    ensures 0 <= v < 16
    ensures IsHexDigit(c) ==> HexChar(v) == c
  {
    if '0' <= c <= '9' then c as int - '0' as int
    else if 'a' <= c <= 'f' then c as int - 'a' as int + 10
    else 0
  }

  lemma HexValueOfChar(n: int)
    requires 0 <= n < 16
    ensures HexValue(HexChar(n)) == n
  {
  }

  /** `fmt.Sprintf("%x", bs)`: two lowercase hex digits per byte, high nibble first. */
  function HexLower(bs: seq<byte>): (s: string)
    ensures |s| == 2 * |bs|
    ensures IsLowerHex(s)
  {
    if bs == [] then []
    else [HexChar(bs[0] as int / 16), HexChar(bs[0] as int % 16)] + HexLower(bs[1..])
  }

  /** Reads back what HexLower writes. */
  function HexDecode(s: string): (bs: seq<byte>)
    requires |s| % 2 == 0
    ensures |bs| == |s| / 2
  {
    if s == [] then []
    else [(HexValue(s[0]) * 16 + HexValue(s[1])) as byte] + HexDecode(s[2..])
  }

  lemma {:induction false} HexRoundTrip(bs: seq<byte>)
    ensures HexDecode(HexLower(bs)) == bs
  {
    if bs != [] {
      var s := HexLower(bs);
      var b := bs[0] as int;
      assert s[0] == HexChar(b / 16) && s[1] == HexChar(b % 16);
      HexValueOfChar(b / 16);
      HexValueOfChar(b % 16);
      assert (b / 16) * 16 + b % 16 == b;
      assert s[2..] == HexLower(bs[1..]);
      HexRoundTrip(bs[1..]);
    }
  }

  lemma NibblesOfByte(hi: int, lo: int)
    requires 0 <= hi < 16 && 0 <= lo < 16
    ensures (hi * 16 + lo) / 16 == hi && (hi * 16 + lo) % 16 == lo
  {
  }

  lemma HexLowerCons(b: byte, rest: seq<byte>)
    ensures HexLower([b] + rest) == [HexChar(b as int / 16), HexChar(b as int % 16)] + HexLower(rest)
  {
    assert ([b] + rest)[1..] == rest;
  }

  lemma LowerHexSuffix(s: string, k: nat)
    requires IsLowerHex(s) && k <= |s|
    ensures IsLowerHex(s[k..])
  {
    forall i | 0 <= i < |s| - k ensures IsHexDigit(s[k..][i]) {
      assert s[k..][i] == s[i + k];
    }
  }

  lemma {:induction false} HexDecodeRoundTrip(s: string)
    requires |s| % 2 == 0 && IsLowerHex(s)
    ensures HexLower(HexDecode(s)) == s
  {
    if s != [] {
      var hi, lo := HexValue(s[0]), HexValue(s[1]);
      assert IsHexDigit(s[0]) && IsHexDigit(s[1]);
      var tail := s[2..];
      LowerHexSuffix(s, 2);
      HexDecodeRoundTrip(tail);
      NibblesOfByte(hi, lo);
      var b := (hi * 16 + lo) as byte;
      assert HexDecode(s) == [b] + HexDecode(tail);
      HexLowerCons(b, HexDecode(tail));
      assert s == [s[0], s[1]] + tail;
    }
  }

  /** Two byte strings print to the same hex text only if they are equal. */
  lemma HexLowerInjective(a: seq<byte>, b: seq<byte>)
    requires HexLower(a) == HexLower(b)
    ensures a == b
  {
    HexRoundTrip(a);
    HexRoundTrip(b);
  }

  // ---------------------------------------------------------------- %d

  predicate IsDecimalDigit(c: char) { '0' <= c <= '9' }

  predicate AllDigits(s: string) {
    forall i :: 0 <= i < |s| ==> IsDecimalDigit(s[i])
  }

  function DigitValue(c: char): (v: nat)
    ensures v < 10
  {
    if IsDecimalDigit(c) then c as int - '0' as int else 0
  }

  function DigitChar(d: int): (c: char)
    requires 0 <= d < 10
    ensures IsDecimalDigit(c) && DigitValue(c) == d
  {
    ('0' as int + d) as char
  }

  /** Decimal digits of a natural number, without leading zeros. */
  function NatToDecimal(n: nat): (s: string)
    ensures |s| >= 1 && AllDigits(s)
    ensures s[0] == '0' ==> n == 0
  {
    if n < 10 then [DigitChar(n)]
    else NatToDecimal(n / 10) + [DigitChar(n % 10)]
  }

  /** `fmt.Sprintf("%d", n)`: a minus sign for negative values, then the digits. */
  function IntToDecimal(n: int): (s: string)
    ensures |s| >= 1
    ensures forall i :: 0 <= i < |s| ==> IsDecimalDigit(s[i]) || s[i] == '-'
  {
    if n < 0 then "-" + NatToDecimal(-n) else NatToDecimal(n)
  }

  function DecimalToNat(s: string): nat {
    if s == [] then 0 else DecimalToNat(s[..|s| - 1]) * 10 + DigitValue(s[|s| - 1])
  }

  function DecimalToInt(s: string): int {
    if |s| > 0 && s[0] == '-' then -(DecimalToNat(s[1..]) as int) else DecimalToNat(s)
  }

  lemma {:induction false} NatDecimalRoundTrip(n: nat)
    ensures DecimalToNat(NatToDecimal(n)) == n
  {
    if n >= 10 {
      var s := NatToDecimal(n);
      assert s[..|s| - 1] == NatToDecimal(n / 10);
      NatDecimalRoundTrip(n / 10);
    }
  }

  lemma DecimalRoundTrip(n: int)
    ensures DecimalToInt(IntToDecimal(n)) == n
  {
    var s := IntToDecimal(n);
    if n < 0 {
      assert s[0] == '-' && s[1..] == NatToDecimal(-n);
      NatDecimalRoundTrip(-n);
    } else {
      assert s == NatToDecimal(n) && IsDecimalDigit(s[0]);
      NatDecimalRoundTrip(n);
    }
  }

  // ---------------------------------------------------------------- paths

  /** Neither a dot nor a path separator: characters `filepath.Ext` scans past. */
  predicate NoDotOrSlash(s: string) {
    forall i :: 0 <= i < |s| ==> s[i] != '.' && s[i] != '/'
  }

  /** Index of the dot that starts the extension: the last '.' after the last '/'. */
  function ExtStart(path: string): (r: Option<nat>)
    ensures r.Some? ==> r.value < |path| && path[r.value] == '.' && NoDotOrSlash(path[r.value + 1..])
  {
    if path == [] then None
    else if path[|path| - 1] == '/' then None
    else if path[|path| - 1] == '.' then Some(|path| - 1)
    else
      var r := ExtStart(path[..|path| - 1]);
      assert r.Some? ==> path[..|path| - 1][r.value + 1..] + [path[|path| - 1]] == path[r.value + 1..];
      r
  }

  /** `filepath.Ext`: the suffix from the final dot of the last path element, or "". */
  function Ext(path: string): (e: string)
    ensures e == [] || (e[0] == '.' && NoDotOrSlash(e[1..]))
    ensures |e| <= |path| && e == path[|path| - |e|..]
  {
    match ExtStart(path)
    case None => ""
    case Some(i) => path[i..]
  }

  /** Characters without a dot or a separator appended at the end do not move the extension. */
  lemma {:induction false} ExtStartSkips(p: string, q: string)
    requires NoDotOrSlash(q)
    ensures ExtStart(p + q) == ExtStart(p)
  {
    if q == [] {
      assert p + q == p;
    } else {
      var pq := p + q;
      assert pq[..|pq| - 1] == p + q[..|q| - 1];
      ExtStartSkips(p, q[..|q| - 1]);
    }
  }

  /** A dot followed only by such characters is where the extension starts. */
  lemma ExtStartAtDot(p: string, q: string)
    requires NoDotOrSlash(q)
    ensures ExtStart(p + "." + q) == Some(|p|)
  {
    ExtStartSkips(p + ".", q);
    var pd := p + ".";
    assert ExtStart(pd) == Some(|p|);
  }

  /** `strings.TrimSuffix`: drops `suffix` from the end of `s` when it is there. */
  function TrimSuffix(s: string, suffix: string): (r: string)
    ensures r + suffix == s || (r == s && !(|suffix| <= |s| && s[|s| - |suffix|..] == suffix))
  {
    if |suffix| <= |s| && s[|s| - |suffix|..] == suffix then s[..|s| - |suffix|] else s
  }

  /** `filepath.Join` of a storage root and a relative path (the root is taken as already clean). */
  function Join(root: string, rel: string): (p: string)
    ensures |p| >= |rel| && p[|p| - |rel|..] == rel
  {
    if root == [] then rel else root + "/" + rel
  }

  lemma JoinInjective(root: string, a: string, b: string)
    requires Join(root, a) == Join(root, b)
    ensures a == b
  {
    var pa, pb := Join(root, a), Join(root, b);
    assert |a| == |b|;
    assert a == pa[|pa| - |a|..];
  }
}
