/** The JavaScript primitives the application leans on: strings as sequences of UTF-16 code
    units, bytes, and the 32-bit integer operators, written over unbounded integers so that
    every wrap-around is explicit. */
module Js {

  datatype Option<+T> = None | Some(value: T)

  datatype Result<+T, +E> = Ok(value: T) | Err(error: E)

  // ── Strings ──────────────────────────────────────────────────────────────

  type CodeUnit = u: int | 0 <= u < 0x10000

  type JsString = seq<CodeUnit>

  type byte = b: int | 0 <= b < 256

  type Bytes = seq<byte>

  type uint32 = n: int | 0 <= n < 0x1_0000_0000

  /** The code units of an ASCII literal. */
  function Text(s: string): (t: JsString)
    requires forall i :: 0 <= i < |s| ==> s[i] < 128 as char
    ensures |t| == |s|
  {
    seq(|s|, i requires 0 <= i < |s| => s[i] as int)
  }

  /** `toLowerCase` of one code unit, on ASCII. */
  function LowerUnit(u: CodeUnit): CodeUnit {
    if 'A' as int <= u <= 'Z' as int then u + 32 else u
  }

  function Lower(s: JsString): (t: JsString)
    ensures |t| == |s|
  {
    seq(|s|, i requires 0 <= i < |s| => LowerUnit(s[i]))
  }

  lemma LowerIdempotent(s: JsString)
    ensures Lower(Lower(s)) == Lower(s)
  {
  }

  /** The `<` of JavaScript strings: lexicographic on code units. */
  predicate Before(a: JsString, b: JsString) {
    if b == [] then false
    else if a == [] then true
    else a[0] < b[0] || (a[0] == b[0] && Before(a[1..], b[1..]))
  }

  lemma {:induction false} BeforeTotal(a: JsString, b: JsString)
    ensures Before(a, b) || Before(b, a) || a == b
  {
    if a != [] && b != [] && a[0] == b[0] {
      BeforeTotal(a[1..], b[1..]);
      assert a == [a[0]] + a[1..] && b == [b[0]] + b[1..];
    }
  }

  lemma {:induction false} BeforeTransitive(a: JsString, b: JsString, c: JsString)
    requires Before(a, b) && Before(b, c)
    ensures Before(a, c)
  {
    if a != [] && a[0] == b[0] == c[0] {
      BeforeTransitive(a[1..], b[1..], c[1..]);
    }
  }

  lemma {:induction false} BeforeIrreflexive(a: JsString)
    ensures !Before(a, a)
  {
    if a != [] {
      BeforeIrreflexive(a[1..]);
    }
  }

  lemma BeforeAsymmetric(a: JsString, b: JsString)
    requires Before(a, b)
    ensures !Before(b, a) && a != b
  {
    BeforeIrreflexive(a);
    if Before(b, a) {
      BeforeTransitive(a, b, a);
    }
  }

  /** The white space of `trim` and of `\s`. */
  predicate IsSpace(u: CodeUnit) {
    || 0x09 <= u <= 0x0D || u == 0x20 || u == 0xA0 || u == 0x1680 || 0x2000 <= u <= 0x200A
    || u == 0x2028 || u == 0x2029 || u == 0x202F || u == 0x205F || u == 0x3000 || u == 0xFEFF
  }

  function TrimStart(s: JsString): JsString {
    if s != [] && IsSpace(s[0]) then TrimStart(s[1..]) else s
  }

  function TrimEnd(s: JsString): JsString {
    if s != [] && IsSpace(s[|s| - 1]) then TrimEnd(s[..|s| - 1]) else s
  }

  function Trim(s: JsString): JsString {
    TrimEnd(TrimStart(s))
  }

  predicate StartsWith(s: JsString, prefix: JsString) {
    |prefix| <= |s| && forall i :: 0 <= i < |prefix| ==> s[i] == prefix[i]
  }

  function IndexFrom(s: JsString, needle: JsString, from: nat): (r: Option<nat>)
    requires from <= |s|
    ensures r.Some? ==> from <= r.value && r.value + |needle| <= |s| && StartsWith(s[r.value..], needle)
    ensures forall i :: from <= i < (if r.Some? then r.value else |s| + 1) ==> !StartsWith(s[i..], needle)
    decreases |s| - from
  {
    if StartsWith(s[from..], needle) then Some(from)
    else if from == |s| then None
    else IndexFrom(s, needle, from + 1)
  }

  /** `s.indexOf(needle)`, None for -1. */
  function IndexOf(s: JsString, needle: JsString): (r: Option<nat>)
    ensures r.Some? ==> r.value + |needle| <= |s| && StartsWith(s[r.value..], needle)
    ensures forall i :: 0 <= i < (if r.Some? then r.value else |s| + 1) ==> !StartsWith(s[i..], needle)
  {
    IndexFrom(s, needle, 0)
  }

  // ── Quotients and remainders ─────────────────────────────────────────────

  lemma Product(a: nat, b: nat)
    ensures a * b >= 0 && (a + 1) * b == a * b + b && (-1 - a) * b == -(a * b) - b
  {
  }

  lemma SmallMultiple(d: int, p: int)
    requires p > 0 && -p < d * p < p
    ensures d == 0
  {
    if d > 0 { Product(d - 1, p); }
    if d < 0 { Product(-1 - d, p); }
  }

  lemma SplitsAgree(x: int, a: int, b: int, q: int, r: int, p: int)
    requires x == a * p + b == q * p + r && 0 <= r < p && 0 <= b < p
    ensures a == q && b == r
  {
    assert (a - q) * p == a * p - q * p;
    SmallMultiple(a - q, p);
  }

  /** Dividing by p undoes a split into a multiple of p and a rest below p. */
  lemma Quotient(q: int, r: int, p: int)
    requires 0 <= r < p
    ensures (q * p + r) / p == q && (q * p + r) % p == r
  {
    var x := q * p + r;
    SplitsAgree(x, x / p, x % p, q, r, p);
  }

  lemma Remainder(x: int, k: int, p: int)
    requires p > 0
    ensures (x + k * p) % p == x % p && (x + k * p) / p == x / p + k
  {
    assert (x / p + k) * p == x / p * p + k * p;
    Quotient(x / p + k, x % p, p);
  }

  // ── 32-bit integers ──────────────────────────────────────────────────────

  function Pow2(k: nat): (p: nat)
    ensures p > 0
  {
    if k == 0 then 1 else 2 * Pow2(k - 1)
  }

  lemma PowersOfTwo()
    ensures Pow2(0) == 1 && Pow2(1) == 2 && Pow2(2) == 4 && Pow2(4) == 0x10 && Pow2(5) == 0x20 && Pow2(6) == 0x40
    ensures Pow2(8) == 0x100 && Pow2(12) == 0x1000 && Pow2(16) == 0x1_0000 && Pow2(18) == 0x4_0000
    ensures Pow2(24) == 0x100_0000
  {
    assert Pow2(6) == 0x40;
    assert Pow2(12) == 0x1000;
    assert Pow2(18) == 0x4_0000;
  }

  function ToUint32(x: int): uint32 {
    x % 0x1_0000_0000
  }

  function ToInt32(x: int): int {
    var u := x % 0x1_0000_0000;
    if u >= 0x8000_0000 then u - 0x1_0000_0000 else u
  }

  /** Wrapping moves by a multiple of 2^32, so remainders modulo smaller powers of two survive it. */
  lemma WrapIsCongruent(x: int) returns (k: int)
    ensures ToInt32(x) == x - k * 0x1_0000_0000
  {
    k := if x % 0x1_0000_0000 >= 0x8000_0000 then x / 0x1_0000_0000 + 1 else x / 0x1_0000_0000;
  }

  lemma WrapKeepsRemainders(x: int)
    ensures ToInt32(x) % 64 == x % 64 && ToInt32(x) % 0x100 == x % 0x100 && ToInt32(x) % 0x1000 == x % 0x1000
  {
    hide ToInt32;
    var k := WrapIsCongruent(x);
    Remainder(x, -k * 0x400_0000, 64);
    Remainder(x, -k * 0x100_0000, 0x100);
    Remainder(x, -k * 0x10_0000, 0x1000);
  }

  /** `x << k` */
  function Shl(x: int, k: nat): int {
    ToInt32(ToInt32(x) * Pow2(k))
  }

  /** `x >> k`: arithmetic, so the quotient rounds towards minus infinity. */
  function Sar(x: int, k: nat): int {
    ToInt32(x) / Pow2(k)
  }

  /** `x >>> k` */
  function Shr(x: int, k: nat): int {
    ToUint32(x) / Pow2(k)
  }

  /** `x & (2^k - 1)` */
  function Low(x: int, k: nat): nat {
    ToInt32(x) % Pow2(k)
  }

  /** `x & 0xff` */
  function LowByte(x: int): (b: byte)
    ensures b == ToInt32(x) % 0x100
  {
    assert Pow2(8) == 0x100;
    Low(x, 8)
  }

  function BitOr(a: nat, b: nat): nat
    decreases a + b
  {
    if a == 0 then b
    else if b == 0 then a
    else 2 * BitOr(a / 2, b / 2) + (if a % 2 == 1 || b % 2 == 1 then 1 else 0)
  }

  /** `x | y` */
  function Or(x: int, y: int): int {
    ToInt32(BitOr(ToUint32(x), ToUint32(y)))
  }

  /** Or-ing a value into cleared low bits adds it. */
  lemma {:induction false} OrIntoCleared(a: nat, k: nat, b: nat)
    requires b < Pow2(k)
    ensures BitOr(a * Pow2(k), b) == a * Pow2(k) + b
  {
    if k > 0 {
      var h := a * Pow2(k - 1);
      assert a * Pow2(k) == 2 * h;
      OrIntoCleared(a, k - 1, b / 2);
      hide Pow2;
      OrDoubled(h, b);
    }
  }

  /** One level of an or into a number whose lowest bit is clear. */
  lemma {:induction false} OrDoubled(h: nat, b: nat)
    ensures BitOr(2 * h, b) == 2 * BitOr(h, b / 2) + b % 2
  {
    hide BitOr;
    Quotient(h, 0, 2);
    if b == 0 {
      BitOrZero(h);
      BitOrZero(2 * h);
    } else if h == 0 {
      BitOrZero(b);
      BitOrZero(b / 2);
    } else {
      BitOrHalves(2 * h, b);
    }
  }

  lemma BitOrZero(b: nat)
    ensures BitOr(0, b) == b && BitOr(b, 0) == b
  {
  }

  lemma {:induction false} BitOrHalves(a: nat, b: nat)
    requires a > 0 && b > 0
    ensures BitOr(a, b) == 2 * BitOr(a / 2, b / 2) + (if a % 2 == 1 || b % 2 == 1 then 1 else 0)
  {
  }

  /** Below 2^31 the conversions do nothing, so shifts and ors act as on plain numbers. */
  lemma ShlSmall(x: nat, k: nat)
    requires x < 0x8000_0000 && x * Pow2(k) < 0x8000_0000
    ensures Shl(x, k) == x * Pow2(k)
  {
    assert ToInt32(x) == x;
  }

  lemma OrSmall(a: nat, k: nat, b: nat)
    requires b < Pow2(k) && a * Pow2(k) + b < 0x8000_0000
    ensures Or(a * Pow2(k), b) == a * Pow2(k) + b
  {
    OrIntoCleared(a, k, b);
    OrPlain(a * Pow2(k), b);
  }

  lemma SmallIsSigned(n: nat)
    requires n < 0x8000_0000
    ensures ToInt32(n) == n
  {
  }

  lemma SmallIsUnsigned(n: nat)
    requires n < 0x1_0000_0000
    ensures ToUint32(n) == n
  {
  }

  /** An or whose operands wrap: the unsigned readings are what gets or-ed. */
  lemma OrUnsigned(x: int, y: int)
    requires BitOr(ToUint32(x), ToUint32(y)) < 0x1_0000_0000
    ensures ToUint32(Or(x, y)) == BitOr(ToUint32(x), ToUint32(y))
  {
    hide BitOr;
  }

  lemma OrPlain(x: nat, y: nat)
    requires BitOr(x, y) == x + y < 0x8000_0000
    ensures Or(x, y) == x + y
  {
    hide BitOr;
  }
}
