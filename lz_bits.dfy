/**
 * The bit layer of the URI-safe LZString codec: fields written least
 * significant bit first, six bits per output character (first bit most
 * significant), and the 65-character key string whose first 64 characters
 * are the output alphabet.
 */
module LzBits {
  import opened JsStrings
  import opened Wrappers

  function Pow2(n: nat): (r: nat)
    ensures r >= 1
  {
    if n == 0 then 1 else 2 * Pow2(n - 1)
  }

  /** The field widths the format uses. */
  lemma Pow2Widths()
    ensures Pow2(2) == 4 && Pow2(5) == 32 && Pow2(8) == 256 && Pow2(16) == 0x1_0000
  {
    assert Pow2(2) == 4;
    assert Pow2(4) == 16;
    assert Pow2(5) == 32;
    assert Pow2(6) == 64;
    assert Pow2(8) == 256;
    assert Pow2(10) == 1024;
    assert Pow2(12) == 4096;
    assert Pow2(14) == 16384;
  }

  /** `n` bits of `v`, least significant first: how `_compress` writes a field. */
  function LsbBits(v: nat, n: nat): (r: seq<bool>)
    ensures |r| == n
  {
    if n == 0 then [] else [v % 2 == 1] + LsbBits(v / 2, n - 1)
  }

  /** The value of a field whose bits arrive least significant first. */
  function LsbValue(b: seq<bool>): nat
  {
    if b == [] then 0 else (if b[0] then 1 else 0) + 2 * LsbValue(b[1..])
  }

  lemma {:induction false} LsbRoundTrip(v: nat, n: nat)
    requires v < Pow2(n)
    ensures LsbValue(LsbBits(v, n)) == v
  {
    if n > 0 {
      LsbRoundTrip(v / 2, n - 1);
      assert LsbBits(v, n)[1..] == LsbBits(v / 2, n - 1);
    }
  }

  /** The value of bits packed most significant first: `val = (val << 1) | bit`. */
  function MsbValue(g: seq<bool>): nat
  {
    if g == [] then 0 else 2 * MsbValue(g[..|g| - 1]) + (if g[|g| - 1] then 1 else 0)
  }

  lemma {:induction false} MsbValueBound(g: seq<bool>)
    ensures MsbValue(g) < Pow2(|g|)
  {
    if g != [] {
      MsbValueBound(g[..|g| - 1]);
    }
  }

  /** Bit `j` of `v` (weight `2^j`). */
  function BitAt(v: nat, j: nat): bool
  {
    if j == 0 then v % 2 == 1 else BitAt(v / 2, j - 1)
  }

  /**
   * `v & p` is non-zero, for `p` a power of two: the bit test `_decompress`
   * makes with `data.val & data.position`.
   */
  function AndIsSet(v: nat, p: nat): bool
  {
    if p <= 1 then v % 2 == 1 else AndIsSet(v / 2, p / 2)
  }

  lemma {:induction false} AndIsSetIsBitAt(v: nat, j: nat)
    ensures AndIsSet(v, Pow2(j)) == BitAt(v, j)
  {
    if j > 0 {
      AndIsSetIsBitAt(v / 2, j - 1);
      assert Pow2(j) / 2 == Pow2(j - 1);
    }
  }

  lemma BitAtDouble(a: nat, b: nat, k: nat)
    requires b < 2
    ensures BitAt(2 * a + b, k + 1) == BitAt(a, k) && BitAt(2 * a + b, 0) == (b == 1)
  {
    assert (2 * a + b) / 2 == a;
  }

  /** Bit `j` of a packed group is found at weight `2^(|g| - 1 - j)`. */
  lemma {:induction false} MsbBit(g: seq<bool>, j: nat)
    requires j < |g|
    ensures BitAt(MsbValue(g), |g| - 1 - j) == g[j]
  {
    var init := g[..|g| - 1];
    var b := if g[|g| - 1] then 1 else 0;
    assert MsbValue(g) == 2 * MsbValue(init) + b;
    if j < |g| - 1 {
      BitAtDouble(MsbValue(init), b, |g| - 2 - j);
      MsbBit(init, j);
      assert init[j] == g[j];
    } else {
      BitAtDouble(MsbValue(init), b, 0);
    }
  }

  /** `n` consecutive code units from `start`. */
  function UnitRange(start: nat, n: nat): (r: JsString)
    requires start + n <= 0x1_0000
    ensures |r| == n && forall i :: 0 <= i < n ==> r[i] == start + i
  {
    seq(n, i requires 0 <= i < n => (start + i) as CodeUnit)
  }

  /** `keyStrUriSafe`: A-Z, a-z, 0-9, then '+', '-' and '$'. */
  const KeyStr: JsString :=
    UnitRange('A' as int, 26) + UnitRange('a' as int, 26) + UnitRange('0' as int, 10) + ['+' as int, '-' as int, '$' as int]

  /**
   * `getBaseValue(keyStrUriSafe, ch)`: the position of `ch` in the key
   * string, read off its code-unit ranges; `None` (JavaScript `undefined`)
   * for any other character.
   */
  function BaseValue(u: CodeUnit): (r: Option<nat>)
    ensures r.Some? ==> r.value < 65
  {
    if 'A' as int <= u <= 'Z' as int then Some(u - 'A' as int)
    else if 'a' as int <= u <= 'z' as int then Some(u - 'a' as int + 26)
    else if '0' as int <= u <= '9' as int then Some(u - '0' as int + 52)
    else if u == '+' as int then Some(62)
    else if u == '-' as int then Some(63)
    else if u == '$' as int then Some(64)
    else None
  }

  lemma KeyStrSize()
    ensures |KeyStr| == 65
  {
  }

  lemma KeyStrFacts()
    ensures |KeyStr| == 65
    ensures forall i :: 0 <= i < 65 ==> BaseValue(KeyStr[i]) == Some(i)
  {
  }

  /** The reverse dictionary is exactly the inverse of the key string. */
  lemma BaseValueInverse(u: CodeUnit, i: nat)
    ensures BaseValue(u) == Some(i) <==> i < 65 && KeyStr[i] == u
  {
    KeyStrFacts();
    if i < 65 && KeyStr[i] == u {
    } else if BaseValue(u) == Some(i) {
      assert BaseValue(KeyStr[i]) == Some(i);
      BaseValueInjective(u, KeyStr[i]);
    }
  }

  lemma BaseValueInjective(u: CodeUnit, v: CodeUnit)
    requires BaseValue(u).Some? && BaseValue(u) == BaseValue(v)
    ensures u == v
  {
  }

  /** Bit `k` of the stream, zero past its end. */
  function PaddedBit(bits: seq<bool>, k: nat): bool
  {
    k < |bits| && bits[k]
  }

  /** The six bits that make up output character `i`. */
  function Group(bits: seq<bool>, i: nat): (g: seq<bool>)
    ensures |g| == 6
  {
    seq(6, j requires 0 <= j < 6 => PaddedBit(bits, 6 * i + j))
  }

  function GroupValue(bits: seq<bool>, i: nat): (v: nat)
    ensures v < 64
  {
    MsbValueBound(Group(bits, i));
    MsbValue(Group(bits, i))
  }

  /**
   * The output characters for a bit stream: six bits per character, and
   * the last character filled up with zero bits exactly as the final loop
   * of `_compress` does, which always writes at least one padding bit.
   */
  function Pack(bits: seq<bool>): (r: JsString)
    ensures |r| == |bits| / 6 + 1
    ensures forall i :: 0 <= i < |r| ==> BaseValue(r[i]).Some? && BaseValue(r[i]).value < 64
  {
    KeyStrFacts();
    seq(|bits| / 6 + 1, i requires 0 <= i <= |bits| / 6 => KeyStr[GroupValue(bits, i)])
  }

  /**
   * `getNextValue(i)`: the value of the `i`-th input character; a
   * character outside the key string, or a position past the end, gives
   * `undefined`, which the bit test treats as 0.
   */
  function CharValue(input: JsString, i: nat): nat
  {
    if i < |input| && BaseValue(input[i]).Some? then BaseValue(input[i]).value else 0
  }

  /** The `k`-th bit `_decompress` reads: position `32 >> (k % 6)` of character `k / 6`. */
  function StreamBit(input: JsString, k: nat): bool
  {
    AndIsSet(CharValue(input, k / 6), Pow2(5 - k % 6))
  }

  /** Every bit `_decompress` can read from `input`, in reading order. */
  function InputBits(input: JsString): (r: seq<bool>)
    ensures |r| == 6 * |input|
  {
    seq(6 * |input|, k requires 0 <= k < 6 * |input| => StreamBit(input, k))
  }

  /**
   * The `n`-bit field at bit position `p`, least significant bit first;
   * past the last character every bit reads as 0.
   */
  function Field(bits: seq<bool>, p: nat, n: nat): (v: nat)
    ensures v < Pow2(n)
    decreases n
  {
    if n == 0 then 0 else (if PaddedBit(bits, p) then 1 else 0) + 2 * Field(bits, p + 1, n - 1)
  }

  lemma {:induction false} BitAtZero(j: nat)
    ensures !BitAt(0, j)
  {
    if j > 0 { BitAtZero(j - 1); }
  }

  /** Reading a packed stream gives back its bits, and zeros after them. */
  lemma PackedStreamBit(bits: seq<bool>, k: nat)
    ensures StreamBit(Pack(bits), k) == PaddedBit(bits, k)
  {
    var i, j := k / 6, k % 6;
    var out := Pack(bits);
    assert k == 6 * i + j && j < 6;
    assert StreamBit(out, k) == AndIsSet(CharValue(out, i), Pow2(5 - j));
    AndIsSetIsBitAt(CharValue(out, i), 5 - j);
    if i < |out| {
      PackedChar(bits, i);
      MsbBit(Group(bits, i), j);
      assert Group(bits, i)[j] == PaddedBit(bits, k);
    } else {
      assert CharValue(out, i) == 0;
      BitAtZero(5 - j);
    }
  }

  /** Character `i` of a packed stream reads back as the value of group `i`. */
  lemma PackedChar(bits: seq<bool>, i: nat)
    requires i < |Pack(bits)|
    ensures CharValue(Pack(bits), i) == GroupValue(bits, i)
  {
    var m := GroupValue(bits, i);
    KeyStrFacts();
    assert Pack(bits)[i] == KeyStr[m];
    assert BaseValue(KeyStr[m]) == Some(m);
  }

  /** Reading a packed stream gives back the bits that were packed. */
  lemma InputBitsOfPacked(bits: seq<bool>)
    ensures |InputBits(Pack(bits))| >= |bits| && InputBits(Pack(bits))[..|bits|] == bits
  {
    var r := InputBits(Pack(bits));
    forall k | 0 <= k < |bits|
      ensures r[k] == bits[k]
    {
      PackedStreamBit(bits, k);
    }
  }

  lemma {:induction false} FieldIsLsbValue(bits: seq<bool>, p: nat, n: nat)
    requires p + n <= |bits|
    ensures Field(bits, p, n) == LsbValue(bits[p..p + n])
    decreases n
  {
    if n > 0 {
      FieldIsLsbValue(bits, p + 1, n - 1);
      assert bits[p..p + n][1..] == bits[p + 1..p + n];
    }
  }

  /** A field written with `LsbBits` is read back by `Field`. */
  lemma ReadWrittenField(bits: seq<bool>, p: nat, v: nat, n: nat)
    requires p + n <= |bits| && bits[p..p + n] == LsbBits(v, n) && v < Pow2(n)
    ensures Field(bits, p, n) == v
  {
    FieldIsLsbValue(bits, p, n);
    LsbRoundTrip(v, n);
  }
}
