/**
 * `_decompress` as the loop it is: the reader object `data` with its
 * `val`, `position` and `index`, the `bits`/`power`/`maxpower` loops that
 * read each field, and the `while (true)` loop over codes. The loop is
 * proved to compute `LzDecompress.Decompress`.
 */
module LzDecompressLoop {
  import opened JsStrings
  import opened Wrappers
  import opened LzBits
  import opened LzDecompress

  /** `data`: the current character's value, the mask of the next bit in it, and the next character's index. */
  datatype Reader = Reader(val: nat, position: nat, index: nat)

  /** `rd` is about to read bit `pos` of the input. */
  ghost predicate At(units: JsString, rd: Reader, pos: nat)
  {
    rd.index == pos / 6 + 1 && rd.position == Pow2(5 - pos % 6) && rd.val == CharValue(units, pos / 6)
  }

  lemma {:induction false} AndIsSetZero(p: nat)
    ensures !AndIsSet(0, p)
    decreases p
  {
    if p > 1 {
      AndIsSetZero(p / 2);
    }
  }

  /** The bit the reader tests is the input's bit, zero past the end. */
  lemma StreamBitPadded(units: JsString, k: nat)
    ensures PaddedBit(InputBits(units), k) == StreamBit(units, k)
  {
    if k >= 6 * |units| {
      assert CharValue(units, k / 6) == 0;
      AndIsSetZero(Pow2(5 - k % 6));
    }
  }

  lemma {:induction false} FieldSnoc(bits: seq<bool>, p: nat, i: nat)
    ensures Field(bits, p, i + 1) == Field(bits, p, i) + (if PaddedBit(bits, p + i) then Pow2(i) else 0)
    decreases i
  {
    if i > 0 {
      FieldSnoc(bits, p + 1, i - 1);
    }
  }

  lemma {:induction false} Pow2Below(i: nat, n: nat)
    requires i < n
    ensures Pow2(i) < Pow2(n)
    decreases n
  {
    if i < n - 1 {
      Pow2Below(i, n - 1);
    }
  }

  /**
   * One bit: `resb = data.val & data.position; data.position >>= 1`, and
   * the next character is loaded when the mask runs out.
   */
  method ReadBit(units: JsString, rd: Reader, ghost pos: nat) returns (b: bool, rd': Reader)
    requires At(units, rd, pos)
    ensures b == PaddedBit(InputBits(units), pos) && At(units, rd', pos + 1)
  {
    StreamBitPadded(units, pos);
    b := AndIsSet(rd.val, rd.position);
    rd' := rd.(position := rd.position / 2);
    if rd'.position == 0 {
      rd' := Reader(CharValue(units, rd.index), 32, rd.index + 1);
      assert pos % 6 == 5;
    } else {
      assert pos % 6 < 5;
    }
  }

  /**
   * An `n`-bit field, least significant bit first:
   * `bits |= (resb > 0 ? 1 : 0) * power; power <<= 1` until `power` is
   * `2^n`. (`bits` is below `power`, so the `|` is an addition.)
   */
  method ReadBits(units: JsString, rd: Reader, ghost pos: nat, n: nat) returns (v: nat, rd': Reader)
    requires At(units, rd, pos)
    ensures v == Field(InputBits(units), pos, n) && At(units, rd', pos + n)
  {
    v := 0;
    rd' := rd;
    var maxpower := Pow2(n);
    var power := 1;
    ghost var i := 0;
    while power != maxpower
      invariant i <= n && power == Pow2(i)
      invariant v == Field(InputBits(units), pos, i) && At(units, rd', pos + i)
      decreases n - i
    {
      assert i < n;
      var b;
      b, rd' := ReadBit(units, rd', pos + i);
      FieldSnoc(InputBits(units), pos, i);
      v := v + (if b then power else 0);
      power := 2 * power;
      i := i + 1;
    }
    if i < n {
      Pow2Below(i, n);
    }
  }

  /** `if (enlargeIn === 0) { enlargeIn = 2^numBits; numBits++; }` */
  method Widen(enlargeIn: int, numBits: nat) returns (enlargeIn': int, numBits': nat)
    ensures (enlargeIn', numBits') == Grow(enlargeIn, numBits)
  {
    enlargeIn', numBits' := enlargeIn, numBits;
    if enlargeIn == 0 {
      enlargeIn' := Pow2(numBits);
      numBits' := numBits + 1;
    }
  }

  /** The decoder's other loop variables: `dictionary` (with `dictSize` its length), `w`, `result`, `enlargeIn`, `numBits`. */
  datatype Vars = Vars(dict: seq<Entry>, w: Option<JsString>, result: JsString, enlargeIn: int, numBits: nat)

  ghost function Decoder(v: Vars, pos: nat): DState
  {
    DState(pos, v.dict, v.w, v.result, v.enlargeIn, v.numBits)
  }

  /**
   * `entry = dictionary[c]` when that is truthy, `w + w.charAt(0)` when `c`
   * is the next free code, `null` otherwise; `w.charAt` on an undefined `w`
   * and `entry.charAt` on a number throw.
   */
  method ResolveCode(dictionary: seq<Entry>, c: nat, w: Option<JsString>) returns (l: Lookup)
    ensures l == Resolve(dictionary, c, w)
  {
    if c < |dictionary| && Truthy(dictionary[c]) {
      if !dictionary[c].Str? {
        return Throws;
      }
      l := Found(dictionary[c].s);
    } else if c == |dictionary| {
      if w.None? {
        return Throws;
      }
      l := Found(w.value + FirstUnit(w.value));
    } else {
      l := Missing;
    }
  }

  /** The body after the code `code` (not 2), which ends at bit `p1`. */
  method CodeBody(units: JsString, rd: Reader, v: Vars, code: nat, ghost pos: nat, ghost p1: nat)
    returns (done: bool, r: Outcome, rd': Reader, v': Vars, ghost pos': nat)
    requires v.numBits > 0 && code != 2 && At(units, rd, p1)
    ensures var next := Body(InputBits(units), Decoder(v, pos), code, p1);
      if done then next == Halt(r) else next == Continue(Decoder(v', pos')) && At(units, rd', pos')
  {
    ghost var x := InputBits(units);
    done, r, rd', v', pos' := true, Text([]), rd, v, p1;
    var dictionary := v.dict;
    var enlargeIn := v.enlargeIn;
    var c := code;
    if code < 2 {
      var unit;
      var width := if code == 0 then 8 else 16;
      unit, rd' := ReadBits(units, rd, p1, width);
      assert unit == LiteralUnit(x, p1, code);
      dictionary := dictionary + [Str([unit as CodeUnit])];
      c := |dictionary| - 1;
      enlargeIn := enlargeIn - 1;
      pos' := p1 + width;
    }
    var numBits;
    enlargeIn, numBits := Widen(enlargeIn, v.numBits);
    var l := ResolveCode(dictionary, c, v.w);
    if l == Missing {
      r := Null;
      return;
    } else if l == Throws {
      r := TypeError;
      return;
    }
    var entry := l.entry;
    dictionary := dictionary + [Str(Concat(v.w, FirstUnit(entry)))];
    enlargeIn, numBits := Widen(enlargeIn - 1, numBits);
    v' := Vars(dictionary, Some(entry), v.result + entry, enlargeIn, numBits);
    done := false;
  }

  /** `data.index > length` holds exactly when every bit has been read. */
  lemma IndexPastEnd(units: JsString, rd: Reader, pos: nat)
    requires At(units, rd, pos)
    ensures rd.index > |units| <==> pos >= |InputBits(units)|
  {
  }

  lemma PassCases(x: seq<bool>, d: DState)
    requires d.numBits > 0 && d.pos < |x|
    ensures var code := Field(x, d.pos, d.numBits);
      Pass(x, d) == if code == 2 then Halt(Text(d.result)) else Body(x, d, code, d.pos + d.numBits)
  {
  }

  /**
   * One pass of the `while (true)` loop, which either leaves
   * `_decompress` with its value or goes on with the new variables.
   */
  method LoopBody(units: JsString, rd: Reader, v: Vars, ghost pos: nat)
    returns (done: bool, r: Outcome, rd': Reader, v': Vars, ghost pos': nat)
    requires v.numBits > 0 && At(units, rd, pos)
    ensures var next := Pass(InputBits(units), Decoder(v, pos));
      if done then next == Halt(r) else next == Continue(Decoder(v', pos')) && At(units, rd', pos')
  {
    IndexPastEnd(units, rd, pos);
    done, r, rd', v', pos' := true, Text([]), rd, v, pos;
    if rd.index > |units| {
      return;
    }
    PassCases(InputBits(units), Decoder(v, pos));
    var code;
    code, rd' := ReadBits(units, rd, pos, v.numBits);
    if code == 2 {
      r := Text(v.result);
      return;
    }
    done, r, rd', v', pos' := CodeBody(units, rd', v, code, pos, pos + v.numBits);
  }

  /** `_decompress(input.length, 32, getNextValue)` for a non-empty input. */
  method DecompressText(units: JsString) returns (r: Outcome)
    ensures r == DecompressUnits(units)
  {
    ghost var x := InputBits(units);
    var rd := Reader(CharValue(units, 0), 32, 1);
    Pow2Widths();
    var next;
    next, rd := ReadBits(units, rd, 0, 2);
    if next == 2 {
      return Text([]);
    }
    var c: Option<JsString> := None;
    if next == 0 {
      var unit;
      unit, rd := ReadBits(units, rd, 2, 8);
      c := Some([unit as CodeUnit]);
    } else if next == 1 {
      var unit;
      unit, rd := ReadBits(units, rd, 2, 16);
      c := Some([unit as CodeUnit]);
    }
    var v := Vars([Num(0), Num(1), Num(2), if c.Some? then Str(c.value) else Undefined], c,
                  if c.Some? then c.value else [], 4, 3);
    ghost var pos := if next == 0 then 10 else if next == 1 then 18 else 2;
    assert Loop(x, Decoder(v, pos)) == DecompressUnits(units);
    while true
      invariant v.numBits > 0 && At(units, rd, pos)
      invariant Loop(x, Decoder(v, pos)) == DecompressUnits(units)
      decreases |x| - pos
    {
      var done;
      done, r, rd, v, pos := LoopBody(units, rd, v, pos);
      if done {
        return;
      }
    }
  }

  /** `decompressFromEncodedURIComponent(input)`: `null` and "" give "". */
  method DecompressFromEncodedURIComponent(input: Option<JsString>) returns (r: Outcome)
    ensures r == Decompress(input)
  {
    if input.None? || input.value == [] {
      return Text([]);
    }
    r := DecompressText(input.value);
  }
}
