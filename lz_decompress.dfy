/**
 * `_decompress` of the URI-safe LZString codec as a recursive function
 * over the bit position, with the JavaScript quirks of its dictionary:
 * slots 0-2 hold the numbers 0, 1, 2, an entry is used only when it is
 * truthy, and a first code of 3 leaves `c` (and so `w`) `undefined`.
 */
module LzDecompress {
  import opened JsStrings
  import opened Wrappers
  import opened LzBits

  /** A slot of the `dictionary` array. */
  datatype Entry = Undefined | Num(n: nat) | Str(s: JsString)

  /** What `_decompress` ends with: a string, `null`, or a thrown `TypeError`. */
  datatype Outcome = Text(s: JsString) | Null | TypeError

  predicate Truthy(e: Entry)
  {
    match e
    case Undefined => false
    case Num(n) => n != 0
    case Str(s) => s != []
  }

  /** The text "undefined", which `w + x` produces while `w` is `undefined`. */
  const UndefinedText: JsString := [117, 110, 100, 101, 102, 105, 110, 101, 100]

  /** `w + x` for the decoder's previous phrase `w`. */
  function Concat(w: Option<JsString>, x: JsString): JsString
  {
    if w.Some? then w.value + x else UndefinedText + x
  }

  /** `s.charAt(0)`: the first unit, or "" for the empty string. */
  function FirstUnit(s: JsString): JsString
  {
    if s == [] then [] else [s[0]]
  }

  /**
   * The decoder's loop variables; `dictSize` is `|dict|`, and the `result`
   * array, which is only ever pushed to and finally joined, is kept as its
   * join (an `undefined` element joins as "").
   */
  datatype DState = DState(
    pos: nat,
    dict: seq<Entry>,
    w: Option<JsString>,
    result: JsString,
    enlargeIn: int,
    numBits: nat)

  /** `if (enlargeIn === 0) { enlargeIn = 2^numBits; numBits++; }` */
  function Grow(enlargeIn: int, numBits: nat): (r: (int, nat))
    ensures r.1 >= numBits
  {
    if enlargeIn == 0 then (Pow2(numBits), numBits + 1) else (enlargeIn, numBits)
  }

  /** Resolving code `c`: an entry, `null`, or a `TypeError`. */
  datatype Lookup = Found(entry: JsString) | Missing | Throws

  function Resolve(dict: seq<Entry>, c: nat, w: Option<JsString>): Lookup
  {
    if c < |dict| && Truthy(dict[c]) then
      (if dict[c].Str? then Found(dict[c].s) else Throws)
    else if c == |dict| then
      (if w.Some? then Found(w.value + FirstUnit(w.value)) else Throws)
    else Missing
  }

  /** A unit read as a literal: 8 bits after marker 0, 16 after marker 1. */
  function LiteralUnit(input: seq<bool>, p: nat, marker: nat): CodeUnit
    requires marker < 2
  {
    var v := Field(input, p, if marker == 0 then 8 else 16);
    Pow2Widths();
    v
  }

  /** Where one pass of the loop body leads: on to the next pass, or out of `_decompress`. */
  datatype Next = Continue(d: DState) | Halt(outcome: Outcome)

  /**
   * One pass of the loop body after the code `code` (not 2) was read and
   * the position moved to `p1`: a literal is added to the dictionary, the
   * code is resolved, and the new phrase is recorded.
   */
  function Body(input: seq<bool>, d: DState, code: nat, p1: nat): (r: Next)
    requires d.numBits > 0 && code != 2
    ensures r.Continue? ==> r.d.numBits >= d.numBits && r.d.pos >= p1
  {
    var literal := code < 2;
    var dict1 := if literal then d.dict + [Str([LiteralUnit(input, p1, code)])] else d.dict;
    var c := if literal then |dict1| - 1 else code;
    var p2 := if literal then p1 + (if code == 0 then 8 else 16) else p1;
    var g1 := Grow(if literal then d.enlargeIn - 1 else d.enlargeIn, d.numBits);
    match Resolve(dict1, c, d.w)
    case Found(entry) =>
      var g2 := Grow(g1.0 - 1, g1.1);
      Continue(DState(p2, dict1 + [Str(Concat(d.w, FirstUnit(entry)))], Some(entry), d.result + entry, g2.0, g2.1))
    case Missing => Halt(Null)
    case Throws => Halt(TypeError)
  }

  /**
   * One pass of the `while (true)` loop from bit position `d.pos` of the
   * input's bits: `data.index > length` holds exactly when every bit has
   * been consumed, and the code 2 ends the stream.
   */
  function Pass(input: seq<bool>, d: DState): (r: Next)
    requires d.numBits > 0
    ensures r.Continue? ==> r.d.numBits >= d.numBits && r.d.pos > d.pos && d.pos < |input|
  {
    if d.pos >= |input| then Halt(Text([]))
    else
      var code := Field(input, d.pos, d.numBits);
      if code == 2 then Halt(Text(d.result)) else Body(input, d, code, d.pos + d.numBits)
  }

  /** The loop, pass after pass until one leaves `_decompress`. */
  function Loop(input: seq<bool>, d: DState): Outcome
    requires d.numBits > 0
    decreases |input| - d.pos
  {
    match Pass(input, d)
    case Halt(outcome) => outcome
    case Continue(d') => Loop(input, d')
  }

  /** The first code is 2 bits wide and must be a literal (0, 1) or the end (2). */
  function DecompressUnits(units: JsString): Outcome
  {
    var input := InputBits(units);
    var next := Field(input, 0, 2);
    if next == 2 then Text([])
    else
      var c: Option<JsString> := if next < 2 then Some([LiteralUnit(input, 2, next)]) else None;
      var p := if next == 0 then 10 else if next == 1 then 18 else 2;
      var first := if c.Some? then Str(c.value) else Undefined;
      Loop(input, DState(p, [Num(0), Num(1), Num(2), first], c, if c.Some? then c.value else [], 4, 3))
  }

  /** `decompressFromEncodedURIComponent(input)`. */
  function Decompress(input: Option<JsString>): (r: Outcome)
    ensures input.None? || input == Some([]) ==> r == Text([])
  {
    if input.None? || input.value == [] then Text([]) else DecompressUnits(input.value)
  }

  /**
   * A first literal followed by a code past the next free one (5, 6 or 7
   * in three bits, with codes 0-3 in use and 4 next) ends in `null`.
   */
  lemma UndefinedCodeIsNull(units: JsString)
    requires var x := InputBits(units); |x| > 10 && Field(x, 0, 2) == 0 && Field(x, 10, 3) >= 5
    ensures DecompressUnits(units) == Null
  {
    var x := InputBits(units);
    var c := [LiteralUnit(x, 2, 0)];
    var d := DState(10, [Num(0), Num(1), Num(2), Str(c)], Some(c), c, 4, 3);
    assert DecompressUnits(units) == Loop(x, d);
    assert Pass(x, d) == Halt(Null);
  }

  /** "ACg": the 2-bit code 0, the 8-bit unit 0, then the 3-bit code 5. */
  lemma InvalidTokenIsNull()
    ensures Decompress(Some(Units("ACg"))) == Null
  {
    var units := Units("ACg");
    assert units == [65, 67, 103];
    var x := InputBits(units);
    assert CharValue(units, 0) == 0 && CharValue(units, 1) == 2 && CharValue(units, 2) == 32;
    assert x[0] == false && x[1] == false;
    assert x[10] == true && x[11] == false && x[12] == true;
    assert Field(x, 0, 2) == 0;
    assert Field(x, 10, 3) == 5;
    UndefinedCodeIsNull(units);
  }
}
