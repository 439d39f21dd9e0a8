/**
 * `_compress` of the URI-safe LZString codec as a state machine: an LZW
 * coder whose dictionary starts empty, whose first use of a character is
 * sent as a literal (8 or 16 bits after a 0 or 1 marker code), and whose
 * code width `numBits` grows each time `enlargeIn` runs out.
 */
module LzCompress {
  import opened JsStrings
  import opened Wrappers
  import opened LzBits

  /**
   * The coder's variables: `context_dictionary`, the characters still in
   * `context_dictionaryToCreate` (its keys are single characters),
   * `context_w`, `context_enlargeIn`, `context_dictSize`,
   * `context_numBits`, and every bit written so far.
   */
  datatype State = State(
    dict: map<JsString, nat>,
    toCreate: set<CodeUnit>,
    w: JsString,
    enlargeIn: int,
    dictSize: nat,
    numBits: nat,
    bits: seq<bool>)

  const Start := State(map[], {}, [], 2, 3, 2, [])

  /** `enlargeIn--`, and when it reaches 0 the code width grows by one bit. */
  function Tick(st: State): (r: State)
    ensures r.bits == st.bits && r.dict == st.dict && r.w == st.w && r.toCreate == st.toCreate
    ensures r.dictSize == st.dictSize && r.numBits >= st.numBits
  {
    if st.enlargeIn - 1 == 0 then st.(enlargeIn := Pow2(st.numBits), numBits := st.numBits + 1)
    else st.(enlargeIn := st.enlargeIn - 1)
  }

  /** `w` is a single character whose literal has not been sent yet. */
  predicate Pending(st: State)
  {
    |st.w| == 1 && st.w[0] in st.toCreate
  }

  /** The bits of a literal: the marker code 0 (8-bit unit) or 1 (16-bit unit), then the unit. */
  function LiteralBits(u: CodeUnit, numBits: nat): seq<bool>
  {
    if u < 256 then LsbBits(0, numBits) + LsbBits(u, 8) else LsbBits(1, numBits) + LsbBits(u, 16)
  }

  /** The code written for `w`; JavaScript reads `undefined & 1` as 0 when `w` has none. */
  function CodeOf(st: State): nat
  {
    if st.w in st.dict then st.dict[st.w] else 0
  }

  /** Writing the phrase `w`: its literal the first time, else its dictionary code. */
  function EmitW(st: State): State
  {
    if Pending(st) then
      var st1 := Tick(st.(bits := st.bits + LiteralBits(st.w[0], st.numBits)));
      Tick(st1.(toCreate := st1.toCreate - {st.w[0]}))
    else
      Tick(st.(bits := st.bits + LsbBits(CodeOf(st), st.numBits)))
  }

  /** The first sight of `c`: it gets the next code and is marked for a literal. */
  function AddChar(st: State, c: CodeUnit): State
  {
    st.(dict := st.dict[[c] := st.dictSize], dictSize := st.dictSize + 1, toCreate := st.toCreate + {c})
  }

  /** One pass of the main loop over the character `c`. */
  function Step(st: State, c: CodeUnit): State
  {
    var st1 := if [c] in st.dict then st else AddChar(st, c);
    var wc := st1.w + [c];
    if wc in st1.dict then st1.(w := wc)
    else
      var st2 := EmitW(st1);
      st2.(dict := st2.dict[wc := st2.dictSize], dictSize := st2.dictSize + 1, w := [c])
  }

  function Run(st: State, s: JsString): State
    decreases |s|
  {
    if s == [] then st else Run(Step(st, s[0]), s[1..])
  }

  lemma {:induction false} RunSnoc(st: State, s: JsString, c: CodeUnit)
    ensures Run(st, s + [c]) == Step(Run(st, s), c)
    decreases |s|
  {
    if s == [] {
      assert Run(Step(st, c), []) == Step(st, c);
    } else {
      assert (s + [c])[1..] == s[1..] + [c];
      RunSnoc(Step(st, s[0]), s[1..], c);
    }
  }

  lemma {:induction false} RunAppend(st: State, s: JsString, t: JsString)
    ensures Run(st, s + t) == Run(Run(st, s), t)
    decreases |s|
  {
    if s != [] {
      assert (s + t)[1..] == s[1..] + t;
      RunAppend(Step(st, s[0]), s[1..], t);
    } else {
      assert s + t == t;
    }
  }

  /** After the loop: the pending phrase, then the end-of-stream code 2. */
  function Finish(st: State): seq<bool>
  {
    var st1 := if st.w != [] then EmitW(st) else st;
    st1.bits + LsbBits(2, st1.numBits)
  }

  /** Every bit `_compress` writes for `s`, before padding. */
  function CompressBits(s: JsString): seq<bool>
  {
    Finish(Run(Start, s))
  }

  /**
   * `compressToEncodedURIComponent(input)`: `null` gives "", anything else
   * its bit stream six bits per character of the URI-safe alphabet, which
   * has no '='.
   */
  function Compress(input: Option<JsString>): (r: JsString)
    ensures input.None? ==> r == []
    ensures input.Some? ==> |r| >= 1
    ensures forall i :: 0 <= i < |r| ==> BaseValue(r[i]).Some? && BaseValue(r[i]).value < 64
    ensures '=' as int !in r
  {
    if input.None? then [] else Pack(CompressBits(input.value))
  }
}
