/**
 * `decompressFromEncodedURIComponent(compressToEncodedURIComponent(s)) == s`
 * for every string `s`.
 *
 * The proof runs the coder and the decoder side by side. After each
 * character the decoder, fed the bits written so far, has rebuilt every
 * dictionary entry the coder made except the newest phrase (and a literal
 * still waiting to be sent), uses the same code width, and has output
 * everything but the coder's pending phrase `w`.
 */
module LzRoundTrip {
  import opened JsStrings
  import opened Wrappers
  import opened LzBits
  import opened LzCompress
  import opened LzDecompress

  /** The coder's dictionary in code order, as the decoder will have it. */
  ghost function Codes(st: State, d: DState): seq<Entry>
    requires st.w != [] && d.w.Some?
  {
    d.dict + (if Pending(st) then [Str(st.w)] else []) + [Str(d.w.value + [st.w[0]])]
  }

  /** `dict` maps each string of `codes` to its position, and nothing else. */
  ghost predicate DictMatches(dict: map<JsString, nat>, codes: seq<Entry>, size: nat)
  {
    size == |codes| &&
    (forall i :: 3 <= i < |codes| ==> codes[i].Str? && codes[i].s in dict && dict[codes[i].s] == i) &&
    (forall key :: key in dict ==> 3 <= dict[key] < |codes| && codes[dict[key]] == Str(key))
  }

  /** Every character of every phrase has a code of its own. */
  ghost predicate KeysClosed(dict: map<JsString, nat>)
  {
    forall key, j :: key in dict && 0 <= j < |key| ==> [key[j]] in dict
  }

  /** A character still waiting for its literal begins no longer phrase. */
  ghost predicate PendingFresh(st: State)
  {
    Pending(st) ==> forall key :: key in st.dict && |key| >= 2 ==> key[0] != st.w[0]
  }

  /** `dictSize + enlargeIn` stays one past the code space, plus a pending literal. */
  ghost predicate Budget(st: State)
  {
    st.numBits >= 2 && st.enlargeIn >= 1 &&
    st.dictSize + st.enlargeIn == Pow2(st.numBits) + 1 + (if Pending(st) then 1 else 0)
  }

  ghost predicate DecoderShape(d: DState)
  {
    |d.dict| >= 3 &&
    (forall i :: 3 <= i < |d.dict| ==> d.dict[i].Str? && d.dict[i].s != []) &&
    d.w.Some? && d.w.value != []
  }

  /** Both sides have the same counters, and the decoder is where the coder's bits end. */
  ghost predicate Synced(st: State, d: DState)
  {
    st.w != [] && d.w.Some? && d.w.value != [] &&
    st.numBits >= 2 && st.enlargeIn >= 1 &&
    d.enlargeIn == st.enlargeIn && d.numBits == st.numBits && d.pos == |st.bits|
  }

  /** The coder in state `st` and the decoder in state `d` are in step. */
  ghost predicate Inv(st: State, d: DState)
  {
    Synced(st, d) && st.w in st.dict &&
    (st.toCreate == {} || (|st.w| == 1 && st.toCreate == {st.w[0]})) &&
    DecoderShape(d) &&
    DictMatches(st.dict, Codes(st, d), st.dictSize) &&
    KeysClosed(st.dict) && PendingFresh(st) && Budget(st)
  }

  /** The decoder after it has read the coder's next phrase `st.w`. */
  ghost function After(st: State, d: DState): DState
    requires st.w != [] && d.w.Some?
  {
    var e := EmitW(st);
    DState(|e.bits|, Codes(st, d), Some(st.w), d.result + st.w, e.enlargeIn, e.numBits)
  }

  /** `Tick` is the decoder's `enlargeIn--` with `Grow`, and uses up one code slot. */
  lemma TickFacts(st: State)
    requires st.enlargeIn >= 1 && st.numBits >= 2
    ensures var t := Tick(st); var g := Grow(st.enlargeIn - 1, st.numBits);
      t.enlargeIn == g.0 && t.numBits == g.1 &&
      t.enlargeIn >= 1 && t.numBits >= 2 &&
      t.dictSize + t.enlargeIn - Pow2(t.numBits) == st.dictSize + st.enlargeIn - Pow2(st.numBits) - 1
  {
    if st.enlargeIn - 1 == 0 {
      assert Pow2(st.numBits + 1) == 2 * Pow2(st.numBits);
    }
  }

  lemma {:induction false} StepExtendsBits(st: State, c: CodeUnit)
    ensures |Step(st, c).bits| >= |st.bits| && Step(st, c).bits[..|st.bits|] == st.bits
  {
  }

  lemma {:induction false} RunExtendsBits(st: State, s: JsString)
    ensures |Run(st, s).bits| >= |st.bits| && Run(st, s).bits[..|st.bits|] == st.bits
    decreases |s|
  {
    if s != [] {
      StepExtendsBits(st, s[0]);
      RunExtendsBits(Step(st, s[0]), s[1..]);
      var m := Step(st, s[0]).bits;
      assert Run(st, s).bits[..|m|] == m;
      assert m[..|st.bits|] == st.bits;
    }
  }

  /** The final bit stream from `st` begins with the bits already written. */
  lemma FinishExtendsBits(st: State, s: JsString)
    ensures var full := Finish(Run(st, s)); |full| >= |st.bits| && full[..|st.bits|] == st.bits
  {
    RunExtendsBits(st, s);
    var r := Run(st, s);
    var full := Finish(r);
    assert |full| >= |r.bits| && full[..|r.bits|] == r.bits;
    assert full[..|st.bits|] == r.bits[..|st.bits|];
  }

  lemma {:induction false} Pow2AtLeast4(n: nat)
    requires n >= 2
    ensures Pow2(n) >= 4
    decreases n
  {
    if n > 2 {
      Pow2AtLeast4(n - 1);
    }
  }

  /** The bits that writing the phrase `w` appends. */
  function EmittedBits(st: State): seq<bool>
    requires st.w != []
  {
    if Pending(st) then LiteralBits(st.w[0], st.numBits) else LsbBits(CodeOf(st), st.numBits)
  }

  lemma EmitBits(st: State)
    requires st.w != []
    ensures EmitW(st).bits == st.bits + EmittedBits(st)
  {
  }

  /** What writing the phrase `w` does to the coder's counters. */
  lemma EmitFacts(st: State)
    requires st.enlargeIn >= 1 && st.numBits >= 2 && st.w != []
    ensures var e := EmitW(st);
      e.numBits >= 2 && e.enlargeIn >= 1 &&
      e.dict == st.dict && e.dictSize == st.dictSize && e.w == st.w &&
      e.toCreate == (if Pending(st) then st.toCreate - {st.w[0]} else st.toCreate) &&
      e.dictSize + e.enlargeIn - Pow2(e.numBits) ==
        st.dictSize + st.enlargeIn - Pow2(st.numBits) - (if Pending(st) then 2 else 1) &&
      |e.bits| == |st.bits| + |EmittedBits(st)|
  {
    EmitBits(st);
    if Pending(st) {
      var st0 := st.(bits := st.bits + LiteralBits(st.w[0], st.numBits));
      TickFacts(st0);
      var st1 := Tick(st0);
      TickFacts(st1.(toCreate := st1.toCreate - {st.w[0]}));
    } else {
      TickFacts(st.(bits := st.bits + LsbBits(CodeOf(st), st.numBits)));
    }
  }

  /** A stream holding the bits of `EmitW(st)` holds the bits of `w` right after `st.bits`. */
  lemma EmittedPrefix(st: State, full: seq<bool>)
    requires st.w != []
    requires |full| >= |EmitW(st).bits| && full[..|EmitW(st).bits|] == EmitW(st).bits
    ensures |full| >= |st.bits| + |EmittedBits(st)| &&
      full[..|st.bits| + |EmittedBits(st)|] == st.bits + EmittedBits(st)
  {
    EmitBits(st);
  }

  /** A stretch of `seg`, written right after `pre`, sits at the same place in `full`. */
  lemma Slice(full: seq<bool>, pre: seq<bool>, seg: seq<bool>, lo: nat, hi: nat)
    requires |full| >= |pre| + |seg| && full[..|pre| + |seg|] == pre + seg
    requires lo <= hi <= |seg|
    ensures full[|pre| + lo..|pre| + hi] == seg[lo..hi]
  {
    forall k | 0 <= k < hi - lo
      ensures full[|pre| + lo..|pre| + hi][k] == seg[lo..hi][k]
    {
      assert full[|pre| + lo + k] == full[..|pre| + |seg|][|pre| + lo + k];
    }
  }

  /** An `n`-bit field written right after `pre` is read back at `p == |pre|`. */
  lemma ReadBack(full: seq<bool>, pre: seq<bool>, p: nat, v: nat, n: nat)
    requires p == |pre| && v < Pow2(n)
    requires |full| >= p + n && full[..p + n] == pre + LsbBits(v, n)
    ensures Field(full, p, n) == v
  {
    Slice(full, pre, LsbBits(v, n), 0, n);
    assert LsbBits(v, n)[0..n] == LsbBits(v, n);
    ReadWrittenField(full, p, v, n);
  }

  /** Two fields written one after the other right after `pre` are read back. */
  lemma ReadPair(full: seq<bool>, pre: seq<bool>, p: nat, m: nat, B: nat, u: nat, n: nat)
    requires p == |pre| && m < Pow2(B) && u < Pow2(n)
    requires var seg := LsbBits(m, B) + LsbBits(u, n);
      |full| >= p + |seg| && full[..p + |seg|] == pre + seg
    ensures Field(full, p, B) == m && Field(full, p + B, n) == u
  {
    var a, b := LsbBits(m, B), LsbBits(u, n);
    Slice(full, pre, a + b, 0, B);
    assert (a + b)[0..B] == a;
    ReadWrittenField(full, p, m, B);
    Slice(full, pre, a + b, B, B + n);
    assert (a + b)[B..B + n] == b;
    ReadWrittenField(full, p + B, u, n);
  }

  /** The marker and the unit of a literal written at `p` are read back. */
  lemma ReadLiteral(full: seq<bool>, pre: seq<bool>, p: nat, u: CodeUnit, B: nat)
    requires p == |pre| && B >= 2
    requires |full| >= p + |LiteralBits(u, B)| && full[..p + |LiteralBits(u, B)|] == pre + LiteralBits(u, B)
    ensures var m: nat := if u < 256 then 0 else 1;
      Field(full, p, B) == m && LiteralUnit(full, p + B, m) == u
  {
    Pow2AtLeast4(B);
    Pow2Widths();
    if u < 256 {
      ReadPair(full, pre, p, 0, B, u, 8);
    } else {
      ReadPair(full, pre, p, 1, B, u, 16);
    }
  }

  /** One pass of the loop body over a literal `u` read after marker `m`. */
  lemma BodyOfLiteral(input: seq<bool>, d: DState, m: nat, p1: nat, u: CodeUnit)
    requires d.numBits > 0 && m < 2 && d.w.Some?
    requires LiteralUnit(input, p1, m) == u
    ensures var g1 := Grow(d.enlargeIn - 1, d.numBits); var g2 := Grow(g1.0 - 1, g1.1);
      Body(input, d, m, p1) ==
        Continue(DState(p1 + (if m == 0 then 8 else 16), d.dict + [Str([u])] + [Str(d.w.value + [u])],
          Some([u]), d.result + [u], g2.0, g2.1))
  {
    var dict1 := d.dict + [Str([u])];
    assert Resolve(dict1, |dict1| - 1, d.w) == Found([u]);
  }

  /** A pass of the loop that reads `code` and continues in `d'`. */
  lemma PassStep(input: seq<bool>, d: DState, code: nat, d': DState)
    requires d.numBits > 0 && d.pos < |input|
    requires Field(input, d.pos, d.numBits) == code && code != 2
    requires Body(input, d, code, d.pos + d.numBits) == Continue(d')
    ensures Pass(input, d) == Continue(d')
  {
  }

  /** The loop goes on from where a pass that continues leaves it. */
  lemma LoopAfterPass(input: seq<bool>, d: DState, d': DState)
    requires d.numBits > 0 && d'.numBits > 0
    requires Pass(input, d) == Continue(d')
    ensures Loop(input, d) == Loop(input, d')
  {
  }

  /** The decoder state after a literal, spelled out. */
  lemma AfterLiteral(st: State, d: DState)
    requires Synced(st, d) && Pending(st)
    ensures var u := st.w[0]; var B := st.numBits;
      var g1 := Grow(d.enlargeIn - 1, d.numBits); var g2 := Grow(g1.0 - 1, g1.1);
      After(st, d) ==
        DState(d.pos + B + (if u < 256 then 8 else 16), d.dict + [Str([u])] + [Str(d.w.value + [u])],
          Some([u]), d.result + [u], g2.0, g2.1)
  {
    var B := st.numBits;
    var u := st.w[0];
    EmitFacts(st);
    assert st.w == [u];
    var st0 := st.(bits := st.bits + LiteralBits(u, B));
    TickFacts(st0);
    var st1 := Tick(st0);
    TickFacts(st1.(toCreate := st1.toCreate - {u}));
  }

  /** Reading a literal: marker, then the unit, then the two ticks. */
  lemma DecodeLiteral(input: seq<bool>, st: State, d: DState)
    requires Synced(st, d) && Pending(st) && d.pos < |input|
    requires var m: nat := if st.w[0] < 256 then 0 else 1;
      Field(input, d.pos, d.numBits) == m && LiteralUnit(input, d.pos + d.numBits, m) == st.w[0]
    ensures Pass(input, d) == Continue(After(st, d))
  {
    var u := st.w[0];
    var m: nat := if u < 256 then 0 else 1;
    BodyOfLiteral(input, d, m, d.pos + d.numBits, u);
    AfterLiteral(st, d);
    PassStep(input, d, m, After(st, d));
  }

  /** The decoder state after a dictionary code, spelled out. */
  lemma AfterCode(st: State, d: DState)
    requires Synced(st, d) && !Pending(st)
    ensures var g := Grow(d.enlargeIn - 1, d.numBits);
      After(st, d) ==
        DState(d.pos + d.numBits, d.dict + [Str(d.w.value + [st.w[0]])], Some(st.w), d.result + st.w, g.0, g.1)
  {
    EmitFacts(st);
    TickFacts(st.(bits := st.bits + LsbBits(CodeOf(st), st.numBits)));
  }

  /** Reading a dictionary code, which fits the current width. */
  lemma DecodeCode(input: seq<bool>, st: State, d: DState)
    requires Synced(st, d) && !Pending(st) && d.pos < |input|
    requires var v := CodeOf(st); 3 <= v < |Codes(st, d)| && Codes(st, d)[v] == Str(st.w)
    requires Field(input, d.pos, d.numBits) == CodeOf(st)
    ensures Pass(input, d) == Continue(After(st, d))
  {
    var codes := Codes(st, d);
    var v := CodeOf(st);
    assert codes == d.dict + [Str(d.w.value + [st.w[0]])];
    if v == |d.dict| {
      assert st.w == d.w.value + [st.w[0]];
      assert st.w[0] == d.w.value[0];
    } else {
      assert d.dict[v] == codes[v];
    }
    assert Resolve(d.dict, v, d.w) == Found(st.w);
    AfterCode(st, d);
    assert Body(input, d, v, d.pos + d.numBits) == Continue(After(st, d));
    PassStep(input, d, v, After(st, d));
  }

  /** The literal for `w`, read from a stream holding the coder's bits. */
  lemma DecodeLiteralFrom(st: State, d: DState, full: seq<bool>)
    requires Synced(st, d) && Pending(st)
    requires |full| >= |EmitW(st).bits| && full[..|EmitW(st).bits|] == EmitW(st).bits
    ensures Pass(full, d) == Continue(After(st, d))
  {
    EmittedPrefix(st, full);
    ReadLiteral(full, st.bits, d.pos, st.w[0], st.numBits);
    DecodeLiteral(full, st, d);
  }

  /** The code for `w`, read from a stream holding the coder's bits. */
  lemma DecodeCodeFrom(st: State, d: DState, full: seq<bool>)
    requires Synced(st, d) && !Pending(st)
    requires var v := CodeOf(st); 3 <= v < |Codes(st, d)| && Codes(st, d)[v] == Str(st.w) && v < Pow2(st.numBits)
    requires |full| >= |EmitW(st).bits| && full[..|EmitW(st).bits|] == EmitW(st).bits
    ensures Pass(full, d) == Continue(After(st, d))
  {
    EmittedPrefix(st, full);
    ReadBack(full, st.bits, d.pos, CodeOf(st), st.numBits);
    DecodeCode(full, st, d);
  }

  /**
   * From a decoder in step with the coder, one pass of the loop reads the
   * phrase `w` the coder writes next and lands in `After(st, d)`; a code
   * fits the width because `dictSize + enlargeIn` is one past the code space.
   */
  lemma DecodeW(st: State, d: DState, full: seq<bool>)
    requires Inv(st, d)
    requires |full| >= |EmitW(st).bits| && full[..|EmitW(st).bits|] == EmitW(st).bits
    ensures After(st, d).numBits >= 2 && d.numBits > 0
    ensures Pass(full, d) == Continue(After(st, d))
  {
    EmitFacts(st);
    if Pending(st) {
      DecodeLiteralFrom(st, d, full);
    } else {
      var v := CodeOf(st);
      assert 3 <= v < |Codes(st, d)| && Codes(st, d)[v] == Str(st.w);
      DecodeCodeFrom(st, d, full);
    }
  }

  /** After the last character the decoder reads `w` and then the end code. */
  lemma EndOfStream(st: State, d: DState, full: seq<bool>)
    requires Inv(st, d)
    requires |full| >= |Finish(st)| && full[..|Finish(st)|] == Finish(st)
    ensures d.numBits > 0
    ensures Loop(full, d) == Text(d.result + st.w)
  {
    var fin := Finish(st);
    var e := EmitW(st);
    EmitFacts(st);
    assert fin == e.bits + LsbBits(2, e.numBits);
    assert full[..|e.bits|] == fin[..|e.bits|] == e.bits;
    DecodeW(st, d, full);
    var d1 := After(st, d);
    LoopAfterPass(full, d, d1);
    Pow2AtLeast4(e.numBits);
    ReadBack(full, e.bits, |e.bits|, 2, e.numBits);
  }

  /** Appending a new phrase with the next code keeps a dictionary and its code list matched. */
  lemma DictMatchesExtend(dict: map<JsString, nat>, codes: seq<Entry>, key: JsString)
    requires |codes| >= 3 && DictMatches(dict, codes, |codes|) && key !in dict
    ensures DictMatches(dict[key := |codes|], codes + [Str(key)], |codes| + 1)
  {
    var dict', codes' := dict[key := |codes|], codes + [Str(key)];
    forall i | 3 <= i < |codes'|
      ensures codes'[i].Str? && codes'[i].s in dict' && dict'[codes'[i].s] == i
    {
      if i < |codes| {
        assert codes'[i] == codes[i];
        assert codes[i].s in dict;
      }
    }
    forall k | k in dict'
      ensures 3 <= dict'[k] < |codes'| && codes'[dict'[k]] == Str(k)
    {
      if k != key {
        assert k in dict;
      }
    }
  }

  /** A phrase all of whose characters have codes keeps the dictionary closed. */
  lemma KeysClosedExtend(dict: map<JsString, nat>, key: JsString, v: nat)
    requires KeysClosed(dict)
    requires forall j :: 0 <= j < |key| ==> [key[j]] in dict || [key[j]] == key
    ensures KeysClosed(dict[key := v])
  {
  }

  /** No phrase of a closed dictionary contains a character that has no code. */
  lemma AbsentChar(dict: map<JsString, nat>, key: JsString, c: CodeUnit)
    requires KeysClosed(dict) && key in dict && [c] !in dict
    ensures forall j :: 0 <= j < |key| ==> key[j] != c
  {
    forall j | 0 <= j < |key|
      ensures key[j] != c
    {
      assert [key[j]] in dict;
    }
  }

  /** If `w + c` is a known phrase, the coder only extends `w`. */
  lemma StepExtends(st: State, d: DState, c: CodeUnit)
    requires Inv(st, d)
    requires var st1 := if [c] in st.dict then st else AddChar(st, c); st.w + [c] in st1.dict
    ensures Step(st, c) == st.(w := st.w + [c])
    ensures Inv(Step(st, c), d)
  {
    var wc := st.w + [c];
    assert wc != [c];
    assert wc in st.dict && |wc| >= 2 && wc[0] == st.w[0];
    assert wc[|st.w|] == c;
    assert [c] in st.dict;
    assert !Pending(st);
    var st' := st.(w := wc);
    assert Step(st, c) == st';
    assert !Pending(st');
    assert Codes(st', d) == Codes(st, d);
  }

  /** The coder's state after it writes `w` and adds the phrase `w + c`. */
  lemma StepEmitState(st: State, d: DState, c: CodeUnit)
    requires Inv(st, d)
    requires var st1 := if [c] in st.dict then st else AddChar(st, c); st.w + [c] !in st1.dict
    ensures var isNew := [c] !in st.dict; var e := EmitW(st);
      var dict1 := if isNew then st.dict[[c] := st.dictSize] else st.dict;
      var n1: nat := if isNew then st.dictSize + 1 else st.dictSize;
      Step(st, c) == State(dict1[st.w + [c] := n1], if isNew then {c} else {}, [c], e.enlargeIn, n1 + 1, e.numBits, e.bits)
  {
    if [c] !in st.dict {
      StepEmitNew(st, d, c);
    } else {
      StepEmitOld(st, d, c);
    }
  }

  /** `StepEmitState` for a character seen before. */
  lemma StepEmitOld(st: State, d: DState, c: CodeUnit)
    requires Inv(st, d) && [c] in st.dict && st.w + [c] !in st.dict
    ensures var e := EmitW(st);
      Step(st, c) == State(st.dict[st.w + [c] := st.dictSize], {}, [c], e.enlargeIn, st.dictSize + 1, e.numBits, e.bits)
  {
    EmitFacts(st);
  }

  /** `StepEmitState` for a character seen for the first time. */
  lemma StepEmitNew(st: State, d: DState, c: CodeUnit)
    requires Inv(st, d) && [c] !in st.dict
    requires st.w + [c] !in AddChar(st, c).dict
    ensures var e := EmitW(st);
      Step(st, c) == State(st.dict[[c] := st.dictSize][st.w + [c] := st.dictSize + 1], {c}, [c],
                           e.enlargeIn, st.dictSize + 2, e.numBits, e.bits)
  {
    var st1 := AddChar(st, c);
    AbsentChar(st.dict, st.w, c);
    assert st.w != [c];
    assert CodeOf(st1) == CodeOf(st);
    assert Pending(st1) == Pending(st);
    EmitFacts(st);
    EmitFacts(st1);
    EmitBits(st);
    EmitBits(st1);
    assert EmittedBits(st1) == EmittedBits(st);
    if Pending(st1) {
      var st0 := st1.(bits := st1.bits + LiteralBits(st1.w[0], st1.numBits));
      var st0' := st.(bits := st.bits + LiteralBits(st.w[0], st.numBits));
      assert Tick(st0).enlargeIn == Tick(st0').enlargeIn && Tick(st0).numBits == Tick(st0').numBits;
    }
  }

  /** The decoder's dictionary after reading `w` has the same shape. */
  lemma AfterShape(st: State, d: DState)
    requires Inv(st, d)
    ensures DecoderShape(After(st, d))
  {
    var C := Codes(st, d);
    forall i | 3 <= i < |C|
      ensures C[i].Str? && C[i].s != []
    {
      assert C[i].s in st.dict;
    }
  }

  /** The dictionary side of a step that writes `w`: `c` if new, then `w + c`. */
  lemma DictStep(dict: map<JsString, nat>, C: seq<Entry>, w: JsString, c: CodeUnit)
    requires |C| >= 3 && DictMatches(dict, C, |C|) && KeysClosed(dict)
    requires w != [] && w in dict && w + [c] !in dict
    ensures var isNew := [c] !in dict;
      var dict1 := if isNew then dict[[c] := |C|] else dict;
      var C1 := if isNew then C + [Str([c])] else C;
      var dict2 := dict1[w + [c] := |C1|];
      DictMatches(dict2, C1 + [Str(w + [c])], |C1| + 1) && KeysClosed(dict2) &&
      [c] in dict2 &&
      (isNew ==> w[0] != c && forall key :: key in dict2 && |key| >= 2 ==> key[0] != c)
  {
    var isNew := [c] !in dict;
    var wc := w + [c];
    var dict1 := if isNew then dict[[c] := |C|] else dict;
    var C1 := if isNew then C + [Str([c])] else C;
    if isNew {
      DictMatchesExtend(dict, C, [c]);
      KeysClosedExtend(dict, [c], |C|);
      AbsentChar(dict, w, c);
      forall key | key in dict
        ensures forall j :: 0 <= j < |key| ==> key[j] != c
      {
        AbsentChar(dict, key, c);
      }
    }
    DictMatchesExtend(dict1, C1, wc);
    assert forall j :: 0 <= j < |w| ==> [w[j]] in dict;
    assert forall j :: 0 <= j < |wc| ==> [wc[j]] in dict1 || [wc[j]] == wc;
    KeysClosedExtend(dict1, wc, |C1|);
  }

  /** The dictionary conjuncts of the step that writes `w`. */
  lemma EmitDict(st: State, d: DState, c: CodeUnit, st': State, d1: DState)
    requires st.w != [] && st.w in st.dict && d.w.Some? && d.w.value != []
    requires DictMatches(st.dict, Codes(st, d), st.dictSize) && KeysClosed(st.dict)
    requires st.w + [c] !in st.dict
    requires var isNew := [c] !in st.dict;
      var dict1 := if isNew then st.dict[[c] := st.dictSize] else st.dict;
      var n1 := if isNew then st.dictSize + 1 else st.dictSize;
      st'.dict == dict1[st.w + [c] := n1] && st'.toCreate == (if isNew then {c} else {}) &&
      st'.w == [c] && st'.dictSize == n1 + 1
    requires d1.dict == Codes(st, d) && d1.w == Some(st.w)
    ensures Pending(st') == ([c] !in st.dict)
    ensures DictMatches(st'.dict, Codes(st', d1), st'.dictSize)
    ensures KeysClosed(st'.dict) && PendingFresh(st') && st'.w in st'.dict
  {
    var C := Codes(st, d);
    DictStep(st.dict, C, st.w, c);
    var isNew := [c] !in st.dict;
    assert Pending(st') == isNew;
    var C1 := if isNew then C + [Str([c])] else C;
    assert Codes(st', d1) == C1 + [Str(st.w + [c])];
  }

  /** The step that writes `w`, with the coder's new counters given outright. */
  lemma EmitKeeps(st: State, d: DState, c: CodeUnit, st': State, d1: DState)
    requires st.w != [] && st.w in st.dict && d.w.Some? && d.w.value != []
    requires DictMatches(st.dict, Codes(st, d), st.dictSize) && KeysClosed(st.dict)
    requires st.w + [c] !in st.dict
    requires var isNew := [c] !in st.dict;
      var dict1 := if isNew then st.dict[[c] := st.dictSize] else st.dict;
      var n1 := if isNew then st.dictSize + 1 else st.dictSize;
      st'.dict == dict1[st.w + [c] := n1] && st'.toCreate == (if isNew then {c} else {}) &&
      st'.w == [c] && st'.dictSize == n1 + 1
    requires d1 == DState(|st'.bits|, Codes(st, d), Some(st.w), d.result + st.w, st'.enlargeIn, st'.numBits)
    requires DecoderShape(d1)
    requires st'.enlargeIn >= 1 && st'.numBits >= 2 && st.dictSize + st'.enlargeIn == Pow2(st'.numBits)
    ensures Inv(st', d1)
  {
    EmitDict(st, d, c, st', d1);
    assert Synced(st', d1);
    assert Budget(st');
  }

  /** Writing `w` and adding `w + c` keeps coder and decoder in step. */
  lemma StepEmits(st: State, d: DState, c: CodeUnit)
    requires Inv(st, d)
    requires var st1 := if [c] in st.dict then st else AddChar(st, c); st.w + [c] !in st1.dict
    ensures Step(st, c).bits == EmitW(st).bits && Step(st, c).w == [c]
    ensures Inv(Step(st, c), After(st, d))
  {
    StepEmitState(st, d, c);
    EmitFacts(st);
    AfterShape(st, d);
    EmitKeeps(st, d, c, Step(st, c), After(st, d));
  }

  lemma PrefixTrans(full: seq<bool>, a: seq<bool>, b: seq<bool>)
    requires |full| >= |a| && full[..|a|] == a && |a| >= |b| && a[..|b|] == b
    ensures |full| >= |b| && full[..|b|] == b
  {
    assert full[..|b|] == full[..|a|][..|b|];
  }

  lemma RunCons(st: State, s: JsString)
    requires s != []
    ensures Run(st, s) == Run(Step(st, s[0]), s[1..])
  {
  }

  /**
   * The simulation: from coder state `st` and a decoder in step with it,
   * on a stream that holds everything the coder writes for `rest`, the
   * decoder ends with its output so far, then `w`, then `rest`.
   */
  lemma {:induction false} LoopSim(st: State, rest: JsString, d: DState, full: seq<bool>)
    requires Inv(st, d)
    requires var fin := Finish(Run(st, rest)); |full| >= |fin| && full[..|fin|] == fin
    ensures d.numBits > 0
    ensures Loop(full, d) == Text(d.result + st.w + rest)
    decreases |rest|, 1
  {
    if rest == [] {
      assert Run(st, rest) == st;
      EndOfStream(st, d, full);
      assert st.w + rest == st.w;
    } else {
      var c := rest[0];
      RunCons(st, rest);
      assert rest == [c] + rest[1..];
      var st1 := if [c] in st.dict then st else AddChar(st, c);
      if st.w + [c] in st1.dict {
        LoopSimExtend(st, c, rest[1..], d, full);
      } else {
        LoopSimEmit(st, c, rest[1..], d, full);
      }
    }
  }

  /** The simulation over a character that only extends `w`. */
  lemma {:induction false} LoopSimExtend(st: State, c: CodeUnit, r: JsString, d: DState, full: seq<bool>)
    requires Inv(st, d)
    requires var st1 := if [c] in st.dict then st else AddChar(st, c); st.w + [c] in st1.dict
    requires var fin := Finish(Run(Step(st, c), r)); |full| >= |fin| && full[..|fin|] == fin
    ensures d.numBits > 0
    ensures Loop(full, d) == Text(d.result + st.w + ([c] + r))
    decreases |r| + 1, 0
  {
    StepExtends(st, d, c);
    LoopSim(Step(st, c), r, d, full);
    assert d.result + (st.w + [c]) + r == d.result + st.w + ([c] + r);
  }

  /** The simulation over a character after which the coder writes `w`. */
  lemma {:induction false} LoopSimEmit(st: State, c: CodeUnit, r: JsString, d: DState, full: seq<bool>)
    requires Inv(st, d)
    requires var st1 := if [c] in st.dict then st else AddChar(st, c); st.w + [c] !in st1.dict
    requires var fin := Finish(Run(Step(st, c), r)); |full| >= |fin| && full[..|fin|] == fin
    ensures d.numBits > 0
    ensures Loop(full, d) == Text(d.result + st.w + ([c] + r))
    decreases |r| + 1, 0
  {
    var st' := Step(st, c);
    StepEmits(st, d, c);
    FinishExtendsBits(st', r);
    PrefixTrans(full, Finish(Run(st', r)), st'.bits);
    DecodeW(st, d, full);
    LoopAfterPass(full, d, After(st, d));
    LoopSim(st', r, After(st, d), full);
    assert (d.result + st.w) + [c] + r == d.result + st.w + ([c] + r);
  }

  /** The decoder after the first literal, as `_decompress` sets it up. */
  ghost function Opened(c0: CodeUnit): DState
  {
    DState(|LiteralBits(c0, 2)|, [Num(0), Num(1), Num(2), Str([c0])], Some([c0]), [c0], 4, 3)
  }

  /** The first character only becomes `w`; its literal is written later. */
  lemma FirstStep(c0: CodeUnit)
    ensures Step(Start, c0) == State(map[[c0] := 3], {c0}, [c0], 2, 4, 2, [])
  {
    var st1 := AddChar(Start, c0);
    assert st1.dict == map[[c0] := 3];
    assert st1.toCreate == {c0};
    assert Start.w + [c0] == [c0];
  }

  /** Writing the first literal: two ticks take the width from 2 to 3 bits. */
  lemma FirstEmit(c0: CodeUnit)
    ensures var e := EmitW(State(map[[c0] := 3], {c0}, [c0], 2, 4, 2, []));
      e.bits == LiteralBits(c0, 2) && e.enlargeIn == 4 && e.numBits == 3 && e.toCreate == {}
  {
    Pow2Widths();
  }

  /** A repeated first character: the literal, then the phrase of both. */
  lemma SecondStepSame(c0: CodeUnit)
    ensures var st2 := Step(Step(Start, c0), c0);
      st2 == State(map[[c0] := 3, [c0, c0] := 4], {}, [c0], 4, 5, 3, LiteralBits(c0, 2))
  {
    FirstStep(c0);
    FirstEmit(c0);
    assert [c0] + [c0] == [c0, c0] != [c0];
  }

  /** A second character that is new: its literal is now pending. */
  lemma SecondStepNew(c0: CodeUnit, c1: CodeUnit)
    requires c0 != c1
    ensures var st2 := Step(Step(Start, c0), c1);
      st2 == State(map[[c0] := 3, [c1] := 4, [c0, c1] := 5], {c1}, [c1], 4, 6, 3, LiteralBits(c0, 2))
  {
    FirstStep(c0);
    var st1 := State(map[[c0] := 3], {c0}, [c0], 2, 4, 2, []);
    var st1' := AddChar(st1, c1);
    assert [c1] != [c0];
    assert [c0] + [c1] == [c0, c1] && [c0, c1] !in st1'.dict;
    Pow2Widths();
    assert EmitW(st1').toCreate == {c1};
  }

  lemma SecondInvSame(c0: CodeUnit)
    ensures Inv(State(map[[c0] := 3, [c0, c0] := 4], {}, [c0], 4, 5, 3, LiteralBits(c0, 2)), Opened(c0))
  {
    var st2 := State(map[[c0] := 3, [c0, c0] := 4], {}, [c0], 4, 5, 3, LiteralBits(c0, 2));
    var d0 := Opened(c0);
    var C := [Num(0), Num(1), Num(2), Str([c0]), Str([c0, c0])];
    assert !Pending(st2) && d0.w.value + [st2.w[0]] == [c0, c0];
    assert Codes(st2, d0) == C;
    assert [c0, c0] != [c0];
    assert DictMatches(st2.dict, C, 5);
    assert Pow2(3) == 8;
    assert KeysClosed(st2.dict);
  }

  lemma SecondInvNew(c0: CodeUnit, c1: CodeUnit)
    requires c0 != c1
    ensures Inv(State(map[[c0] := 3, [c1] := 4, [c0, c1] := 5], {c1}, [c1], 4, 6, 3, LiteralBits(c0, 2)), Opened(c0))
  {
    var st2 := State(map[[c0] := 3, [c1] := 4, [c0, c1] := 5], {c1}, [c1], 4, 6, 3, LiteralBits(c0, 2));
    var d0 := Opened(c0);
    var C := [Num(0), Num(1), Num(2), Str([c0]), Str([c1]), Str([c0, c1])];
    assert [c0] != [c1] && [c0, c1] != [c0] && [c0, c1] != [c1];
    assert Pending(st2) && d0.w.value + [st2.w[0]] == [c0, c1];
    assert Codes(st2, d0) == C;
    assert DictMatches(st2.dict, C, 6);
    assert Pow2(3) == 8;
    assert KeysClosed(st2.dict);
    assert PendingFresh(st2);
  }

  /** The opening of `_decompress` reads the first literal. */
  lemma Opening(units: JsString, c0: CodeUnit)
    requires var x := InputBits(units); var lit := LiteralBits(c0, 2);
      |x| >= |lit| && x[..|lit|] == lit
    ensures DecompressUnits(units) == Loop(InputBits(units), Opened(c0))
  {
    var x := InputBits(units);
    ReadLiteral(x, [], 0, c0, 2);
  }

  lemma RoundTripEmpty()
    ensures Decompress(Some(Compress(Some([])))) == Text([])
  {
    var bits := CompressBits([]);
    var units := Pack(bits);
    var x := InputBits(units);
    InputBitsOfPacked(bits);
    assert bits == LsbBits(2, 2);
    Pow2Widths();
    ReadBack(x, [], 0, 2, 2);
  }

  lemma RoundTripOne(c0: CodeUnit)
    ensures Decompress(Some(Compress(Some([c0])))) == Text([c0])
  {
    var bits := CompressBits([c0]);
    var units := Pack(bits);
    var x := InputBits(units);
    InputBitsOfPacked(bits);
    FirstStep(c0);
    FirstEmit(c0);
    assert Run(Start, [c0]) == Step(Start, c0);
    var lit := LiteralBits(c0, 2);
    assert bits == lit + LsbBits(2, 3);
    PrefixTrans(x, bits, lit);
    Opening(units, c0);
    assert Pow2(3) == 8;
    ReadBack(x, lit, |lit|, 2, 3);
    assert Pass(x, Opened(c0)) == Halt(Text([c0]));
  }

  lemma RunTwo(s: JsString)
    requires |s| >= 2
    ensures Run(Start, s) == Run(Step(Step(Start, s[0]), s[1]), s[2..])
  {
    RunCons(Start, s);
    RunCons(Step(Start, s[0]), s[1..]);
    assert s[1..][0] == s[1] && s[1..][1..] == s[2..];
  }

  /** Any stream that starts with the coder's bits from its state after two characters decodes them all. */
  lemma DecodeLong(x: seq<bool>, units: JsString, c0: CodeUnit, st2: State, r: JsString)
    requires x == InputBits(units)
    requires st2.bits == LiteralBits(c0, 2) && Inv(st2, Opened(c0))
    requires var fin := Finish(Run(st2, r)); |x| >= |fin| && x[..|fin|] == fin
    ensures DecompressUnits(units) == Text([c0] + st2.w + r)
  {
    FinishExtendsBits(st2, r);
    PrefixTrans(x, Finish(Run(st2, r)), st2.bits);
    Opening(units, c0);
    LoopSim(st2, r, Opened(c0), x);
  }

  /** The packed output of `s` reads back as the coder's bits from its state after two characters. */
  lemma LongStream(s: JsString)
    requires |s| >= 2
    ensures var x := InputBits(Compress(Some(s)));
      var fin := Finish(Run(Step(Step(Start, s[0]), s[1]), s[2..]));
      |x| >= |fin| && x[..|fin|] == fin
  {
    InputBitsOfPacked(CompressBits(s));
    RunTwo(s);
  }

  /** After two characters the coder has sent the first one's literal, and its state matches the decoder's. */
  lemma SecondInv(c0: CodeUnit, c1: CodeUnit)
    ensures var st2 := Step(Step(Start, c0), c1);
      st2.bits == LiteralBits(c0, 2) && Inv(st2, Opened(c0)) && st2.w == [c1]
  {
    if c1 == c0 {
      SecondStepSame(c0);
      SecondInvSame(c0);
    } else {
      SecondStepNew(c0, c1);
      SecondInvNew(c0, c1);
    }
  }

  lemma DecodeSecond(units: JsString, s: JsString)
    requires |s| >= 2
    requires var x := InputBits(units);
      var fin := Finish(Run(Step(Step(Start, s[0]), s[1]), s[2..]));
      |x| >= |fin| && x[..|fin|] == fin
    ensures DecompressUnits(units) == Text(s)
  {
    var st2 := Step(Step(Start, s[0]), s[1]);
    SecondInv(s[0], s[1]);
    DecodeLong(InputBits(units), units, s[0], st2, s[2..]);
    HeadTwo(s, st2.w);
  }

  lemma HeadTwo(s: JsString, w: JsString)
    requires |s| >= 2 && w == [s[1]]
    ensures [s[0]] + w + s[2..] == s
  {
  }

  lemma RoundTripLong(s: JsString)
    requires |s| >= 2
    ensures Decompress(Some(Compress(Some(s)))) == Text(s)
  {
    LongStream(s);
    DecodeSecond(Compress(Some(s)), s);
  }

  /** `decompressFromEncodedURIComponent` undoes `compressToEncodedURIComponent`. */
  lemma RoundTrip(s: JsString)
    ensures Decompress(Some(Compress(Some(s)))) == Text(s)
  {
    if s == [] {
      RoundTripEmpty();
    } else if |s| == 1 {
      RoundTripOne(s[0]);
      assert s == [s[0]];
    } else {
      RoundTripLong(s);
    }
  }
}
