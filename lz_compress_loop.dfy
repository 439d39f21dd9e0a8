/**
 * `_compress` as the loop it is: the coder's `context_*` variables and
 * the output buffer `context_data` with its partial character
 * `context_data_val` and bit count `context_data_position`, with six bits
 * per output character. The loop is proved to compute `LzCompress.Compress`.
 */
module LzCompressLoop {
  import opened JsStrings
  import opened Wrappers
  import opened LzBits
  import opened LzCompress

  /** `context_data`, `context_data_val` and `context_data_position`. */
  datatype Out = Out(data: JsString, val: nat, position: nat)

  /**
   * `o` holds the bits `bits`: one output character per full group of six,
   * and the bits of the unfinished group in `val`, first bit most significant.
   */
  ghost predicate Packed(o: Out, bits: seq<bool>)
  {
    o.position == |bits| % 6 && |o.data| == |bits| / 6 &&
    (forall i :: 0 <= i < |o.data| ==> o.data[i] == KeyStr[GroupValue(bits, i)]) &&
    o.val == MsbValue(bits[|bits| - o.position..])
  }

  lemma GroupInRange(bits: seq<bool>, i: nat)
    requires 6 * i + 6 <= |bits|
    ensures Group(bits, i) == bits[6 * i..6 * i + 6]
  {
    forall j | 0 <= j < 6
      ensures Group(bits, i)[j] == bits[6 * i..6 * i + 6][j]
    {
    }
  }

  /** Bits written later do not change a finished character. */
  lemma GroupStable(bits: seq<bool>, more: seq<bool>, i: nat)
    requires 6 * i + 6 <= |bits|
    ensures GroupValue(bits + more, i) == GroupValue(bits, i)
  {
    GroupInRange(bits, i);
    GroupInRange(bits + more, i);
    assert (bits + more)[6 * i..6 * i + 6] == bits[6 * i..6 * i + 6];
  }

  /** Zero bits written past the end do not change any character. */
  lemma GroupPadded(bits: seq<bool>, z: nat, i: nat)
    ensures GroupValue(bits + seq(z, _ => false), i) == GroupValue(bits, i)
  {
    var padded := bits + seq(z, _ => false);
    forall j | 0 <= j < 6
      ensures Group(padded, i)[j] == Group(bits, i)[j]
    {
      var k := 6 * i + j;
      assert Group(padded, i)[j] == PaddedBit(padded, k) && Group(bits, i)[j] == PaddedBit(bits, k);
      if k < |bits| {
        assert padded[k] == bits[k];
      } else if k < |padded| {
        assert padded[k] == false;
      }
    }
    assert Group(padded, i) == Group(bits, i);
  }

  lemma MsbSnoc(g: seq<bool>, b: bool)
    ensures MsbValue(g + [b]) == 2 * MsbValue(g) + (if b then 1 else 0)
  {
    assert (g + [b])[..|g|] == g;
  }

  /** Earlier characters survive one more bit. */
  lemma PackedKeepsGroups(o: Out, bits: seq<bool>, b: bool)
    requires Packed(o, bits)
    ensures forall i :: 0 <= i < |o.data| ==> o.data[i] == KeyStr[GroupValue(bits + [b], i)]
  {
    forall i | 0 <= i < |o.data|
      ensures GroupValue(bits + [b], i) == GroupValue(bits, i)
    {
      GroupStable(bits, [b], i);
    }
  }

  /** The unfinished group after one more bit. */
  lemma PackedTail(o: Out, bits: seq<bool>, b: bool)
    requires Packed(o, bits)
    ensures var bits' := bits + [b];
      MsbValue(bits'[|bits'| - (o.position + 1)..]) == 2 * o.val + (if b then 1 else 0)
  {
    var bits' := bits + [b];
    MsbSnoc(bits[|bits| - o.position..], b);
    assert bits'[|bits'| - (o.position + 1)..] == bits[|bits| - o.position..] + [b];
  }

  /** The sixth bit completes character `|o.data|`. */
  lemma PackedFull(o: Out, bits: seq<bool>, b: bool)
    requires Packed(o, bits) && o.position == 5
    ensures GroupValue(bits + [b], |o.data|) == 2 * o.val + (if b then 1 else 0)
  {
    var bits' := bits + [b];
    var i := |o.data|;
    PackedTail(o, bits, b);
    GroupInRange(bits', i);
    assert bits'[6 * i..6 * i + 6] == bits'[|bits'| - 6..];
  }

  /** A bit inside a group goes into `val`. */
  lemma PackedMid(o: Out, bits: seq<bool>, b: bool)
    requires Packed(o, bits) && o.position < 5
    ensures Packed(Out(o.data, 2 * o.val + (if b then 1 else 0), o.position + 1), bits + [b])
  {
    PackedKeepsGroups(o, bits, b);
    PackedTail(o, bits, b);
  }

  /** The sixth bit of a group pushes its character. */
  lemma PackedPush(o: Out, bits: seq<bool>, b: bool)
    requires Packed(o, bits) && o.position == 5
    ensures 2 * o.val + (if b then 1 else 0) < |KeyStr|
    ensures Packed(Out(o.data + [KeyStr[2 * o.val + (if b then 1 else 0)]], 0, 0), bits + [b])
  {
    var bits' := bits + [b];
    var v := 2 * o.val + (if b then 1 else 0);
    PackedKeepsGroups(o, bits, b);
    PackedFull(o, bits, b);
    KeyStrSize();
    var data' := o.data + [KeyStr[v]];
    assert |bits| == 6 * |o.data| + 5;
    SixGroups(|bits'|, |data'|);
    assert forall i :: 0 <= i < |o.data| ==> data'[i] == o.data[i];
    assert bits'[|bits'|..] == [];
  }

  lemma SixGroups(n: nat, q: nat)
    requires n == 6 * q
    ensures n % 6 == 0 && n / 6 == q
  {
  }

  /**
   * One bit into the buffer: `val = (val << 1) | bit`, and a character is
   * pushed when the sixth bit of a group arrives. (`val` stays below 64,
   * so the 32-bit shift never overflows.)
   */
  method PutBit(o: Out, ghost bits: seq<bool>, b: bool) returns (o': Out)
    requires Packed(o, bits)
    ensures Packed(o', bits + [b])
    ensures o'.position == 0 <==> o.position == 5
  {
    var v := 2 * o.val + (if b then 1 else 0);
    if o.position == 5 {
      PackedPush(o, bits, b);
      o' := Out(o.data + [KeyStr[v]], 0, 0);
    } else {
      PackedMid(o, bits, b);
      o' := Out(o.data, v, o.position + 1);
    }
  }

  /**
   * `numBits` bits of `value`, least significant first:
   * `val = (val << 1) | (value & 1); value >>= 1`.
   */
  method PutBits(o: Out, ghost bits: seq<bool>, value: nat, n: nat) returns (o': Out)
    requires Packed(o, bits)
    ensures Packed(o', bits + LsbBits(value, n))
  {
    o' := o;
    var v := value;
    ghost var cur := bits;
    ghost var rest := LsbBits(value, n);
    for i := 0 to n
      invariant Packed(o', cur)
      invariant rest == LsbBits(v, n - i)
      invariant cur + rest == bits + LsbBits(value, n)
    {
      var b := v % 2 == 1;
      assert rest == [b] + LsbBits(v / 2, n - (i + 1));
      o' := PutBit(o', cur, b);
      Append3(cur, [b], rest[1..]);
      cur := cur + [b];
      rest := rest[1..];
      v := v / 2;
    }
    assert cur + rest == cur;
  }

  lemma Append3(a: seq<bool>, b: seq<bool>, c: seq<bool>)
    ensures a + b + c == a + (b + c)
  {
  }

  /** The coder's variables as a `State`. */
  function Coder(dict: map<JsString, nat>, toCreate: set<CodeUnit>, w: JsString,
                 enlargeIn: int, dictSize: nat, numBits: nat, bits: seq<bool>): State
  {
    State(dict, toCreate, w, enlargeIn, dictSize, numBits, bits)
  }

  /** `enlargeIn--; if (enlargeIn === 0) { enlargeIn = 2^numBits; numBits++; }` */
  method Enlarge(ghost st: State, enlargeIn: int, numBits: nat) returns (enlargeIn': int, numBits': nat)
    requires st.enlargeIn == enlargeIn && st.numBits == numBits
    ensures enlargeIn' == Tick(st).enlargeIn && numBits' == Tick(st).numBits
  {
    enlargeIn', numBits' := enlargeIn - 1, numBits;
    if enlargeIn' == 0 {
      enlargeIn' := Pow2(numBits);
      numBits' := numBits + 1;
    }
  }

  /** A literal: marker 0 and 8 bits below 256, else marker 1 and 16 bits. */
  method PutLiteral(o: Out, ghost bits: seq<bool>, u: CodeUnit, numBits: nat) returns (o': Out)
    requires Packed(o, bits)
    ensures Packed(o', bits + LiteralBits(u, numBits))
  {
    var marker, width := if u < 256 then 0 else 1, if u < 256 then 8 else 16;
    o' := PutBits(o, bits, marker, numBits);
    o' := PutBits(o', bits + LsbBits(marker, numBits), u, width);
    Append3(bits, LsbBits(marker, numBits), LsbBits(u, width));
  }

  /**
   * Writing `context_w`: its literal and
   * `delete context_dictionaryToCreate[w]` the first time, its dictionary
   * code otherwise, then `enlargeIn--` with the width growth.
   */
  method WritePhrase(o: Out, ghost st: State, toCreate: set<CodeUnit>, w: JsString, code: nat,
                     enlargeIn: int, numBits: nat)
    returns (o': Out, toCreate': set<CodeUnit>, enlargeIn': int, numBits': nat)
    requires Packed(o, st.bits)
    requires st.toCreate == toCreate && st.w == w && CodeOf(st) == code
    requires st.enlargeIn == enlargeIn && st.numBits == numBits
    ensures var e := EmitW(st);
      Packed(o', e.bits) && toCreate' == e.toCreate && enlargeIn' == e.enlargeIn && numBits' == e.numBits
  {
    if |w| == 1 && w[0] in toCreate {
      var u := w[0];
      o' := PutLiteral(o, st.bits, u, numBits);
      ghost var st0 := st.(bits := st.bits + LiteralBits(u, numBits));
      enlargeIn', numBits' := Enlarge(st0, enlargeIn, numBits);
      toCreate' := toCreate - {u};
      ghost var st1 := Tick(st0);
      ghost var st2 := st1.(toCreate := st1.toCreate - {u});
      enlargeIn', numBits' := Enlarge(st2, enlargeIn', numBits');
      assert EmitW(st) == Tick(st2);
    } else {
      o' := PutBits(o, st.bits, code, numBits);
      ghost var st0 := st.(bits := st.bits + LsbBits(code, numBits));
      toCreate' := toCreate;
      enlargeIn', numBits' := Enlarge(st0, enlargeIn, numBits);
      assert EmitW(st) == Tick(st0);
    }
  }

  /**
   * The final `while (true)` loop: zero bits until a character is pushed,
   * which fills the last group and always writes at least one bit.
   */
  method Flush(o: Out, ghost bits: seq<bool>) returns (data: JsString)
    requires Packed(o, bits)
    ensures data == Pack(bits)
  {
    var o' := PutBit(o, bits, false);
    ghost var z := 1;
    assert bits + [false] == bits + seq(z, _ => false);
    ghost var target := 6 - |bits| % 6;
    while o'.position != 0
      invariant 1 <= z <= target && Packed(o', bits + seq(z, _ => false))
      decreases target - z
    {
      o' := PutBit(o', bits + seq(z, _ => false), false);
      assert bits + seq(z, _ => false) + [false] == bits + seq(z + 1, _ => false);
      z := z + 1;
    }
    data := o'.data;
    var padded := bits + seq(z, _ => false);
    assert |data| == |bits| / 6 + 1;
    forall i | 0 <= i < |data|
      ensures data[i] == Pack(bits)[i]
    {
      GroupPadded(bits, z, i);
    }
  }

  /** One pass of the main loop over character `c`: the coder and the buffer move as `Step` says. */
  method StepChar(o: Out, ghost st: State, c: CodeUnit, dict: map<JsString, nat>, toCreate: set<CodeUnit>,
                  w: JsString, enlargeIn: int, dictSize: nat, numBits: nat)
    returns (o': Out, dict': map<JsString, nat>, toCreate': set<CodeUnit>, w': JsString,
             enlargeIn': int, dictSize': nat, numBits': nat, ghost bits': seq<bool>)
    requires Packed(o, st.bits) && st == Coder(dict, toCreate, w, enlargeIn, dictSize, numBits, st.bits)
    ensures Coder(dict', toCreate', w', enlargeIn', dictSize', numBits', bits') == Step(st, c)
    ensures Packed(o', bits')
  {
    o', dict', toCreate', w', enlargeIn', dictSize', numBits', bits' :=
      o, dict, toCreate, w, enlargeIn, dictSize, numBits, st.bits;
    if [c] !in dict' {
      dict' := dict'[[c] := dictSize'];
      dictSize' := dictSize' + 1;
      toCreate' := toCreate' + {c};
    }
    var wc := w' + [c];
    if wc !in dict' {
      ghost var st1 := Coder(dict', toCreate', w', enlargeIn', dictSize', numBits', bits');
      var code := if w' in dict' then dict'[w'] else 0;
      o', toCreate', enlargeIn', numBits' := WritePhrase(o', st1, toCreate', w', code, enlargeIn', numBits');
      bits' := EmitW(st1).bits;
      dict' := dict'[wc := dictSize'];
      dictSize' := dictSize' + 1;
      w' := [c];
    } else {
      w' := wc;
    }
  }

  /** `_compress(uncompressed, 6, keyStrUriSafe.charAt)`, for a non-null input. */
  method CompressText(s: JsString) returns (r: JsString)
    ensures r == Pack(CompressBits(s))
  {
    var dict: map<JsString, nat> := map[];
    var toCreate: set<CodeUnit> := {};
    var w: JsString := [];
    var enlargeIn: int := 2;
    var dictSize: nat := 3;
    var numBits: nat := 2;
    var o := Out([], 0, 0);
    ghost var bits: seq<bool> := [];
    for ii := 0 to |s|
      invariant Coder(dict, toCreate, w, enlargeIn, dictSize, numBits, bits) == Run(Start, s[..ii])
      invariant Packed(o, bits)
    {
      ghost var st := Coder(dict, toCreate, w, enlargeIn, dictSize, numBits, bits);
      var c := s[ii];
      o, dict, toCreate, w, enlargeIn, dictSize, numBits, bits :=
        StepChar(o, st, c, dict, toCreate, w, enlargeIn, dictSize, numBits);
      RunSnoc(Start, s[..ii], c);
      assert s[..ii + 1] == s[..ii] + [c];
    }
    assert s[..|s|] == s;
    r := FinishText(o, Coder(dict, toCreate, w, enlargeIn, dictSize, numBits, bits),
                    dict, toCreate, w, enlargeIn, numBits);
  }

  /** After the loop: the pending phrase, the end-of-stream code 2, and the padding. */
  method FinishText(o: Out, ghost st: State, dict: map<JsString, nat>, toCreate: set<CodeUnit>,
                    w: JsString, enlargeIn: int, numBits: nat) returns (r: JsString)
    requires Packed(o, st.bits)
    requires st.dict == dict && st.toCreate == toCreate && st.w == w
    requires st.enlargeIn == enlargeIn && st.numBits == numBits
    ensures r == Pack(Finish(st))
  {
    var o' := o;
    var numBits' := numBits;
    ghost var st1 := st;
    if w != [] {
      var code := if w in dict then dict[w] else 0;
      var toCreate', enlargeIn';
      o', toCreate', enlargeIn', numBits' := WritePhrase(o, st, toCreate, w, code, enlargeIn, numBits);
      st1 := EmitW(st);
    }
    o' := PutBits(o', st1.bits, 2, numBits');
    r := Flush(o', st1.bits + LsbBits(2, numBits'));
  }

  /** `compressToEncodedURIComponent(input)`: `null` gives "". */
  method CompressToEncodedURIComponent(input: Option<JsString>) returns (r: JsString)
    ensures r == Compress(input)
  {
    if input.None? {
      return [];
    }
    r := CompressText(input.value);
  }
}
