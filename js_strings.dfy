/** JavaScript strings: sequences of UTF-16 code units. */
module JsStrings {
  type CodeUnit = x: int | 0 <= x < 0x1_0000

  type JsString = seq<CodeUnit>

  /** The code units of a string literal made of characters below U+10000. */
  function Units(s: string): (r: JsString)
    requires forall i :: 0 <= i < |s| ==> s[i] as int < 0x1_0000
    ensures |r| == |s|
    ensures forall i :: 0 <= i < |s| ==> r[i] == s[i] as int
  {
    if s == [] then [] else [s[0] as int as CodeUnit] + Units(s[1..])
  }
}
