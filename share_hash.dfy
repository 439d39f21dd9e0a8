/**
 * Share links: `copyShareLink` puts `#v2=<token>` in the address, the token
 * being the compressed application snapshot, and `tryLoadFromHash` splits
 * the hash on '=' and decompresses the token.
 *
 * `JSON.parse` is modelled only as far as the loader depends on it: a
 * snapshot is the JSON text of an object, and the object that results is
 * identified by that text; an object passed where text is expected is
 * first converted to the text "[object Object]", which is not JSON.
 */
module ShareHash {
  import opened JsStrings
  import opened Wrappers
  import opened LzBits
  import opened LzCompress
  import opened LzDecompress
  import opened LzRoundTrip

  const HashMark: CodeUnit := '#' as int
  const EqualsSign: CodeUnit := '=' as int
  const V1: JsString := ['v' as int, '1' as int]
  const V2: JsString := ['v' as int, '2' as int]

  /** What `String(object)` gives for a plain object. */
  const ObjectText: JsString := Units("[object Object]")

  /** `JSON.stringify` of an object: text that starts with '{'. */
  predicate IsObjectJson(s: JsString)
  {
    |s| > 0 && s[0] == '{' as int
  }

  /** A JavaScript value handed to `JSON.parse`: a string, or an object parsed from the given text. */
  datatype JsValue = JsText(s: JsString) | JsObject(source: JsString)

  /** `String(v)`. */
  function ToText(v: JsValue): JsString
  {
    match v
    case JsText(s) => s
    case JsObject(_) => ObjectText
  }

  /** `JSON.parse(v)`: `None` is the `SyntaxError` it throws. */
  function JsonParse(v: JsValue): (r: Option<JsValue>)
    ensures v.JsObject? ==> r.None?
    ensures IsObjectJson(ToText(v)) ==> r == Some(JsObject(ToText(v)))
  {
    var s := ToText(v);
    if s == ObjectText then None else Some(JsObject(s))
  }

  /** `'#' + 'v2=' + compressToEncodedURIComponent(payload)`, as `copyShareLink` sets it. */
  function ShareLinkHash(payload: Option<JsString>): JsString
  {
    [HashMark] + V2 + [EqualsSign] + Compress(payload)
  }

  /** `SHARE_HASH_RE = /^#v(1|2)=/`. */
  predicate IsShareHash(h: JsString)
  {
    |h| >= 4 && h[0] == HashMark && h[1] == 'v' as int &&
    (h[2] == '1' as int || h[2] == '2' as int) && h[3] == EqualsSign
  }

  /** The first position of `u` in `s`. */
  function IndexOf(s: JsString, u: CodeUnit): (r: Option<nat>)
    ensures r.None? <==> u !in s
    ensures r.Some? ==> r.value < |s| && s[r.value] == u && u !in s[..r.value]
  {
    if s == [] then None
    else if s[0] == u then Some(0)
    else
      var r := IndexOf(s[1..], u);
      assert s[1..][..if r.Some? then r.value else 0] == s[1..if r.Some? then r.value + 1 else 1];
      if r.None? then None else Some(r.value + 1)
  }

  /**
   * `const [v, payload] = raw.split('=')`: the text before the first '=',
   * and the text between the first and the second '=' (`undefined` when
   * there is no '=').
   */
  function SplitTwo(raw: JsString): (r: (JsString, Option<JsString>))
    ensures r.1.None? <==> EqualsSign !in raw
    ensures r.1.None? ==> r.0 == raw
    ensures r.1.Some? ==> EqualsSign !in r.0 && EqualsSign !in r.1.value && r.0 + [EqualsSign] + r.1.value <= raw
    ensures r.1.Some? && |r.0| + 1 + |r.1.value| < |raw| ==> raw[|r.0| + 1 + |r.1.value|] == EqualsSign
  {
    match IndexOf(raw, EqualsSign)
    case None => (raw, None)
    case Some(i) =>
      var rest := raw[i + 1..];
      match IndexOf(rest, EqualsSign)
      case None => (raw[..i], Some(rest))
      case Some(j) => (raw[..i], Some(rest[..j]))
  }

  /** `applySnapshot(snap)`: what happens to the value it is given. */
  datatype Applied = Skipped | Restored(snapshot: JsString) | Threw

  /** `if (!snap) return; const data = JSON.parse(snap); ...` */
  function ApplySnapshotValue(snap: JsValue): (r: Applied)
    ensures r == Skipped <==> snap == JsText([])
    ensures snap.JsObject? ==> r == Threw
    ensures snap.JsText? && IsObjectJson(snap.s) ==> r == Restored(snap.s)
  {
    if snap == JsText([]) then Skipped
    else match JsonParse(snap)
      case None => Threw
      case Some(data) => Restored(data.source)
  }

  /** How `tryLoadFromHash` ends; it returns true exactly for the last two. */
  datatype Load = NotShareHash | Failed | LoadedSnapshot(snapshot: JsString) | LoadedLegacy(payload: JsString)

  /** The decompressed token when it is truthy; `!json` throws for "", `null` and a thrown error. */
  function TokenText(raw: JsString): Option<JsString>
  {
    match Decompress(SplitTwo(raw).1)
    case Text(t) => if t == [] then None else Some(t)
    case _ => None
  }

  /**
   * `tryLoadFromHash` exactly as written in v1.2.25: the v2 branch parses
   * the text into an object and hands the OBJECT to `applySnapshot`,
   * whose own `JSON.parse` then throws, and the catch returns false.
   */
  function TryLoadFromHashAsWritten(h: JsString): (r: Load)
    ensures !IsShareHash(h) <==> r == NotShareHash
    ensures !r.LoadedSnapshot?
  {
    if !IsShareHash(h) then NotShareHash
    else LoadTokenAsWritten(SplitTwo(h[1..]).0, TokenText(h[1..]))
  }

  /** The part of `tryLoadFromHash` as written after the token was decompressed to `json`. */
  function LoadTokenAsWritten(v: JsString, json: Option<JsString>): (r: Load)
    ensures r != NotShareHash && !r.LoadedSnapshot?
    ensures r.LoadedLegacy? ==> v == V1 && json == Some(r.payload)
  {
    match json
    case None => Failed
    case Some(json) =>
      if v == V2 then
        match JsonParse(JsText(json))
        case None => Failed
        case Some(snapshot) =>
          match ApplySnapshotValue(snapshot)
          case Restored(s) => LoadedSnapshot(s)
          case _ => Failed
      else if v == V1 then
        match JsonParse(JsText(json))
        case None => Failed
        case Some(_) => LoadedLegacy(json)
      else Failed
  }

  /**
   * `tryLoadFromHash` with the v2 branch handing the decompressed TEXT to
   * `applySnapshot`, as v1.1.28 does.
   */
  function TryLoadFromHash(h: JsString): (r: Load)
    ensures !IsShareHash(h) <==> r == NotShareHash
  {
    if !IsShareHash(h) then NotShareHash
    else LoadToken(SplitTwo(h[1..]).0, TokenText(h[1..]))
  }

  /** The corrected part after the token was decompressed to `json`. */
  function LoadToken(v: JsString, json: Option<JsString>): (r: Load)
    ensures r != NotShareHash
  {
    match json
    case None => Failed
    case Some(json) =>
      if v == V2 then
        match ApplySnapshotValue(JsText(json))
        case Restored(s) => LoadedSnapshot(s)
        case _ => Failed
      else if v == V1 then
        match JsonParse(JsText(json))
        case None => Failed
        case Some(_) => LoadedLegacy(json)
      else Failed
  }

  /** The hash `copyShareLink` writes is one `tryLoadFromHash` recognises. */
  lemma ShareLinkIsShareHash(payload: Option<JsString>)
    ensures IsShareHash(ShareLinkHash(payload))
  {
  }

  /** Splitting `v2=<token>` on '=' gives back `v2` and the whole token, since a token has no '='. */
  lemma SplitRecoversToken(token: JsString)
    requires EqualsSign !in token
    ensures SplitTwo(V2 + [EqualsSign] + token) == (V2, Some(token))
  {
    var raw := V2 + [EqualsSign] + token;
    assert raw[..2] == V2 && raw[3..] == token;
    assert EqualsSign !in raw[..2];
  }

  lemma ShareLinkRaw(payload: Option<JsString>)
    ensures ShareLinkHash(payload)[1..] == V2 + [EqualsSign] + Compress(payload)
  {
  }

  /** A share link's token decompresses to the snapshot it was made from. */
  lemma ShareLinkToken(s: JsString)
    requires s != []
    ensures TokenText(ShareLinkHash(Some(s))[1..]) == Some(s)
    ensures SplitTwo(ShareLinkHash(Some(s))[1..]).0 == V2
  {
    var token := Compress(Some(s));
    ShareLinkRaw(Some(s));
    SplitRecoversToken(token);
    RoundTrip(s);
  }

  /** How both loaders treat a `v2` token that decompresses to object JSON. */
  lemma LoadsOfSnapshotToken(s: JsString)
    requires IsObjectJson(s)
    ensures LoadTokenAsWritten(V2, Some(s)) == Failed
    ensures LoadToken(V2, Some(s)) == LoadedSnapshot(s)
  {
    assert JsonParse(JsText(s)) == Some(JsObject(s));
    assert ApplySnapshotValue(JsObject(s)) == Threw;
    assert ApplySnapshotValue(JsText(s)) == Restored(s);
  }

  /** As written, no share link made from a snapshot ever loads. */
  lemma ShareLinkNeverLoadsAsWritten(s: JsString)
    requires IsObjectJson(s)
    ensures TryLoadFromHashAsWritten(ShareLinkHash(Some(s))) == Failed
  {
    ShareLinkToken(s);
    ShareLinkIsShareHash(Some(s));
    LoadsOfSnapshotToken(s);
  }

  /** With the text handed over, every share link made from a snapshot restores exactly that snapshot. */
  lemma ShareLinkLoads(s: JsString)
    requires IsObjectJson(s)
    ensures TryLoadFromHash(ShareLinkHash(Some(s))) == LoadedSnapshot(s)
  {
    ShareLinkToken(s);
    ShareLinkIsShareHash(Some(s));
    LoadsOfSnapshotToken(s);
  }

  /** A link made while `snapshotState()` failed (`null`) carries an empty token and loads nothing. */
  lemma EmptyShareLinkFails()
    ensures TryLoadFromHash(ShareLinkHash(None)) == Failed
  {
    var raw := ShareLinkHash(None)[1..];
    assert raw == V2 + [EqualsSign];
    SplitRecoversToken([]);
    assert raw == V2 + [EqualsSign] + [];
  }
}
