/** Upload names and the stored image list of a resource: the extension
    test for uploads, and the tolerant reader of the `images` column. The
    reader undoes up to five layers of JSON-in-a-string encoding, and falls
    back to a comma-separated list when the column is not JSON.

    The nested `json.loads` calls on inner strings are the parameter
    `decode`: `None` when the text is not JSON.
 */
module Images {
  import opened Base
  import opened PyText
  import opened PyJson

  const AllowedExtensions: set<string> := {"png", "jpg", "jpeg", "gif", "webp"}

  /** `allowed_file`: there is a `'.'` and the lower-cased text after the last one is an allowed extension. */
  function AllowedFile(name: string): (r: bool)
    ensures r ==> '.' in name
    ensures r ==> Lower(name[LastIndexOf(name, '.') + 1..]) in AllowedExtensions
  {
    '.' in name && Lower(name[LastIndexOf(name, '.') + 1..]) in AllowedExtensions
  }

  /** The extension is what follows the last dot, whatever the stem holds. */
  lemma AllowedFileIff(stem: string, ext: string)
    requires '.' !in ext
    ensures AllowedFile(stem + "." + ext) <==> Lower(ext) in AllowedExtensions
  {
    var name := stem + "." + ext;
    assert name[|stem|] == '.' && name[|stem| + 1..] == ext;
    var i := LastIndexOf(name, '.');
    assert i == |stem|;
  }

  /** A name without a dot is never accepted. */
  lemma DotlessRefused(name: string)
    requires '.' !in name
    ensures !AllowedFile(name)
  {
  }

  // ---- the stored image list ----

  const MaxDecodeRounds: nat := 5

  /** `text.strip().startswith('[') or text.strip().startswith('{')`. */
  predicate LooksLikeJson(text: string)
  {
    StartsWith(Strip(text), "[") || StartsWith(Strip(text), "{")
  }

  /** One decoding attempt: it broke off on text that is not JSON, left the
      value alone, or decoded it. */
  datatype Attempt = Broke(v: Json) | Same(v: Json) | Changed(v: Json)

  /** The first step of a round: a JSON-looking string is decoded. */
  function DecodeString(v: Json, decode: string -> Option<Json>): (r: Attempt)
    ensures r.Same? <==> !(v.JStr? && LooksLikeJson(v.s))
    ensures r.Broke? || r.Same? ==> r.v == v
  {
    if v.JStr? && LooksLikeJson(v.s) then
      match decode(v.s)
      case None => Broke(v)
      case Some(x) => Changed(x)
    else Same(v)
  }

  /** The second step: a list holding one JSON-looking string is replaced by its decoding. */
  function DecodeSingleton(v: Json, decode: string -> Option<Json>): (r: Attempt)
    ensures r.Same? <==> !(v.JArr? && |v.items| == 1 && v.items[0].JStr? && LooksLikeJson(v.items[0].s))
    ensures r.Broke? || r.Same? ==> r.v == v
  {
    if v.JArr? && |v.items| == 1 && v.items[0].JStr? && LooksLikeJson(v.items[0].s) then
      match decode(v.items[0].s)
      case None => Broke(v)
      case Some(x) => Changed(x)
    else Same(v)
  }

  /** A value that neither step touches; the loop stops on it at once. */
  predicate Settled(v: Json)
  {
    && !(v.JStr? && LooksLikeJson(v.s))
    && !(v.JArr? && |v.items| == 1 && v.items[0].JStr? && LooksLikeJson(v.items[0].s))
  }

  /** The decoding loop, with `rounds` rounds left. It stops when a decode
      fails, when a round changes nothing, or when the rounds run out. */
  function Unnest(v: Json, decode: string -> Option<Json>, rounds: nat): (r: Json)
    ensures Settled(v) ==> r == v
    decreases rounds
  {
    if rounds == 0 then v
    else
      var first := DecodeString(v, decode);
      if first.Broke? then first.v
      else
        var second := DecodeSingleton(first.v, decode);
        if second.Broke? then second.v
        else if first.Same? && second.Same? then second.v
        else Unnest(second.v, decode, rounds - 1)
  }

  /** The loop gives up after five rounds even on text that decodes to
      itself forever. */
  lemma UnnestStopsOnSelfDecoding(text: string, decode: string -> Option<Json>)
    requires LooksLikeJson(text) && decode(text) == Some(JStr(text))
    ensures Unnest(JStr(text), decode, MaxDecodeRounds) == JStr(text)
  {
  }

  /** `img.strip().strip('"').strip("'")`. */
  function Tidy(s: string): string
  {
    StripChar(StripChar(Strip(s), '"'), '\'')
  }

  /** A kept entry is an absolute `http`/`https` URL or a path starting with `/`. */
  predicate UrlLike(s: string)
  {
    StartsWith(s, "http://") || StartsWith(s, "https://") || StartsWith(s, "/")
  }

  /** The cleaning loop: non-empty strings, tidied, kept when URL-like. */
  function Clean(items: seq<Json>): (r: seq<string>)
    ensures |r| <= |items|
    ensures forall i :: 0 <= i < |r| ==> UrlLike(r[i])
  {
    if |items| == 0 then []
    else
      var head := items[0];
      (if head.JStr? && |head.s| > 0 && UrlLike(Tidy(head.s)) then [Tidy(head.s)] else []) + Clean(items[1..])
  }

  /** The comma fallback: pieces stripped, empty ones dropped. */
  function CommaPieces(parts: seq<string>): (r: seq<string>)
    requires forall k :: 0 <= k < |parts| ==> ',' !in parts[k]
    ensures |r| <= |parts|
    ensures forall i :: 0 <= i < |r| ==> |r[i]| > 0 && ',' !in r[i]
  {
    if |parts| == 0 then []
    else
      var piece := Strip(parts[0]);
      StripKeepsOut(parts[0], ',');
      var head := if |piece| > 0 then [piece] else [];
      TailHasNoComma(parts);
      var rest := CommaPieces(parts[1..]);
      PiecesAppend(head, rest);
      head + rest
  }

  lemma TailHasNoComma(parts: seq<string>)
    requires |parts| > 0 && forall k :: 0 <= k < |parts| ==> ',' !in parts[k]
    ensures forall k :: 0 <= k < |parts[1..]| ==> ',' !in parts[1..][k]
  {
    assert forall k :: 0 <= k < |parts[1..]| ==> parts[1..][k] == parts[k + 1];
  }

  lemma PiecesAppend(head: seq<string>, rest: seq<string>)
    requires forall i :: 0 <= i < |head| ==> |head[i]| > 0 && ',' !in head[i]
    requires forall i :: 0 <= i < |rest| ==> |rest[i]| > 0 && ',' !in rest[i]
    ensures forall i :: 0 <= i < |head + rest| ==> |(head + rest)[i]| > 0 && ',' !in (head + rest)[i]
  {
    forall i | 0 <= i < |head + rest|
      ensures |(head + rest)[i]| > 0 && ',' !in (head + rest)[i]
    {
      if i >= |head| {
        assert (head + rest)[i] == rest[i - |head|];
      }
    }
  }

  /** `parse_resource_images`. An empty column gives no images. A JSON
      column is unnested, wrapped in a list when it is not one, and cleaned.
      Text that is not JSON is split on commas, with no URL test. */
  function ParseImages(images: Blob, decode: string -> Option<Json>): (r: seq<string>)
    ensures images.Empty? ==> r == []
    ensures images.Encoded? ==> forall i :: 0 <= i < |r| ==> UrlLike(r[i])
    ensures images.Unparseable? ==> forall i :: 0 <= i < |r| ==> |r[i]| > 0 && ',' !in r[i]
  {
    match images
    case Empty => []
    case Unparseable(raw) => CommaPieces(Split(raw, ','))
    case Encoded(doc) =>
      var v := Unnest(doc, decode, MaxDecodeRounds);
      Clean(if v.JArr? then v.items else [v])
  }

  /** An entry the writer produces: URL-like, with no whitespace or quote at either end. */
  predicate CleanUrl(u: string)
  {
    && UrlLike(u) && |u| > 0
    && !IsSpace(u[|u| - 1]) && u[|u| - 1] != '"' && u[|u| - 1] != '\''
  }

  /** Tidying a clean entry changes nothing. */
  lemma TidyClean(u: string)
    requires CleanUrl(u)
    ensures Tidy(u) == u
  {
    assert u[0] == 'h' || u[0] == '/';
    StripUnpadded(u);
  }

  /** A clean entry does not look like JSON. */
  lemma CleanUrlNotJson(u: string)
    requires CleanUrl(u)
    ensures !LooksLikeJson(u)
  {
    assert u[0] == 'h' || u[0] == '/';
    StripUnpadded(u);
  }

  /** The JSON list of the given strings. */
  function Strings(urls: seq<string>): (r: seq<Json>)
    ensures |r| == |urls| && forall i :: 0 <= i < |r| ==> r[i] == JStr(urls[i])
  {
    seq(|urls|, i requires 0 <= i < |urls| => JStr(urls[i]))
  }

  lemma HeadTail<T>(s: seq<T>)
    requires |s| > 0
    ensures [s[0]] + s[1..] == s
  {
  }

  lemma StringsCons(urls: seq<string>)
    requires |urls| > 0
    ensures Strings(urls)[0] == JStr(urls[0]) && Strings(urls)[1..] == Strings(urls[1..])
  {
  }

  lemma CleanConsClean(items: seq<Json>, u: string)
    requires |items| > 0 && items[0] == JStr(u) && CleanUrl(u)
    ensures Clean(items) == [u] + Clean(items[1..])
  {
    var head := items[0];
    assert head.JStr? && head.s == u && |u| > 0 && UrlLike(u);
    TidyClean(u);
    assert Tidy(head.s) == u;
  }

  lemma {:induction false} CleanKeepsCleanUrls(urls: seq<string>)
    requires forall i :: 0 <= i < |urls| ==> CleanUrl(urls[i])
    ensures Clean(Strings(urls)) == urls
    decreases |urls|
  {
    if |urls| > 0 {
      var items := Strings(urls);
      var u := urls[0];
      StringsCons(urls);
      CleanKeepsCleanUrls(urls[1..]);
      CleanConsClean(items, u);
      HeadTail(urls);
    }
  }

  /** A clean entry never looks like JSON, so a list of them is settled. */
  lemma CleanListSettled(urls: seq<string>)
    requires forall i :: 0 <= i < |urls| ==> CleanUrl(urls[i])
    ensures Settled(JArr(Strings(urls)))
  {
    if |urls| == 1 {
      CleanUrlNotJson(urls[0]);
      assert Strings(urls)[0] == JStr(urls[0]);
    }
  }

  /** A list stored as `json.dumps(urls)` reads back as the same list. */
  lemma StoredListRoundTrip(urls: seq<string>, decode: string -> Option<Json>)
    requires forall i :: 0 <= i < |urls| ==> CleanUrl(urls[i])
    ensures ParseImages(Encoded(JArr(Strings(urls))), decode) == urls
  {
    CleanListSettled(urls);
    CleanKeepsCleanUrls(urls);
  }

  /** A list encoded twice (stored as the JSON string of its JSON text)
      also reads back as the same list. */
  lemma DoubleEncodedRoundTrip(urls: seq<string>, text: string, decode: string -> Option<Json>)
    requires forall i :: 0 <= i < |urls| ==> CleanUrl(urls[i])
    requires LooksLikeJson(text) && decode(text) == Some(JArr(Strings(urls)))
    ensures ParseImages(Encoded(JStr(text)), decode) == urls
  {
    CleanListSettled(urls);
    var first := DecodeString(JStr(text), decode);
    assert first == Changed(JArr(Strings(urls)));
    assert DecodeSingleton(first.v, decode) == Same(first.v);
    assert Unnest(JStr(text), decode, MaxDecodeRounds) == Unnest(JArr(Strings(urls)), decode, MaxDecodeRounds - 1);
    CleanKeepsCleanUrls(urls);
  }

  /** Text that is not JSON and has no comma is one image, URL-like or not. */
  lemma CommaFallbackUnfiltered(raw: string, decode: string -> Option<Json>)
    requires ',' !in raw && |Strip(raw)| > 0
    ensures ParseImages(Unparseable(raw), decode) == [Strip(raw)]
  {
    assert Split(raw, ',') == [raw];
  }
}
