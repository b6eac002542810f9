/**
 * The `image_chain` template filters: `_media_url` tidies the MEDIA_URL
 * setting, `normalize_url` turns a stored file name into a URL, and
 * `img_src_attrs` writes the `src` and `data-srcs` attributes of a recipe
 * image, with four fixed fallback URLs after the recipe's own picture.
 */
module ImageChain {
  import opened Wrappers
  import opened Text

  // ---------------------------------------------------------------------
  // `_media_url`

  /** The value used when the MEDIA_URL setting is absent. */
  const DefaultMediaUrl: string := "/media/"

  /** `s.lstrip(c)`: `s` without its leading run of `c`. */
  function LStrip(s: string, c: char): (r: string)
    ensures r == [] || r[0] != c
    ensures |r| <= |s| && r == s[|s| - |r|..]
    ensures forall k :: 0 <= k < |s| - |r| ==> s[k] == c
  {
    if s != [] && s[0] == c then LStrip(s[1..], c) else s
  }

  /** Starts and ends with "/". */
  predicate Slashed(s: string)
  {
    |s| >= 1 && s[0] == '/' && s[|s| - 1] == '/'
  }

  /**
   * `_media_url`: the setting (or "/media/" when it is absent) with a "/"
   * put in front when it does not start with one, and one put after when
   * it does not end with one.
   */
  function MediaUrl(setting: Option<string>): (mu: string)
    ensures Slashed(mu)
  {
    var mu := match setting case Some(v) => v case None => DefaultMediaUrl;
    var mu := if StartsWith(mu, "/") then mu else "/" + LStrip(mu, '/');
    if EndsWith(mu, "/") then mu else mu + "/"
  }

  /** A setting that already starts and ends with "/" is used as it is. */
  lemma MediaUrlKeepsSlashed(v: string)
    requires Slashed(v)
    ensures MediaUrl(Some(v)) == v
  {
    assert StartsWith(v, "/") by { assert v[..1] == "/"; }
    assert EndsWith(v, "/") by { assert v[|v| - 1..] == "/"; }
  }

  /**
   * Any other setting survives whole: at most one "/" is added in front
   * and at most one after (the `lstrip` only runs on a value that does
   * not start with "/", where it removes nothing).
   */
  lemma MediaUrlKeepsSetting(v: string)
    ensures var mu := MediaUrl(Some(v));
      var front := if StartsWith(v, "/") then 0 else 1;
      front + |v| <= |mu| <= front + |v| + 1 && mu[front..front + |v|] == v
  {
    var front := if StartsWith(v, "/") then 0 else 1;
    var m1 := if StartsWith(v, "/") then v else "/" + v;
    if !StartsWith(v, "/") {
      assert LStrip(v, '/') == v;
    }
    assert m1[front..front + |v|] == v;
    assert (m1 + "/")[front..front + |v|] == m1[front..front + |v|];
  }

  /** Applying `_media_url` to its own result changes nothing. */
  lemma MediaUrlIdempotent(setting: Option<string>)
    ensures MediaUrl(Some(MediaUrl(setting))) == MediaUrl(setting)
  {
    MediaUrlKeepsSlashed(MediaUrl(setting));
  }

  // ---------------------------------------------------------------------
  // `normalize_url`

  /** `v.lower().startswith(("http://", "https://")) or v.startswith("/")`. */
  predicate IsAbsolute(v: string)
  {
    StartsWithIgnoringCase(v, "http://") || StartsWithIgnoringCase(v, "https://") || StartsWith(v, "/")
  }

  /**
   * `normalize_url`: "" for None or "", an absolute or root-relative URL
   * unchanged, and anything else placed under the media prefix.
   */
  function NormalizeUrl(setting: Option<string>, nameOrUrl: Option<string>): (r: string)
    ensures r == "" <==> nameOrUrl.None? || nameOrUrl.value == ""
    ensures r != "" ==> IsAbsolute(r)
    ensures nameOrUrl.Some? && IsAbsolute(nameOrUrl.value) ==> r == nameOrUrl.value
    ensures nameOrUrl.Some? && nameOrUrl.value != "" && !IsAbsolute(nameOrUrl.value) ==>
      r == MediaUrl(setting) + nameOrUrl.value && r[0] == '/'
  {
    match nameOrUrl
    case None => ""
    case Some(v) =>
      if v == "" then ""
      else if IsAbsolute(v) then v
      else
        var mu := MediaUrl(setting);
        assert LStrip(v, '/') == v;
        var r := mu + LStrip(v, '/');
        assert StartsWith(r, "/") by { assert r[..1] == "/"; }
        r
  }

  /** Normalizing a normalized URL changes nothing. */
  lemma NormalizeUrlIdempotent(setting: Option<string>, nameOrUrl: Option<string>)
    ensures var once := NormalizeUrl(setting, nameOrUrl);
      NormalizeUrl(setting, Some(once)) == once
  {
  }

  // ---------------------------------------------------------------------
  // `img_src_attrs`

  /**
   * The image attribute of the object the filter is given, when it is
   * present and non-empty: its `url` (None when it has none) and `name`.
   */
  datatype ImageRef = ImageRef(url: Option<string>, name: Option<string>)

  /** The attribute value shown when the URL list is empty. */
  const Placeholder: string := "/static/img/placeholder-recipe.svg"

  /** The last fallback: a fixed picture of a plate (written in pieces, one URL). */
  const PlateIcon: string := PlateIconDir + PlateIconFile
  const PlateIconDir: string := "https://upload." + "wikimedia.org/wikipedia/" + "commons/thumb/4/4f/"
  const PlateIconFile: string := "Plate_with_food_icon.svg/" + "640px-Plate_with_food_" + "icon.svg.png"

  /** The title used in the fallback URLs: the name, or "recipe" when it is missing or empty. */
  function Title(name: Option<string>): string
  {
    OrDefault(name, "recipe")
  }

  /** The four fallback URLs for the quoted title `q`. */
  function Fallbacks(q: string): seq<string>
  {
    [ "https://source.unsplash.com" + "/featured/400x300?" + q,
      "https://loremflickr.com" + "/400/300/" + q,
      "https://picsum.photos" + "/seed/" + q + "/400/300",
      PlateIcon ]
  }

  /** `getattr(img, "url", None) or getattr(img, "name", "")`, normalized. */
  function Primary(setting: Option<string>, image: Option<ImageRef>): (p: string)
    ensures p != "" ==> IsAbsolute(p)
  {
    match image
    case None => ""
    case Some(img) =>
      var chosen := if img.url.Some? && img.url.value != "" then img.url else img.name;
      NormalizeUrl(setting, chosen)
  }

  /** The URL list: the recipe's own picture when there is one, then the fallbacks. */
  function ImgUrls(setting: Option<string>, name: Option<string>, image: Option<ImageRef>, quote: string -> string): (urls: seq<string>)
  {
    var primary := Primary(setting, image);
    (if primary != "" then [primary] else []) + Fallbacks(quote(Title(name)))
  }

  /** `src="…" data-srcs="…"`. */
  function Attrs(src: string, data: string): string
  {
    "src=\"" + src + "\" data-srcs=\"" + data + "\""
  }

  /**
   * `img_src_attrs`: the first URL as `src` (the placeholder when there is
   * none) and the others joined with "|" as `data-srcs`. `quote` is the
   * URL quoting function, taken as given.
   */
  function ImgSrcAttrs(setting: Option<string>, name: Option<string>, image: Option<ImageRef>, quote: string -> string): string
  {
    var urls := ImgUrls(setting, name, image, quote);
    var src := if |urls| > 0 then urls[0] else Placeholder;
    var data := if |urls| > 1 then Join("|", urls[1..]) else "";
    Attrs(src, data)
  }

  /**
   * The list is the normalized picture, when there is one, followed by the
   * four fallbacks. It is never empty, so the placeholder branch is never
   * taken: `src` is the first URL and `data-srcs` joins the others.
   */
  lemma ImgSrcAttrsShape(setting: Option<string>, name: Option<string>, image: Option<ImageRef>, quote: string -> string)
    ensures var urls := ImgUrls(setting, name, image, quote);
      var primary := Primary(setting, image);
      && |urls| == (if primary == "" then 4 else 5)
      && urls[|urls| - 4..] == Fallbacks(quote(Title(name)))
      && (primary != "" ==> urls[0] == primary)
      && ImgSrcAttrs(setting, name, image, quote) == Attrs(urls[0], Join("|", urls[1..]))
  {
  }

  /** Reads `src="…" data-srcs="…"` back into the `src` value and the `data-srcs` entries. */
  function ParseAttrs(s: string): Option<(string, seq<string>)>
  {
    var head := "src=\"";
    if !StartsWith(s, head) then None
    else
      var rest := s[|head|..];
      var i := IndexOf(rest, '"');
      if i < 0 then None
      else
        var tail := rest[i + 1..];
        var mid := " data-srcs=\"";
        if StartsWith(tail, mid) && |tail| > |mid| && tail[|tail| - 1] == '"' then
          Some((rest[..i], Split(tail[|mid|..|tail| - 1], '|')))
        else None
  }

  /** `Attrs` is undone by `ParseAttrs` when `src` holds no quote mark and no entry holds "|". */
  lemma AttrsRoundTrip(src: string, data: seq<string>)
    requires '"' !in src && |data| >= 1
    requires forall k :: 0 <= k < |data| ==> '|' !in data[k]
    ensures ParseAttrs(Attrs(src, Join("|", data))) == Some((src, data))
  {
    var joined := Join("|", data);
    assert ParseAttrs(Attrs(src, joined)) == Some((src, Split(joined, '|'))) by {
      AttrsParts(src, joined);
    }
    SplitJoin(data, '|');
  }

  /** Where the pieces of `Attrs(src, data)` sit, and what `ParseAttrs` reads from them. */
  lemma AttrsParts(src: string, data: string)
    requires '"' !in src
    ensures ParseAttrs(Attrs(src, data)) == Some((src, Split(data, '|')))
  {
    var mid := " data-srcs=\"";
    var tail := mid + data + "\"";
    var s := Attrs(src, data);
    assert s == "src=\"" + (src + ['"'] + tail);
    var rest := s[5..];
    assert rest == src + ['"'] + tail;
    FirstSeparator(src, '"', tail);
    assert IndexOf(rest, '"') == |src| && rest[..|src|] == src && rest[|src| + 1..] == tail;
    assert StartsWith(tail, mid) && tail[|mid|..|tail| - 1] == data;
  }

  /**
   * With no picture, `src` is the Unsplash URL for the quoted title and
   * `data-srcs` holds the other three fallbacks; with one, `src` is the
   * picture and `data-srcs` holds all four fallbacks. Stated for a title
   * whose quoted form holds no quote mark and no "|", and a picture URL
   * with neither, as URL quoting guarantees.
   */
  lemma ImgSrcAttrsReadBack(setting: Option<string>, name: Option<string>, image: Option<ImageRef>, quote: string -> string)
    requires var q := quote(Title(name)); '"' !in q && '|' !in q
    requires var p := Primary(setting, image); '"' !in p && '|' !in p
    ensures var q := quote(Title(name));
      var primary := Primary(setting, image);
      ParseAttrs(ImgSrcAttrs(setting, name, image, quote)) ==
        if primary == "" then Some((Fallbacks(q)[0], Fallbacks(q)[1..]))
        else Some((primary, Fallbacks(q)))
  {
    var q := quote(Title(name));
    var urls := ImgUrls(setting, name, image, quote);
    ImgSrcAttrsShape(setting, name, image, quote);
    FallbacksLack(q, '"');
    FallbacksLack(q, '|');
    assert '"' !in urls[0];
    assert forall k :: 0 <= k < |urls| - 1 ==> '|' !in urls[1..][k] by {
      forall k | 0 <= k < |urls| - 1 ensures '|' !in urls[1..][k] {
        assert urls[1..][k] == urls[k + 1];
      }
    }
    AttrsRoundTrip(urls[0], urls[1..]);
  }

  /** The fallbacks add no quote mark and no "|" to the quoted title. */
  lemma FallbacksLack(q: string, c: char)
    requires (c == '"' || c == '|') && c !in q
    ensures forall k :: 0 <= k < 4 ==> c !in Fallbacks(q)[k]
  {
    UnsplashLacks(q, c);
    FlickrLacks(q, c);
    PicsumLacks(q, c);
    PlateIconLacks(c);
  }

  lemma UnsplashLacks(q: string, c: char)
    requires (c == '"' || c == '|') && c !in q
    ensures c !in Fallbacks(q)[0]
  {
    assert c !in "https://source.unsplash.com" && c !in "/featured/400x300?";
  }

  lemma FlickrLacks(q: string, c: char)
    requires (c == '"' || c == '|') && c !in q
    ensures c !in Fallbacks(q)[1]
  {
    assert c !in "https://loremflickr.com" && c !in "/400/300/";
  }

  lemma PicsumLacks(q: string, c: char)
    requires (c == '"' || c == '|') && c !in q
    ensures c !in Fallbacks(q)[2]
  {
    assert c !in "https://picsum.photos" && c !in "/seed/" && c !in "/400/300";
  }

  lemma PlateIconLacks(c: char)
    requires c == '"' || c == '|'
    ensures c !in PlateIcon
  {
    PlateIconDirLacks(c);
    PlateIconFileLacks(c);
  }

  lemma PlateIconDirLacks(c: char)
    requires c == '"' || c == '|'
    ensures c !in PlateIconDir
  {
    assert c !in "https://upload." && c !in "wikimedia.org/wikipedia/" && c !in "commons/thumb/4/4f/";
  }

  lemma PlateIconFileLacks(c: char)
    requires c == '"' || c == '|'
    ensures c !in PlateIconFile
  {
    assert c !in "Plate_with_food_icon.svg/" && c !in "640px-Plate_with_food_" && c !in "icon.svg.png";
  }
}
