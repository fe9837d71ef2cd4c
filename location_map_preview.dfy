/**
 * The integer and text rules of the map preview: the OpenStreetMap tile address of a
 * tile, the guards of the zoom buttons, the zoom of the compact preview and the label
 * handed to a maps app. Tile coordinates and zoom levels are Kotlin `Int`s small enough
 * that `x + y` does not overflow.
 */
module LocationMapPreviews {
  import opened Wrappers
  import opened MemoLocations

  /** The widest and the closest zoom level the buttons and the compact preview allow. */
  const MIN_ZOOM: int := 3
  const MAX_ZOOM: int := 18

  // ---------------------------------------------------------------------------
  // Kotlin's remainder

  /** Kotlin's `/` on `Int`: the quotient truncated toward zero. */
  function KotlinDiv(a: int, b: int): int
    requires b > 0
  {
    if a >= 0 then a / b else -((-a) / b)
  }

  /**
   * Kotlin's `%` on `Int`: what is left after the truncated quotient, so the remainder takes
   * the sign of the dividend (unlike Dafny's `%`, whose remainder is never negative).
   */
  function KotlinRem(a: int, b: int): (r: int)
    requires b > 0
    ensures KotlinDiv(a, b) * b + r == a
    ensures -b < r < b
    ensures a >= 0 ==> r >= 0
    ensures a <= 0 ==> r <= 0
  {
    if a >= 0 then a % b else -((-a) % b)
  }

  // ---------------------------------------------------------------------------
  // Decimal text of an Int, as string templates write it

  predicate IsDigitChar(c: char) {
    '0' <= c <= '9'
  }

  predicate AllDigitChars(s: string) {
    forall i :: 0 <= i < |s| ==> IsDigitChar(s[i])
  }

  function DigitChar(d: int): (c: char)
    requires 0 <= d < 10
    ensures IsDigitChar(c)
  {
    ('0' as int + d) as char
  }

  /** The decimal digits of `n`, most significant first, without leading zeros. */
  function NatToString(n: nat): (s: string)
    ensures |s| > 0 && AllDigitChars(s)
    decreases n
  {
    if n < 10 then [DigitChar(n)] else NatToString(n / 10) + [DigitChar(n % 10)]
  }

  /** `"$i"`: a minus sign before the digits of a negative number. */
  function IntToString(i: int): string {
    if i < 0 then "-" + NatToString(-i) else NatToString(i)
  }

  /** The value of a string of decimal digits. */
  function DigitsValue(s: string): nat
    requires AllDigitChars(s)
  {
    if s == [] then 0 else DigitsValue(s[..|s| - 1]) * 10 + (s[|s| - 1] as int - '0' as int)
  }

  /** Reading an optionally negative decimal number back. */
  function ParseInt(s: string): Option<int> {
    if |s| > 1 && s[0] == '-' && AllDigitChars(s[1..]) then Some(0 - DigitsValue(s[1..]) as int)
    else if |s| > 0 && AllDigitChars(s) then Some(DigitsValue(s))
    else None
  }

  lemma {:induction false} NatToStringValue(n: nat)
    ensures DigitsValue(NatToString(n)) == n
    decreases n
  {
    if n >= 10 {
      var s := NatToString(n);
      assert s[..|s| - 1] == NatToString(n / 10);
      NatToStringValue(n / 10);
    }
  }

  /** The decimal text of an Int reads back as that Int. */
  lemma IntToStringRoundTrip(i: int)
    ensures ParseInt(IntToString(i)) == Some(i)
  {
    if i < 0 {
      var s := IntToString(i);
      assert s[1..] == NatToString(-i);
      NatToStringValue(-i);
    } else {
      NatToStringValue(i);
    }
  }

  lemma IntToStringHasNoSlash(i: int)
    ensures '/' !in IntToString(i)
  {
    var d := NatToString(if i < 0 then -i else i);
    assert forall k :: 0 <= k < |d| ==> d[k] != '/';
  }

  // ---------------------------------------------------------------------------
  // The tile address

  const SUBDOMAINS: seq<string> := ["a", "b", "c"]
  const TILE_HOST: string := ".tile.openstreetmap.org/"

  /** `https://$subdomain.tile.openstreetmap.org/$zoom/$x/$y.png`. */
  function TileAddress(subdomain: string, zoom: int, x: int, y: int): string {
    "https://" + (subdomain + (TILE_HOST + (IntToString(zoom) + ("/" + (IntToString(x) + ("/" +
      (IntToString(y) + ".png")))))))
  }

  /**
   * `tileUrl` as written: `arrayOf("a", "b", "c")[(x + y) % 3]` with Kotlin's `%`. A
   * negative index throws, which is modelled as no address.
   */
  function TileUrlAsWritten(zoom: int, x: int, y: int): Option<string> {
    var index := KotlinRem(x + y, 3);
    if 0 <= index < |SUBDOMAINS| then Some(TileAddress(SUBDOMAINS[index], zoom, x, y)) else None
  }

  /** The subdomain a tile is fetched from: the three servers take turns along a row or column. */
  function Subdomain(x: int, y: int): string {
    SUBDOMAINS[(x + y) % 3]
  }

  /** `tileUrl` with the subdomain chosen by the never-negative remainder: defined for every tile. */
  function TileUrl(zoom: int, x: int, y: int): string {
    TileAddress(Subdomain(x, y), zoom, x, y)
  }

  /** The written code throws exactly for the tiles with a negative, non-multiple-of-3 `x + y`. */
  lemma TileUrlAsWrittenFailsIff(zoom: int, x: int, y: int)
    ensures TileUrlAsWritten(zoom, x, y).None? <==> x + y < 0 && (x + y) % 3 != 0
  {
    var a := x + y;
    var r := KotlinRem(a, 3);
    if a < 0 && a % 3 != 0 {
      assert (-a) % 3 != 0;
      assert r < 0;
    }
  }

  /**
   * A tile to the left of the world's first column, as the preview's neighbour grid asks
   * for around a location in the westernmost column, has no address as written.
   */
  lemma WestOfFirstColumnThrows(zoom: int)
    ensures TileUrlAsWritten(zoom, -1, 0).None?
  {
    TileUrlAsWrittenFailsIff(zoom, -1, 0);
  }

  /** Wherever the written code does not throw, it gives the corrected address. */
  lemma TileUrlAgrees(zoom: int, x: int, y: int)
    requires TileUrlAsWritten(zoom, x, y).Some?
    ensures TileUrlAsWritten(zoom, x, y) == Some(TileUrl(zoom, x, y))
  {
    var a := x + y;
    if a < 0 {
      TileUrlAsWrittenFailsIff(zoom, x, y);
      assert KotlinRem(a, 3) == 0;
    }
  }

  /** Neighbouring tiles in a row or a column come from different servers. */
  lemma NeighboursUseOtherServers(x: int, y: int)
    ensures Subdomain(x + 1, y) != Subdomain(x, y)
    ensures Subdomain(x, y + 1) != Subdomain(x, y)
  {
  }

  // ---------------------------------------------------------------------------
  // Reading an address back

  /** The text before the first `c` and the text after it. */
  function SplitFirst(s: string, c: char): Option<(string, string)> {
    if s == [] then None
    else if s[0] == c then Some(([], s[1..]))
    else match SplitFirst(s[1..], c)
      case None => None
      case Some(p) => Some(([s[0]] + p.0, p.1))
  }

  lemma {:induction false} SplitFirstAt(a: string, c: char, b: string)
    requires c !in a
    ensures SplitFirst(a + ([c] + b), c) == Some((a, b))
    decreases |a|
  {
    var s := a + ([c] + b);
    if a == [] {
      assert s == [c] + b;
    } else {
      assert s[1..] == a[1..] + ([c] + b);
      SplitFirstAt(a[1..], c, b);
      assert [a[0]] + a[1..] == a;
    }
  }

  /** The number before `.png`, if the text ends so. */
  function ParsePng(last: string): Option<int> {
    if |last| < 4 || last[|last| - 4..] != ".png" then None else ParseInt(last[..|last| - 4])
  }

  /** The zoom, column and row of a `zoom/x/y.png` path. */
  function ParseTilePath(path: string): Option<(int, int, int)> {
    match SplitFirst(path, '/')
    case None => None
    case Some(p1) =>
      match SplitFirst(p1.1, '/')
      case None => None
      case Some(p2) =>
        match (ParseInt(p1.0), ParseInt(p2.0), ParsePng(p2.1))
        case (Some(z), Some(x), Some(y)) => Some((z, x, y))
        case _ => None
  }

  /** The length of `https://<one letter>.tile.openstreetmap.org/`. */
  const TILE_HEAD := |"https://"| + 1 + |TILE_HOST|

  /** The zoom, column and row named by an address of the tile server, if it is one. */
  function ParseTileUrl(url: string): Option<(int, int, int)> {
    if |url| < TILE_HEAD || url[..8] != "https://" || url[9..TILE_HEAD] != TILE_HOST then None
    else ParseTilePath(url[TILE_HEAD..])
  }

  lemma PngRoundTrip(y: int)
    ensures ParsePng(IntToString(y) + ".png") == Some(y)
  {
    var ys := IntToString(y) + ".png";
    assert ys[|ys| - 4..] == ".png";
    assert ys[..|ys| - 4] == IntToString(y);
    IntToStringRoundTrip(y);
  }

  lemma TilePathRoundTrip(zoom: int, x: int, y: int)
    ensures ParseTilePath(IntToString(zoom) + ("/" + (IntToString(x) + ("/" + (IntToString(y) + ".png")))))
            == Some((zoom, x, y))
  {
    var ys := IntToString(y) + ".png";
    var xs := IntToString(x) + ("/" + ys);
    IntToStringHasNoSlash(zoom);
    IntToStringHasNoSlash(x);
    SplitFirstAt(IntToString(zoom), '/', xs);
    SplitFirstAt(IntToString(x), '/', ys);
    IntToStringRoundTrip(zoom);
    IntToStringRoundTrip(x);
    PngRoundTrip(y);
  }

  lemma TileHeadSplit(subdomain: string, path: string)
    requires |subdomain| == 1
    ensures var url := "https://" + (subdomain + (TILE_HOST + path));
      && |url| >= TILE_HEAD && url[..8] == "https://" && url[9..TILE_HEAD] == TILE_HOST
      && url[TILE_HEAD..] == path
  {
  }

  /** An address of any one-letter server reads back as the tile it was made for. */
  lemma TileAddressRoundTrip(subdomain: string, zoom: int, x: int, y: int)
    requires |subdomain| == 1
    ensures ParseTileUrl(TileAddress(subdomain, zoom, x, y)) == Some((zoom, x, y))
  {
    var path := IntToString(zoom) + ("/" + (IntToString(x) + ("/" + (IntToString(y) + ".png"))));
    TileHeadSplit(subdomain, path);
    TilePathRoundTrip(zoom, x, y);
  }

  /** The corrected address names its tile, so no two tiles share an address. */
  lemma TileUrlRoundTrip(zoom: int, x: int, y: int)
    ensures ParseTileUrl(TileUrl(zoom, x, y)) == Some((zoom, x, y))
  {
    TileAddressRoundTrip(Subdomain(x, y), zoom, x, y);
  }

  lemma TileUrlInjective(z1: int, x1: int, y1: int, z2: int, x2: int, y2: int)
    requires TileUrl(z1, x1, y1) == TileUrl(z2, x2, y2)
    ensures z1 == z2 && x1 == x2 && y1 == y2
  {
    TileUrlRoundTrip(z1, x1, y1);
    TileUrlRoundTrip(z2, x2, y2);
  }

  // ---------------------------------------------------------------------------
  // Zoom levels

  predicate InZoomRange(zoom: int) {
    MIN_ZOOM <= zoom <= MAX_ZOOM
  }

  /** The zoom-in button: the next closer level, or nothing when already at the closest. */
  function ZoomIn(zoom: int): Option<int> {
    if zoom < MAX_ZOOM then Some(zoom + 1) else None
  }

  /** The zoom-out button: the next wider level, or nothing when already at the widest. */
  function ZoomOut(zoom: int): Option<int> {
    if zoom > MIN_ZOOM then Some(zoom - 1) else None
  }

  /**
   * The buttons never ask for a level beyond the range, from any level; from a level in the
   * range they stay in it, and each is enabled exactly when it can move within the range.
   */
  lemma ZoomButtonsStayInRange(zoom: int)
    ensures ZoomIn(zoom).Some? ==> ZoomIn(zoom).value <= MAX_ZOOM && ZoomIn(zoom).value > zoom
    ensures ZoomOut(zoom).Some? ==> ZoomOut(zoom).value >= MIN_ZOOM && ZoomOut(zoom).value < zoom
    ensures InZoomRange(zoom) ==>
      && (ZoomIn(zoom).Some? ==> InZoomRange(ZoomIn(zoom).value))
      && (ZoomOut(zoom).Some? ==> InZoomRange(ZoomOut(zoom).value))
      && (ZoomIn(zoom).None? <==> zoom == MAX_ZOOM)
      && (ZoomOut(zoom).None? <==> zoom == MIN_ZOOM)
  {
  }

  /** Zooming in and then out again comes back to the same level. */
  lemma ZoomInThenOut(zoom: int)
    requires MIN_ZOOM <= zoom < MAX_ZOOM
    ensures ZoomIn(zoom).Some? && ZoomOut(ZoomIn(zoom).value) == Some(zoom)
  {
  }

  /** The distance between two integers. */
  function Dist(a: int, b: int): nat {
    if a >= b then a - b else b - a
  }

  /** `v.coerceIn(lo, hi)`: the point of `[lo, hi]` closest to `v`. Kotlin throws when `lo > hi`. */
  function CoerceIn(v: int, lo: int, hi: int): (r: int)
    requires lo <= hi
    ensures lo <= r <= hi
    ensures forall w :: lo <= w <= hi ==> Dist(r, v) <= Dist(w, v)
  {
    if v < lo then lo else if v > hi then hi else v
  }

  /** The compact preview shows one level wider than the stored zoom, kept within the range. */
  function CompactZoom(zoom: int): int {
    CoerceIn(zoom - 1, MIN_ZOOM, MAX_ZOOM)
  }

  lemma CompactZoomFacts(zoom: int)
    ensures InZoomRange(CompactZoom(zoom))
    ensures MIN_ZOOM < zoom <= MAX_ZOOM + 1 ==> CompactZoom(zoom) == zoom - 1
    ensures zoom <= MIN_ZOOM ==> CompactZoom(zoom) == MIN_ZOOM
    ensures zoom > MAX_ZOOM ==> CompactZoom(zoom) == MAX_ZOOM
  {
    var r := CompactZoom(zoom);
    if zoom <= MIN_ZOOM {
      assert Dist(r, zoom - 1) <= Dist(MIN_ZOOM, zoom - 1);
    } else if zoom > MAX_ZOOM {
      assert Dist(r, zoom - 1) <= Dist(MAX_ZOOM, zoom - 1);
    } else {
      assert Dist(r, zoom - 1) <= Dist(zoom - 1, zoom - 1);
    }
  }

  // ---------------------------------------------------------------------------
  // The maps-app label

  const DEFAULT_LABEL: string := "Location"

  /** `placeholder.ifEmpty { "Location" }`: the place's name, or a generic one. */
  function MapsLabel(location: MemoLocation): (text: string)
    ensures text != ""
    ensures location.placeholder != "" <==> text == location.placeholder
    ensures location.placeholder == "" ==> text == DEFAULT_LABEL
  {
    if location.placeholder == "" then DEFAULT_LABEL else location.placeholder
  }
}
