/** The image URL helpers of `DotaHeroModel` in src/models/DotaHero.ts:
    the hero's image on the CDN, the portrait render obtained by rewriting
    the first images directory of that path into the renders directory,
    and the portrait video obtained by rewriting the first `.png`. */
module HeroUrls {
  import opened Wrappers
  import opened JsString
  import opened DotaHero

  const Dota2Dir: string := "/apps/dota2/"
  const HeroesDir: string := "dota_react/heroes/"
  /** The directory the API's `img` paths point into,
      `/apps/dota2/images/dota_react/heroes/`. */
  const ImagesPath: string := Dota2Dir + "images/" + HeroesDir
  /** The directory holding the portrait renders,
      `/apps/dota2/videos/dota_react/heroes/renders/`. */
  const RendersPath: string := Dota2Dir + "videos/" + HeroesDir + "renders/"

  /** `imageUrl`: the CDN base followed by the image path, or the bare
      base when the hero has none. */
  function ImageUrl(h: Hero): (url: string)
    ensures |url| == |ImageBaseUrl| + |h.img.GetOr("")|
    ensures url[..|ImageBaseUrl|] == ImageBaseUrl && url[|ImageBaseUrl|..] == h.img.GetOr("")
  {
    ImageBaseUrl + h.img.GetOr("")
  }

  /** `potraitImageUrl`: the image path with its first images directory
      replaced by the renders directory, after the CDN base. */
  function PotraitImageUrl(h: Hero): (url: string)
    ensures h.img.None? ==> url == ImageBaseUrl
    ensures h.img.Some? && !Includes(h.img.value, ImagesPath) ==> url == ImageUrl(h)
    ensures h.img.Some? ==> url == ImageBaseUrl + ReplaceFirst(h.img.value, ImagesPath, RendersPath)
  {
    var path := if h.img.Some? then Some(ReplaceFirst(h.img.value, ImagesPath, RendersPath)) else None;
    ImageBaseUrl + path.GetOr("")
  }

  /** `potraitVideoUrl`: the portrait URL with its first `.png` replaced
      by `.webm`. */
  function PotraitVideoUrl(h: Hero): (url: string)
    ensures !Includes(PotraitImageUrl(h), ".png") ==> url == PotraitImageUrl(h)
  {
    ReplaceFirst(PotraitImageUrl(h), ".png", ".webm")
  }

  /** Two heroes share an image URL exactly when they share an image path
      (an absent path reading as the empty one). */
  lemma ImageUrlInjective(h: Hero, g: Hero)
    ensures ImageUrl(h) == ImageUrl(g) <==> h.img.GetOr("") == g.img.GetOr("")
  {
    if ImageUrl(h) == ImageUrl(g) {
      calc {
        h.img.GetOr("");
        ImageUrl(h)[|ImageBaseUrl|..];
        ImageUrl(g)[|ImageBaseUrl|..];
        g.img.GetOr("");
      }
    }
  }

  /** The portrait URL differs from the image URL exactly when the image
      path contains the images directory: the renders directory is longer,
      so a replacement always shows. */
  lemma PotraitDiffersFromImage(h: Hero)
    ensures PotraitImageUrl(h) != ImageUrl(h) <==> h.img.Some? && Includes(h.img.value, ImagesPath)
  {
    if h.img.Some? && Includes(h.img.value, ImagesPath) {
      var s := h.img.value;
      var i := IndexOf(s, ImagesPath).value;
      ReplaceAt(s, ImagesPath, RendersPath, i);
      assert |ReplaceFirst(s, ImagesPath, RendersPath)| == |s| + |RendersPath| - |ImagesPath|;
      assert |PotraitImageUrl(h)| != |ImageUrl(h)|;
    }
  }

  /** The path shape the hero API returns, the images directory followed
      by a file name: the portrait is the file of the same name in the
      renders directory. */
  lemma PotraitOfApiImage(h: Hero, file: string)
    requires h.img == Some(ImagesPath + file)
    ensures PotraitImageUrl(h) == ImageBaseUrl + RendersPath + file
  {
    ReplaceFirstAtStart(ImagesPath, file, RendersPath);
  }

  /** The renders directory holds no `.`. */
  lemma RendersPathHasNoDot()
    ensures forall j | 0 <= j < |RendersPath| :: RendersPath[j] != '.'
  {
    var a, b, c, d := Dota2Dir, "videos/", HeroesDir, "renders/";
    assert forall j | 0 <= j < |a| :: a[j] != '.';
    assert forall j | 0 <= j < |b| :: b[j] != '.';
    assert forall j | 0 <= j < |c| :: c[j] != '.';
    assert forall j | 0 <= j < |d| :: d[j] != '.';
  }

  /** No `.` of the CDN base is followed by a `p`, nor ends it. */
  lemma BaseUrlDots()
    ensures forall j | 0 <= j < |ImageBaseUrl| - 1 :: ImageBaseUrl[j] == '.' ==> ImageBaseUrl[j + 1] != 'p'
    ensures ImageBaseUrl[|ImageBaseUrl| - 1] != '.'
  {
  }

  /** The `.` of `.png` does not recur in it. */
  lemma PngFirstCharUnique()
    ensures forall m :: 0 < m < |".png"| ==> ".png"[m] != ".png"[0]
  {
  }

  /** No `.png` begins inside the CDN base or the renders directory. */
  lemma NoPngInRenderPrefix(rest: string)
    ensures forall j :: 0 <= j < |ImageBaseUrl + RendersPath| ==>
      !OccursAt(ImageBaseUrl + RendersPath + rest, ".png", j)
  {
    var b, r := ImageBaseUrl, RendersPath;
    var u := b + r + rest;
    RendersPathHasNoDot();
    BaseUrlDots();
    forall j | 0 <= j < |b + r| ensures !OccursAt(u, ".png", j) {
      if j + 4 <= |u| {
        var w := u[j..j + 4];
        assert w[0] == u[j] && w[1] == u[j + 1];
        if j < |b| - 1 {
          assert u[j] == b[j] && u[j + 1] == b[j + 1];
        } else if j == |b| - 1 {
          assert u[j] == b[j];
        } else {
          assert u[j] == r[j - |b|];
        }
        assert w != ".png";
      }
    }
  }

  /** For an API image `<stem>.png<query>` whose stem holds no `.png`, the
      portrait video is the renders directory's `<stem>.webm<query>`. */
  lemma PotraitVideoOfApiImage(h: Hero, stem: string, query: string)
    requires h.img == Some(ImagesPath + stem + ".png" + query)
    requires !Includes(stem, ".png")
    ensures PotraitVideoUrl(h) == ImageBaseUrl + RendersPath + stem + ".webm" + query
  {
    var p := ImageBaseUrl + RendersPath;
    var file := stem + ".png" + query;
    ConcatAssoc(ImagesPath, stem, ".png", query);
    PotraitOfApiImage(h, file);
    NoPngInRenderPrefix(file);
    PngFirstCharUnique();
    calc {
      PotraitVideoUrl(h);
      ReplaceFirst(p + file, ".png", ".webm");
      { ReplaceFirstAfterPrefix(p, file, ".png", ".webm"); }
      p + ReplaceFirst(file, ".png", ".webm");
      { ReplaceFirstAfterFree(stem, ".png", query, ".webm"); }
      p + (stem + ".webm" + query);
      { ConcatAssoc(p, stem, ".webm", query); }
      p + stem + ".webm" + query;
    }
  }
}
