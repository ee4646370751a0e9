/**
 * The upload rules of middleware/upload.js: which directory an uploaded image goes to,
 * the name it is stored under, which files the image and datasheet filters accept, and
 * the size and count limits. The clock and the random number are parameters; creating
 * the directories is left out.
 */
module Upload {
  import opened Strings

  /** The directories created at startup (middleware/upload.js:11-21). */
  datatype Destination = UploadsRoot | ProductImages | BrandLogos | CategoryImages | SliderImages

  function Directory(d: Destination): string
  {
    match d
    case UploadsRoot => "public/uploads"
    case ProductImages => "public/uploads/products"
    case BrandLogos => "public/uploads/brands"
    case CategoryImages => "public/uploads/categories"
    case SliderImages => "public/uploads/slider"
  }

  /** The URL prefix under which a file stored in `d` is served. */
  function PublicPrefix(d: Destination): string
  {
    match d
    case UploadsRoot => "/uploads/"
    case ProductImages => "/uploads/products/"
    case BrandLogos => "/uploads/brands/"
    case CategoryImages => "/uploads/categories/"
    case SliderImages => "/uploads/slider/"
  }

  const CreatedDirectories: seq<string> := [
    "public/uploads", "public/uploads/products", "public/uploads/brands",
    "public/uploads/categories", "public/uploads/slider"]

  /** `req.baseUrl.includes(k) || req.originalUrl.includes(k)`. */
  predicate Mentions(baseUrl: string, originalUrl: string, keyword: string)
  {
    Contains(baseUrl, keyword) || Contains(originalUrl, keyword)
  }

  /** `storage.destination`: the first keyword mentioned picks the directory (middleware/upload.js:25-39). */
  function DestinationFor(baseUrl: string, originalUrl: string): Destination
  {
    if Mentions(baseUrl, originalUrl, "urun") then ProductImages
    else if Mentions(baseUrl, originalUrl, "marka") then BrandLogos
    else if Mentions(baseUrl, originalUrl, "kategori") then CategoryImages
    else if Mentions(baseUrl, originalUrl, "slider") then SliderImages
    else UploadsRoot
  }

  /**
   * The destination is always one of the directories made at startup; it is the root
   * exactly when no keyword is mentioned; and a keyword wins over every later one, so a
   * URL mentioning both `urun` and `kategori` goes to the product images.
   */
  lemma DestinationRules(baseUrl: string, originalUrl: string)
    ensures Directory(DestinationFor(baseUrl, originalUrl)) in CreatedDirectories
    ensures DestinationFor(baseUrl, originalUrl) == UploadsRoot <==>
      !Mentions(baseUrl, originalUrl, "urun") && !Mentions(baseUrl, originalUrl, "marka")
      && !Mentions(baseUrl, originalUrl, "kategori") && !Mentions(baseUrl, originalUrl, "slider")
    ensures Mentions(baseUrl, originalUrl, "urun") ==> DestinationFor(baseUrl, originalUrl) == ProductImages
    ensures DestinationFor(baseUrl, originalUrl) == SliderImages ==>
      Mentions(baseUrl, originalUrl, "slider") && !Mentions(baseUrl, originalUrl, "urun")
      && !Mentions(baseUrl, originalUrl, "marka") && !Mentions(baseUrl, originalUrl, "kategori")
  {
  }

  /**
   * The admin upload routes store each file in the directory whose public prefix the
   * handler then records (routes/admin.js:212,325,397,436,601); the router is mounted at
   * `/admin`.
   */
  lemma AdminUploadsLandWhereTheyAreLinked(id: string)
    ensures PublicPrefix(DestinationFor("/admin", "/admin/urunler/ekle")) == "/uploads/products/"
    ensures PublicPrefix(DestinationFor("/admin", "/admin/urunler/duzenle/" + id)) == "/uploads/products/"
    ensures PublicPrefix(DestinationFor("/admin", "/admin/kategoriler/ekle")) == "/uploads/categories/"
    ensures PublicPrefix(DestinationFor("/admin", "/admin/markalar/ekle")) == "/uploads/brands/"
    ensures PublicPrefix(DestinationFor("/admin", "/admin/slider/ekle")) == "/uploads/slider/"
  {
    ProductRoutes(id);
    CategoryRoute();
    BrandRoute();
    SliderRoute();
  }

  lemma ProductRoutes(id: string)
    ensures DestinationFor("/admin", "/admin/urunler/ekle") == ProductImages
    ensures DestinationFor("/admin", "/admin/urunler/duzenle/" + id) == ProductImages
  {
    ContainsInfix("/admin/", "urun", "ler/ekle");
    assert "/admin/" + "urun" + "ler/ekle" == "/admin/urunler/ekle";
    ContainsInfix("/admin/", "urun", "ler/duzenle/" + id);
    assert "/admin/" + "urun" + ("ler/duzenle/" + id) == "/admin/urunler/duzenle/" + id;
  }

  /** `/admin` mentions none of the keywords. */
  lemma AdminPrefixNeutral()
    ensures !Contains("/admin", "urun") && !Contains("/admin", "marka")
    ensures !Contains("/admin", "kategori") && !Contains("/admin", "slider")
  {
    MissingCharNotContained("/admin", "urun", 'u');
    MissingCharNotContained("/admin", "marka", 'r');
    MissingCharNotContained("/admin", "kategori", 'k');
    MissingCharNotContained("/admin", "slider", 's');
  }

  // The facts about the route URLs, one per lemma: each is a small proof by a missing
  // letter, a split around the only possible start, or an explicit occurrence.

  /** An admin URL whose section has no 'u' does not contain "urun". */
  lemma AdminUrlLacksUrun(section: string)
    requires 'u' !in section
    ensures !Contains("/admin/" + section, "urun")
  {
    assert 'u' !in "/admin/";
    MissingCharNotContained("/admin/" + section, "urun", 'u');
  }

  lemma CategoryUrlLacksUrun() ensures !Contains("/admin/kategoriler/ekle", "urun")
  {
    AdminUrlLacksUrun("kategoriler/ekle");
    assert "/admin/" + "kategoriler/ekle" == "/admin/kategoriler/ekle";
  }

  /**
   * "marka" cannot start inside "/admin/", so an admin URL whose section starts with neither
   * 'r' nor 'm' and has no 'm' after that lacks it.
   */
  lemma AdminUrlLacksMarka(c: char, rest: string)
    requires c != 'r' && 'm' !in [c] + rest
    ensures !Contains("/admin/" + [c] + rest, "marka")
  {
    ContainsSplit("/adm", "in/" + [c], rest, "marka");
    assert "/adm" + ("in/" + [c]) + rest == "/admin/" + [c] + rest;
    assert "/adm" + ("in/" + [c]) == "/admin/" + [c];
    MissingCharNotContained("/admin/" + [c], "marka", 'r');
    assert ("in/" + [c]) + rest == "in/" + ([c] + rest);
    MissingCharNotContained(("in/" + [c]) + rest, "marka", 'm');
  }

  lemma CategoryUrlLacksMarka() ensures !Contains("/admin/kategoriler/ekle", "marka")
  {
    AdminUrlLacksMarka('k', "ategoriler/ekle");
    assert "/admin/" + ['k'] + "ategoriler/ekle" == "/admin/kategoriler/ekle";
  }

  lemma CategoryUrlHasKategori() ensures Contains("/admin/kategoriler/ekle", "kategori")
  {
    ContainsInfix("/admin/", "kategori", "ler/ekle");
    assert "/admin/" + "kategori" + "ler/ekle" == "/admin/kategoriler/ekle";
  }

  lemma CategoryRoute()
    ensures DestinationFor("/admin", "/admin/kategoriler/ekle") == CategoryImages
  {
    AdminPrefixNeutral();
    CategoryUrlLacksUrun();
    CategoryUrlLacksMarka();
    CategoryUrlHasKategori();
  }

  lemma BrandUrlHasMarka() ensures Contains("/admin/markalar/ekle", "marka")
  {
    ContainsInfix("/admin/", "marka", "lar/ekle");
    assert "/admin/" + "marka" + "lar/ekle" == "/admin/markalar/ekle";
  }

  lemma BrandRoute()
    ensures DestinationFor("/admin", "/admin/markalar/ekle") == BrandLogos
  {
    AdminPrefixNeutral();
    AdminUrlLacksUrun("markalar/ekle");
    assert "/admin/" + "markalar/ekle" == "/admin/markalar/ekle";
    BrandUrlHasMarka();
  }

  lemma SliderUrlLacksMarka() ensures !Contains("/admin/slider/ekle", "marka")
  {
    AdminUrlLacksMarka('s', "lider/ekle");
    assert "/admin/" + ['s'] + "lider/ekle" == "/admin/slider/ekle";
  }

  /** The slider URL has no 't', so it does not contain "kategori". */
  lemma SliderUrlLacksKategori() ensures !Contains("/admin/slider/ekle", "kategori")
  {
    MissingCharNotContained("/admin/slider/ekle", "kategori", 't');
  }

  lemma SliderUrlHasSlider() ensures Contains("/admin/slider/ekle", "slider")
  {
    ContainsInfix("/admin/", "slider", "/ekle");
    assert "/admin/" + "slider" + "/ekle" == "/admin/slider/ekle";
  }

  lemma SliderRoute()
    ensures DestinationFor("/admin", "/admin/slider/ekle") == SliderImages
  {
    AdminPrefixNeutral();
    AdminUrlLacksUrun("slider/ekle");
    assert "/admin/" + "slider/ekle" == "/admin/slider/ekle";
    SliderUrlLacksMarka();
    SliderUrlLacksKategori();
    SliderUrlHasSlider();
  }

  // ---------------------------------------------------------------------------
  // File names

  /** The last index of `c` in `s`, or -1. */
  function LastIndexOf(s: string, c: char): (i: int)
    ensures -1 <= i < |s|
    ensures i >= 0 ==> s[i] == c && forall j :: i < j < |s| ==> s[j] != c
    ensures i == -1 ==> forall j :: 0 <= j < |s| ==> s[j] != c
  {
    if s == [] then -1
    else if s[|s| - 1] == c then |s| - 1
    else LastIndexOf(s[..|s| - 1], c)
  }

  /**
   * `path.extname` of a file name without directories: from the last dot to the end,
   * and empty when there is no dot, when the only dot starts the name, or for "..".
   */
  function Extname(name: string): (ext: string)
    ensures ext == [] || (ext[0] == '.' && exists i :: OccursAt(name, ext, i) && i + |ext| == |name|)
    ensures ext != [] ==> forall j :: 1 <= j < |ext| ==> ext[j] != '.'
    ensures ext != [] <==> LastIndexOf(name, '.') > 0 && name != ".."
    ensures ext != [] ==> ext == name[LastIndexOf(name, '.')..]
  {
    var d := LastIndexOf(name, '.');
    if d <= 0 || name == ".." then []
    else
      assert OccursAt(name, name[d..], d);
      name[d..]
  }

  /**
   * The stored image name: `Date.now() + '-' + Math.round(Math.random() * 1E9)` and the
   * original extension (middleware/upload.js:40-44).
   */
  function StoredFilename(now: nat, random: real, originalName: string): (name: string)
    requires 0.0 <= random < 1.0
    ensures exists i :: OccursAt(name, Extname(originalName), i) && i + |Extname(originalName)| == |name|
    ensures |name| >= |Extname(originalName)|
    ensures name[..|name| - |Extname(originalName)|]
         == NatToString(now) + "-" + NatToString(RoundHalfUp(random * 1000000000.0))
  {
    var suffix := NatToString(now) + "-" + NatToString(RoundHalfUp(random * 1000000000.0));
    assert OccursAt(suffix + Extname(originalName), Extname(originalName), |suffix|);
    suffix + Extname(originalName)
  }

  /** The stored datasheet name always ends in `.pdf` (middleware/upload.js:78-81). */
  function StoredPdfFilename(now: nat, random: real): (name: string)
    requires 0.0 <= random < 1.0
    ensures |name| >= 4 && name[|name| - 4..] == ".pdf"
  {
    NatToString(now) + "-" + NatToString(RoundHalfUp(random * 1000000000.0)) + ".pdf"
  }

  /** `Math.round` of a non-negative number. */
  function RoundHalfUp(x: real): (n: nat)
    requires x >= 0.0
    ensures n as real - 0.5 <= x < n as real + 0.5
  {
    (x + 0.5).Floor
  }

  // ---------------------------------------------------------------------------
  // Filters and limits

  /** The alternatives of `/jpeg|jpg|png|gif|webp|svg/`, which `test` finds anywhere in a string. */
  const ImagePatterns: seq<string> := ["jpeg", "jpg", "png", "gif", "webp", "svg"]

  /** `fileFilter`: the lowercased extension and the mimetype as sent must both match (middleware/upload.js:48-58). */
  predicate ImageAccepted(originalName: string, mimetype: string)
  {
    ContainsAny(Lower(Extname(originalName)), ImagePatterns) && ContainsAny(mimetype, ImagePatterns)
  }

  /** `pdfFilter` (middleware/upload.js:60-66). */
  predicate PdfAccepted(mimetype: string)
  {
    mimetype == "application/pdf"
  }

  /** No pattern occurs in a string that lacks one letter of each. */
  lemma NoPatternIn(s: string)
    requires 'j' !in s && 'p' !in s && 'f' !in s && 'w' !in s && 'v' !in s
    ensures !ContainsAny(s, ImagePatterns)
  {
    MissingCharNotContained(s, "jpeg", 'j');
    MissingCharNotContained(s, "jpg", 'j');
    MissingCharNotContained(s, "png", 'p');
    MissingCharNotContained(s, "gif", 'f');
    MissingCharNotContained(s, "webp", 'w');
    MissingCharNotContained(s, "svg", 'v');
  }

  /** The extension is lowercased before the test: `photo.PNG` sent as `image/png` passes. */
  lemma UpperCaseExtensionAccepted()
    ensures ImageAccepted("photo.PNG", "image/png")
  {
    PngUpperExtension();
    PngExtensionMatches();
    PngMimetype();
    MatchesPng(".png");
    MatchesPng("image/png");
  }

  /** The mimetype is not lowercased: `photo.png` sent as `image/PNG` is refused. */
  lemma UpperCaseMimetypeRefused()
    ensures !ImageAccepted("photo.png", "image/PNG")
  {
    NoPatternIn("image/PNG");
  }

  /** The test is not anchored: an extension merely containing a pattern, `.pngx`, passes. */
  lemma UnanchoredExtensionAccepted()
    ensures ImageAccepted("photo.pngx", "image/png")
  {
    PngxExtension();
    PngxExtensionMatches();
    PngMimetype();
    MatchesPng(".pngx");
    MatchesPng("image/png");
  }

  /** A string containing "png" matches the pattern. */
  lemma MatchesPng(s: string)
    requires Contains(s, "png")
    ensures ContainsAny(s, ImagePatterns)
  {
    assert ImagePatterns[2] == "png";
  }

  lemma PngUpperExtension() ensures Lower(Extname("photo.PNG")) == ".png"
  {
    var name := "photo.PNG";
    assert name[5] == '.' && name[6] == 'P' && name[7] == 'N' && name[8] == 'G';
    assert LastIndexOf(name, '.') == 5;
    assert name[5..] == ".PNG";
    LowerPng();
  }

  lemma LowerPng() ensures Lower(".PNG") == ".png"
  {
    var r := Lower(".PNG");
    assert r[0] == LowerChar('.') == '.';
    assert r[1] == LowerChar('P') == 'p';
    assert r[2] == LowerChar('N') == 'n';
    assert r[3] == LowerChar('G') == 'g';
    assert r == ".png";
  }

  lemma PngExtensionMatches() ensures Contains(".png", "png")
  {
    ContainsInfix(".", "png", "");
    assert "." + "png" + "" == ".png";
  }

  lemma PngxExtension() ensures Lower(Extname("photo.pngx")) == ".pngx"
  {
    var name := "photo.pngx";
    assert name[5] == '.' && name[6] == 'p' && name[7] == 'n' && name[8] == 'g' && name[9] == 'x';
    assert LastIndexOf(name, '.') == 5;
    assert name[5..] == ".pngx";
    LowerPngx();
  }

  lemma LowerPngx() ensures Lower(".pngx") == ".pngx"
  {
    var r := Lower(".pngx");
    assert r[0] == LowerChar('.') == '.';
    assert r[1] == LowerChar('p') == 'p';
    assert r[2] == LowerChar('n') == 'n';
    assert r[3] == LowerChar('g') == 'g';
    assert r[4] == LowerChar('x') == 'x';
    assert r == ".pngx";
  }

  lemma PngxExtensionMatches() ensures Contains(".pngx", "png")
  {
    ContainsInfix(".", "png", "x");
    assert "." + "png" + "x" == ".pngx";
  }

  lemma PngMimetype() ensures Contains("image/png", "png")
  {
    ContainsInfix("image/", "png", "");
    assert "image/" + "png" + "" == "image/png";
  }

  /** A name without a dot has no extension, so no mimetype rescues it. */
  lemma NoExtensionRefused(name: string, mimetype: string)
    requires '.' !in name
    ensures !ImageAccepted(name, mimetype)
  {
    assert Extname(name) == [];
    NoPatternIn(Lower([]));
  }

  const ImageMaxBytes: nat := 5 * 1024 * 1024
  const ImageMaxFiles: nat := 10
  const PdfMaxBytes: nat := 10 * 1024 * 1024

  datatype UploadedFile = UploadedFile(originalName: string, mimetype: string, size: nat)

  /** A multi-image upload (`array('resimler', 10)`) goes through when every file passes and fits. */
  predicate ImageBatchAccepted(files: seq<UploadedFile>)
  {
    |files| <= ImageMaxFiles
    && forall i :: 0 <= i < |files| ==> files[i].size <= ImageMaxBytes && ImageAccepted(files[i].originalName, files[i].mimetype)
  }

  predicate DatasheetAccepted(f: UploadedFile)
  {
    f.size <= PdfMaxBytes && PdfAccepted(f.mimetype)
  }

  /** The limits in bytes: 5 MiB per image, 10 MiB per datasheet, and at most ten images at once. */
  lemma Limits()
    ensures ImageMaxBytes == 5242880 && PdfMaxBytes == 10485760 && PdfMaxBytes == 2 * ImageMaxBytes
    ensures !ImageBatchAccepted(seq(11, i => UploadedFile("a.png", "image/png", 1)))
  {
  }
}
