/**
 * File names of downloaded images, shared by all four crawlers: the
 * extension chosen from the URL path and then the content type, the rule that
 * appends it to a bare file name, and the outcome of one download.
 */
module ImageFiles {
  import opened Text
  import opened Wrappers

  /** the suffixes that count as an image file name, in the order they are tried */
  const KnownExtensions: seq<string> := [".jpg", ".jpeg", ".png", ".gif", ".webp"]

  /** `s.endswith(('.jpg', '.jpeg', '.png', '.gif', '.webp'))` */
  predicate HasKnownExtension(s: string) {
    exists e :: e in KnownExtensions && EndsWith(s, e)
  }

  /** the content-type tests, in order: a media-type fragment and the extension it selects */
  const ContentTypeRules: seq<(string, string)> := [("jpeg", ".jpg"), ("png", ".png"), ("gif", ".gif"), ("webp", ".webp")]

  /** the extension used when no content-type test matches */
  const DefaultExtension := ".jpg"

  /**
   * The content-type branch of `get_image_extension`: the first rule whose
   * fragment occurs in the content type decides, `.jpg` otherwise.
   */
  function ContentTypeExtension(contentType: string): (r: string)
    ensures r in KnownExtensions
  {
    if Contains(contentType, "jpeg") then ".jpg"
    else if Contains(contentType, "png") then ".png"
    else if Contains(contentType, "gif") then ".gif"
    else if Contains(contentType, "webp") then ".webp"
    else ".jpg"
  }

  /** the content-type branch is a first match over the rule table, with `.jpg` as default */
  lemma ContentTypeFirstMatch(contentType: string)
    ensures forall i :: (0 <= i < |ContentTypeRules| && Contains(contentType, ContentTypeRules[i].0) &&
      (forall k :: 0 <= k < i ==> !Contains(contentType, ContentTypeRules[k].0))) ==>
        ContentTypeExtension(contentType) == ContentTypeRules[i].1
    ensures (forall i :: 0 <= i < |ContentTypeRules| ==> !Contains(contentType, ContentTypeRules[i].0)) ==>
      ContentTypeExtension(contentType) == DefaultExtension
  {
    var rules := ContentTypeRules;
    assert rules[0] == ("jpeg", ".jpg") && rules[1] == ("png", ".png");
    assert rules[2] == ("gif", ".gif") && rules[3] == ("webp", ".webp");
  }

  /** the known extension a name ends with */
  function EndingExtension(s: string): (r: string)
    requires HasKnownExtension(s)
    ensures r in KnownExtensions && EndsWith(s, r)
  {
    if EndsWith(s, ".jpg") then ".jpg"
    else if EndsWith(s, ".jpeg") then ".jpeg"
    else if EndsWith(s, ".png") then ".png"
    else if EndsWith(s, ".gif") then ".gif"
    else ".webp"
  }

  /**
   * `os.path.splitext(p)[1]` for a `/`-separated path: the text from the
   * last `.` of the last path component, unless that component holds
   * nothing but dots before it, in which case there is no extension.
   */
  function SplitExtSuffix(p: string): string {
    var sep := LastIndex(p, '/');
    var dot := LastIndex(p, '.');
    if dot > sep && exists k :: sep < k < dot && p[k] != '.' then p[dot..] else ""
  }

  /** `get_image_extension(url, content_type)` as written: the URL path is folded, the content type is not */
  function ImageExtensionAsWritten(urlPath: string, contentType: string): (r: string)
    ensures r == "" || r in KnownExtensions
    ensures !HasKnownExtension(Lower(urlPath)) ==> r == ContentTypeExtension(contentType)
  {
    var path := Lower(urlPath);
    if HasKnownExtension(path) then
      var r := SplitExtSuffix(path);
      SplitExtOfKnown(path);
      r
    else ContentTypeExtension(contentType)
  }

  /**
   * The extension chosen for a downloaded image: the known extension the
   * folded URL path ends with, otherwise the content-type rule applied to the
   * folded content type. Always one of the known extensions.
   */
  function ImageExtension(urlPath: string, contentType: string): (r: string)
    ensures r in KnownExtensions
    ensures HasKnownExtension(Lower(urlPath)) ==> EndsWith(Lower(urlPath), r)
    ensures !HasKnownExtension(Lower(urlPath)) ==> r == ContentTypeExtension(Lower(contentType))
  {
    var path := Lower(urlPath);
    if HasKnownExtension(path) then EndingExtension(path) else ContentTypeExtension(Lower(contentType))
  }

  /** an extension starts with its only dot and holds no `/` */
  predicate ExtensionShaped(e: string) {
    |e| >= 1 && e[0] == '.' && forall i :: 0 <= i < |e| ==> e[i] != '/' && (i > 0 ==> e[i] != '.')
  }

  lemma KnownExtensionShape(e: string)
    requires e in KnownExtensions
    ensures ExtensionShaped(e)
  {
  }

  /** `splitext` of a path with a known extension yields that extension or nothing */
  lemma SplitExtOfKnown(p: string)
    requires HasKnownExtension(p)
    ensures SplitExtSuffix(p) == "" || SplitExtSuffix(p) == EndingExtension(p)
  {
    var e := EndingExtension(p);
    KnownExtensionShape(e);
    DotOfExtension(p, e);
  }

  /** the last dot of a path ending in a known extension is the extension's dot */
  lemma DotOfExtension(p: string, e: string)
    requires ExtensionShaped(e) && EndsWith(p, e)
    ensures LastIndex(p, '.') == |p| - |e|
    ensures LastIndex(p, '/') < |p| - |e|
  {
    var d := |p| - |e|;
    forall j | d <= j < |p| ensures p[j] == e[j - d] {
      assert p[d..][j - d] == p[j];
    }
    assert p[d] == '.';
    assert forall j :: d < j < |p| ==> p[j] != '.';
    assert forall j :: d <= j < |p| ==> p[j] != '/';
    var k := LastIndex(p, '.');
    assert k >= d;
    var s := LastIndex(p, '/');
    assert s < 0 || p[s] == '/';
  }

  /**
   * Where the path names a file with some text before a known extension,
   * and the content type is already in lower case, the program's choice and
   * the corrected one agree.
   */
  lemma ImageExtensionAgrees(urlPath: string, contentType: string)
    requires Folded(contentType)
    requires var p := Lower(urlPath);
      HasKnownExtension(p) ==>
        var e := EndingExtension(p);
        |p| > |e| && p[|p| - |e| - 1] != '.' && p[|p| - |e| - 1] != '/'
    ensures ImageExtensionAsWritten(urlPath, contentType) == ImageExtension(urlPath, contentType)
  {
    var p := Lower(urlPath);
    FoldedLower(contentType);
    if HasKnownExtension(p) {
      var e := EndingExtension(p);
      KnownExtensionShape(e);
      SplitExtOfNamed(p, e);
    }
  }

  /** `splitext` finds an extension that follows some character other than `.` and `/` */
  lemma SplitExtOfNamed(p: string, e: string)
    requires ExtensionShaped(e) && EndsWith(p, e)
    requires |p| > |e| && p[|p| - |e| - 1] != '.' && p[|p| - |e| - 1] != '/'
    ensures SplitExtSuffix(p) == e
  {
    DotOfExtension(p, e);
    var k := |p| - |e| - 1;
    assert LastIndex(p, '/') < k;
    assert p[k] != '.';
  }

  /** a bare `/.png` path: `splitext` sees a hidden file and the name is left without extension */
  lemma HiddenNameLosesExtension()
    ensures HasKnownExtension(Lower("/.png"))
    ensures ImageExtensionAsWritten("/.png", "image/png") == ""
    ensures ImageExtension("/.png", "image/png") == ".png"
  {
    HiddenPath();
  }

  /** the path `/.png` is already folded, ends in `.png` and has no `splitext` extension */
  lemma HiddenPath()
    ensures Lower("/.png") == "/.png" && HasKnownExtension("/.png")
    ensures SplitExtSuffix("/.png") == "" && EndingExtension("/.png") == ".png"
  {
    assert Lower("/.png") == "/.png";
    assert EndsWith("/.png", ".png");
    assert !EndsWith("/.png", ".jpg") && !EndsWith("/.png", ".jpeg");
    HiddenSplitExt();
  }

  /** in `/.png` the last `/` comes right before the last `.`, so nothing names the file */
  lemma HiddenSplitExt()
    ensures SplitExtSuffix("/.png") == ""
  {
    var p := "/.png";
    assert p[0] == '/';
    KnownExtensionShape(".png");
    DotOfExtension(p, ".png");
    assert LastIndex(p, '/') == 0;
  }

  /** an upper-case content type: it passes the image test, yet the PNG rule is missed */
  lemma UpperCaseContentTypeMissed()
    ensures Contains(Lower("IMAGE/PNG"), "image")
    ensures ImageExtensionAsWritten("/photo", "IMAGE/PNG") == ".jpg"
    ensures ImageExtension("/photo", "IMAGE/PNG") == ".png"
  {
    assert Lower("IMAGE/PNG") == "image/png";
    assert OccursAt("image/png", "image", 0);
    assert OccursAt("image/png", "png", 6);
    assert Lower("/photo") == "/photo";
    NoKnownExtension("/photo");
    NoFragment("IMAGE/PNG");
    NoFragment("image/png");
  }

  lemma NoKnownExtension(s: string)
    requires |s| == 6 && s[5] == 'o'
    ensures !HasKnownExtension(s)
  {
    forall e | e in KnownExtensions ensures !EndsWith(s, e) {
      assert e[|e| - 1] != 'o';
      if |e| <= |s| {
        assert s[|s| - |e|..][|e| - 1] == s[5];
      }
    }
  }

  /** neither spelling of the example content type contains `jpeg`, and the upper-case one no other fragment */
  lemma NoFragment(ct: string)
    requires ct == "IMAGE/PNG" || ct == "image/png"
    ensures !Contains(ct, "jpeg")
    ensures ct == "IMAGE/PNG" ==> !Contains(ct, "png") && !Contains(ct, "gif") && !Contains(ct, "webp")
  {
    forall i ensures !OccursAt(ct, "jpeg", i) {
      if 0 <= i && i + 4 <= |ct| {
        assert ct[i..i + 4][0] == ct[i];
        assert ct[i..i + 4][1] == ct[i + 1];
      }
    }
    if ct == "IMAGE/PNG" {
      LowerFreeExcludes(ct, "png");
      LowerFreeExcludes(ct, "gif");
      LowerFreeExcludes(ct, "webp");
    }
  }

  /** a text without lower-case letters contains no string that starts with one */
  lemma LowerFreeExcludes(s: string, t: string)
    requires |t| > 0 && 'a' <= t[0] <= 'z'
    requires forall i :: 0 <= i < |s| ==> !('a' <= s[i] <= 'z')
    ensures !Contains(s, t)
  {
    forall i ensures !OccursAt(s, t, i) {
      if 0 <= i && i + |t| <= |s| {
        assert s[i..i + |t|][0] == s[i];
      }
    }
  }

  /** every known extension is written in lower case */
  lemma KnownExtensionsFolded(e: string)
    requires e in KnownExtensions
    ensures Lower(e) == e
  {
    assert Folded(e);
    FoldedLower(e);
  }

  /**
   * The file name `download_image` saves under: the requested name when it
   * already ends (in any case) with a known extension, otherwise the name
   * followed by the chosen extension.
   */
  function NameWithExtension(filename: string, urlPath: string, contentType: string): (r: string)
    ensures HasKnownExtension(Lower(r))
    ensures StartsWith(r, filename)
    ensures HasKnownExtension(Lower(filename)) <==> r == filename
    ensures !HasKnownExtension(Lower(filename)) ==> r == filename + ImageExtension(urlPath, contentType)
  {
    if HasKnownExtension(Lower(filename)) then filename
    else
      var e := ImageExtension(urlPath, contentType);
      LowerConcat(filename, e);
      KnownExtensionsFolded(e);
      assert EndsWith(Lower(filename + e), e);
      assert (filename + e)[..|filename|] == filename;
      filename + e
  }

  /** naming is idempotent: a saved name is never extended again */
  lemma NameWithExtensionIdempotent(filename: string, urlPath: string, contentType: string, urlPath': string, contentType': string)
    ensures var once := NameWithExtension(filename, urlPath, contentType);
      NameWithExtension(once, urlPath', contentType') == once
  {
  }

  /** what the server answers: nothing usable, or a content type and whether the file ended up on disk */
  datatype Response = Failed | Reply(contentType: string, stored: bool)

  /**
   * `download_image(url, filename, save_dir)`: `Some(name)` when it returns
   * True, with the name the file is saved under, `None` when it returns False.
   */
  function Download(filename: string, urlPath: string, response: Response): (saved: Option<string>)
    ensures saved.Some? <==> response.Reply? && Contains(Lower(response.contentType), "image") && response.stored
    ensures saved.Some? ==> HasKnownExtension(Lower(saved.value)) && StartsWith(saved.value, filename)
    ensures saved.Some? ==> saved.value == NameWithExtension(filename, urlPath, response.contentType)
  {
    match response
    case Failed => None
    case Reply(contentType, stored) =>
      if !Contains(Lower(contentType), "image") then None
      else if !stored then None
      else Some(NameWithExtension(filename, urlPath, contentType))
  }
}
