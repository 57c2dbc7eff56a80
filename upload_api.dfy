/** UploadController: the checks on an uploaded image and the file extension
    it is stored under, derived from the declared content type. Writing the
    file is left out: the random file name and whether writing succeeds are
    parameters. */
module UploadApi {
  import opened Outcomes
  import opened JavaText
  import opened RouteSecurity

  const ImagePrefix: string := "image/"
  const UrlPrefix: string := "/uploads/"
  /** `ALLOWED_IMAGE_EXT` */
  const AllowedImageExt: set<string> := {"jpg", "jpeg", "png", "gif", "webp", "bmp", "ico"}
  const DefaultExt: string := "jpg"

  const FileMissingMessage: string := "请选择文件"
  const ImagesOnlyMessage: string := "仅支持图片"
  const UnsupportedImageMessage: string := "不支持的图片类型"
  const UploadFailedMessage: string := "上传失败"

  /** What the handler reads of the multipart file: its size and its
      declared content type (null when the client sent none). */
  datatype UploadedFile = UploadedFile(size: nat, contentType: Option<string>)

  /** `s.split(";")[0]`: the text before the first `;`. */
  function BeforeSemicolon(s: string): (r: string)
    ensures |r| <= |s| && r == s[..|r|]
    ensures forall i :: 0 <= i < |r| ==> r[i] != ';'
    ensures |r| < |s| ==> s[|r|] == ';'
  {
    if s == [] || s[0] == ';' then [] else [s[0]] + BeforeSemicolon(s[1..])
  }

  /** The content type without parameters, trimmed and lower-cased. */
  function MainType(contentType: string): string
  {
    ToLowerCase(Trim(BeforeSemicolon(contentType)))
  }

  /** The cut at `;` keeps a prefix free of `;` that ends where `;` starts. */
  lemma {:induction false} BeforeSemicolonOfPrefix(s: string, rest: string)
    requires forall i :: 0 <= i < |s| ==> s[i] != ';'
    requires rest == [] || rest[0] == ';'
    ensures BeforeSemicolon(s + rest) == s
  {
    if s == [] {
      assert s + rest == rest;
    } else {
      assert (s + rest)[0] == s[0];
      assert (s + rest)[1..] == s[1..] + rest;
      BeforeSemicolonOfPrefix(s[1..], rest);
    }
  }

  /** A content type without parameters, padding or capitals is its own main type. */
  lemma MainTypeOfPlain(contentType: string)
    requires |contentType| > 0 && !IsTrimmable(contentType[0]) && !IsTrimmable(contentType[|contentType| - 1])
    requires forall i :: 0 <= i < |contentType| ==> contentType[i] != ';' && !IsAsciiUpper(contentType[i])
    ensures MainType(contentType) == contentType
  {
    BeforeSemicolonOfPrefix(contentType, []);
    assert contentType + [] == contentType;
  }

  /** `ext.matches("[a-z]+")` */
  predicate IsLowerWord(s: string)
  {
    |s| > 0 && forall i :: 0 <= i < |s| ==> IsAsciiLower(s[i])
  }

  /** `jpeg` is stored as `jpg`, and so is any subtype outside the allowed set. */
  function NormalizedExt(subtype: string): (ext: string)
    ensures ext in AllowedImageExt && ext != "jpeg"
    ensures subtype in AllowedImageExt && subtype != "jpeg" ==> ext == subtype
    ensures subtype == "jpeg" || subtype !in AllowedImageExt ==> ext == DefaultExt
  {
    var ext := if subtype == "jpeg" then DefaultExt else subtype;
    if ext in AllowedImageExt then ext else DefaultExt
  }

  /** The subtype of a content type whose main type is `image/...`. */
  function Subtype(contentType: string): (r: Option<string>)
    ensures r.Some? <==> StartsWith(MainType(contentType), ImagePrefix)
  {
    var mainType := MainType(contentType);
    if StartsWith(mainType, ImagePrefix) then Some(mainType[|ImagePrefix|..]) else None
  }

  /** The extension `upload` stores a file under, or the 400 it answers with:
      an empty file; a missing content type, or one that is not `image/...`
      whatever its case; a subtype that is not a lower-case word. */
  function Extension(file: UploadedFile): (r: Result<string>)
    ensures file.size == 0 ==> r == Err(ApiException(BadRequest, FileMissingMessage))
    ensures file.size > 0 && (file.contentType.None? || !StartsWith(ToLowerCase(file.contentType.value), ImagePrefix)) ==>
      r == Err(ApiException(BadRequest, ImagesOnlyMessage))
    ensures r.Ok? ==> r.value in AllowedImageExt && r.value != "jpeg"
    ensures r.Ok? <==>
      && file.size > 0 && file.contentType.Some? && StartsWith(ToLowerCase(file.contentType.value), ImagePrefix)
      && Subtype(file.contentType.value).Some? && IsLowerWord(Subtype(file.contentType.value).value)
    ensures r.Err? ==> r.error.ApiException? && r.error.status == BadRequest
  {
    if file.size == 0 then Err(ApiException(BadRequest, FileMissingMessage))
    else if file.contentType.None? || !StartsWith(ToLowerCase(file.contentType.value), ImagePrefix) then
      Err(ApiException(BadRequest, ImagesOnlyMessage))
    else ExtensionOfSubtype(Subtype(file.contentType.value))
  }

  /** The last two checks of `upload`, on the subtype of a content type that
      passed the first image check. */
  function ExtensionOfSubtype(subtype: Option<string>): (r: Result<string>)
    ensures subtype.None? ==> r == Err(ApiException(BadRequest, ImagesOnlyMessage))
    ensures subtype.Some? && !IsLowerWord(subtype.value) ==> r == Err(ApiException(BadRequest, UnsupportedImageMessage))
    ensures subtype.Some? && IsLowerWord(subtype.value) ==> r == Ok(NormalizedExt(subtype.value))
  {
    match subtype
    case None => Err(ApiException(BadRequest, ImagesOnlyMessage))
    case Some(st) =>
      if !IsLowerWord(st) then Err(ApiException(BadRequest, UnsupportedImageMessage))
      else Ok(NormalizedExt(st))
  }

  /** Whatever follows a content type that passed the first image check
      passes the second: its first six characters survive the cut at `;`,
      trimming and lower-casing. */
  lemma SecondImageCheckPasses(contentType: string)
    requires StartsWith(ToLowerCase(contentType), ImagePrefix)
    ensures StartsWith(MainType(contentType), ImagePrefix)
  {
    var h := BeforeSemicolon(contentType);
    CutKeepsImagePrefix(contentType);
    TrimKeepsImagePrefix(h);
    LowerCaseOfImagePrefix(Trim(h));
  }

  /** The cut at `;` keeps the first six characters of a content type that
      starts with `image/` in any case. */
  lemma CutKeepsImagePrefix(contentType: string)
    requires StartsWith(ToLowerCase(contentType), ImagePrefix)
    ensures |BeforeSemicolon(contentType)| >= |ImagePrefix|
    ensures forall i :: 0 <= i < |ImagePrefix| ==> LowerChar(BeforeSemicolon(contentType)[i]) == ImagePrefix[i]
  {
    var n := |ImagePrefix|;
    assert forall i :: 0 <= i < n ==> ToLowerCase(contentType)[i] == ImagePrefix[i];
    forall i | 0 <= i < n ensures contentType[i] != ';' {
      assert LowerChar(contentType[i]) == ImagePrefix[i];
    }
  }

  /** Trimming keeps the first six characters of a text that starts with
      `image/` in any case. */
  lemma TrimKeepsImagePrefix(h: string)
    requires |h| >= |ImagePrefix|
    requires forall i :: 0 <= i < |ImagePrefix| ==> LowerChar(h[i]) == ImagePrefix[i]
    ensures |Trim(h)| >= |ImagePrefix|
    ensures forall i :: 0 <= i < |ImagePrefix| ==> LowerChar(Trim(h)[i]) == ImagePrefix[i]
  {
    var n := |ImagePrefix|;
    assert LowerChar(h[0]) == 'i' && LowerChar(h[n - 1]) == '/';
    assert h[n - 1] == '/';
    assert TrimStart(h) == h;
    var t := TrimEnd(h);
    assert |t| >= n;
    assert t == Trim(h);
    assert forall i :: 0 <= i < n ==> t[i] == h[i];
  }

  /** A text whose first six characters are `image/` in any case starts with
      `image/` once lower-cased. */
  lemma LowerCaseOfImagePrefix(t: string)
    requires |t| >= |ImagePrefix|
    requires forall i :: 0 <= i < |ImagePrefix| ==> LowerChar(t[i]) == ImagePrefix[i]
    ensures StartsWith(ToLowerCase(t), ImagePrefix)
  {
    var n := |ImagePrefix|;
    assert forall i :: 0 <= i < n ==> ToLowerCase(t)[i] == ImagePrefix[i];
    assert ToLowerCase(t)[..n] == ImagePrefix;
  }

  /** `upload(file)` with the random name `name`, where `stored` says whether
      creating the directory and transferring the file succeed: the URL of
      the stored file, the 400 of the checks, or the 500 of an `IOException`. */
  function Upload(file: UploadedFile, name: string, stored: bool): (r: Result<string>)
    ensures r.Ok? <==> Extension(file).Ok? && stored
    ensures Extension(file).Err? ==> r == Err(Extension(file).error)
    ensures Extension(file).Ok? && !stored ==> r == Err(ApiException(InternalServerError, UploadFailedMessage))
    ensures r.Ok? ==> r.value == UrlPrefix + (name + "." + Extension(file).value)
  {
    match Extension(file)
    case Err(e) => Err(e)
    case Ok(ext) =>
      if !stored then Err(ApiException(InternalServerError, UploadFailedMessage))
      else Ok(UrlPrefix + (name + "." + ext))
  }

  /** Every path `/uploads/...` is readable without login. */
  lemma UploadsPathIsPublic(url: string, rest: string)
    requires url == UrlPrefix + rest
    ensures Decide(ChainRules, GET, url) == Permit
  {
    StartsWithConcat(UrlPrefix, rest);
    assert "/uploads" + "/" == UrlPrefix;
    assert PathMatches(Subtree("/uploads"), url);
    PublicReadsPermitted(url);
  }

  /** The URL handed back lies below `/uploads`, which anyone may GET. */
  lemma UploadedFileIsPublic(file: UploadedFile, name: string, stored: bool)
    requires Upload(file, name, stored).Ok?
    ensures Decide(ChainRules, GET, Upload(file, name, stored).value) == Permit
  {
    UploadsPathIsPublic(Upload(file, name, stored).value, name + "." + Extension(file).value);
  }

  /** `image/<subtype>` without parameters, padding or capitals passes the
      first image check and has the subtype `subtype`. */
  lemma PlainImageType(subtype: string)
    requires |subtype| > 0 && !IsTrimmable(subtype[|subtype| - 1])
    requires forall i :: 0 <= i < |subtype| ==> subtype[i] != ';' && !IsAsciiUpper(subtype[i])
    ensures StartsWith(ToLowerCase(ImagePrefix + subtype), ImagePrefix)
    ensures Subtype(ImagePrefix + subtype) == Some(subtype)
  {
    var ct := ImagePrefix + subtype;
    forall i | 0 <= i < |ct| ensures ct[i] != ';' && !IsAsciiUpper(ct[i]) {
      if i >= |ImagePrefix| {
        assert ct[i] == subtype[i - |ImagePrefix|];
      }
    }
    assert ct[|ct| - 1] == subtype[|subtype| - 1];
    MainTypeOfPlain(ct);
    assert ToLowerCase(ct) == ct;
    StartsWithConcat(ImagePrefix, subtype);
  }

  /** A content type that passes the first image check with the subtype
      `subtype` is refused or stored as the word check on `subtype` says. */
  lemma ExtensionOfImageType(size: nat, contentType: string, subtype: string)
    requires size > 0 && StartsWith(ToLowerCase(contentType), ImagePrefix)
    requires Subtype(contentType) == Some(subtype)
    ensures !IsLowerWord(subtype) ==>
      Extension(UploadedFile(size, Some(contentType))) == Err(ApiException(BadRequest, UnsupportedImageMessage))
    ensures IsLowerWord(subtype) ==> Extension(UploadedFile(size, Some(contentType))) == Ok(NormalizedExt(subtype))
  {
    if IsLowerWord(subtype) {
      ExtensionOfWord(UploadedFile(size, Some(contentType)), subtype);
    } else {
      ExtensionOfNonWord(UploadedFile(size, Some(contentType)), subtype);
    }
  }

  /** The branch of `ExtensionOfImageType` for a lower-case word. */
  lemma ExtensionOfWord(file: UploadedFile, subtype: string)
    requires file.size > 0 && file.contentType.Some?
    requires StartsWith(ToLowerCase(file.contentType.value), ImagePrefix)
    requires Subtype(file.contentType.value) == Some(subtype) && IsLowerWord(subtype)
    ensures Extension(file) == Ok(NormalizedExt(subtype))
  {
  }

  /** The branch of `ExtensionOfImageType` for any other subtype. */
  lemma ExtensionOfNonWord(file: UploadedFile, subtype: string)
    requires file.size > 0 && file.contentType.Some?
    requires StartsWith(ToLowerCase(file.contentType.value), ImagePrefix)
    requires Subtype(file.contentType.value) == Some(subtype) && !IsLowerWord(subtype)
    ensures Extension(file) == Err(ApiException(BadRequest, UnsupportedImageMessage))
  {
  }

  /** A plain `image/<word>` is stored under the normalised word: an allowed
      subtype other than `jpeg` is kept, and `jpeg` or an unknown word becomes
      `jpg`. */
  lemma ExtensionOfPlainType(size: nat, subtype: string)
    requires size > 0 && IsLowerWord(subtype)
    ensures Extension(UploadedFile(size, Some(ImagePrefix + subtype))) == Ok(NormalizedExt(subtype))
  {
    PlainImageType(subtype);
    ExtensionOfImageType(size, ImagePrefix + subtype, subtype);
  }

  /** A subtype with a character other than a lower-case letter is refused:
      `svg+xml` and `x-icon`, for instance. */
  lemma ExtensionRejectsNonWord(size: nat, subtype: string, k: nat)
    requires size > 0 && k < |subtype| && !IsAsciiLower(subtype[k])
    requires !IsTrimmable(subtype[|subtype| - 1])
    requires forall i :: 0 <= i < |subtype| ==> subtype[i] != ';' && !IsAsciiUpper(subtype[i])
    ensures Extension(UploadedFile(size, Some(ImagePrefix + subtype))) == Err(ApiException(BadRequest, UnsupportedImageMessage))
  {
    PlainImageType(subtype);
    assert !IsLowerWord(subtype) by {
      assert !IsAsciiLower(subtype[k]);
    }
    ExtensionOfImageType(size, ImagePrefix + subtype, subtype);
  }

  /** The first image check does not look beyond a `;`. */
  lemma FirstCheckIgnoresParameters(contentType: string, rest: string)
    requires forall i :: 0 <= i < |contentType| ==> contentType[i] != ';'
    requires |rest| > 0 && rest[0] == ';'
    ensures StartsWith(ToLowerCase(contentType + rest), ImagePrefix) <==> StartsWith(ToLowerCase(contentType), ImagePrefix)
  {
    var full := contentType + rest;
    var n := |ImagePrefix|;
    if |contentType| >= n {
      forall i | 0 <= i < n ensures ToLowerCase(full)[i] == ToLowerCase(contentType)[i] {
        assert full[i] == contentType[i];
      }
      assert ToLowerCase(full)[..n] == ToLowerCase(contentType)[..n];
    } else {
      assert full[|contentType|] == ';';
      assert ToLowerCase(full)[|contentType|] == ';';
      assert ImagePrefix[|contentType|] != ';';
    }
  }

  /** Nor does the subtype. */
  lemma SubtypeIgnoresParameters(contentType: string, rest: string)
    requires forall i :: 0 <= i < |contentType| ==> contentType[i] != ';'
    requires |rest| > 0 && rest[0] == ';'
    ensures Subtype(contentType + rest) == Subtype(contentType)
  {
    BeforeSemicolonOfPrefix(contentType, rest);
    BeforeSemicolonOfPrefix(contentType, []);
    assert contentType + [] == contentType;
  }

  /** Parameters after a `;` do not change the outcome. */
  lemma ExtensionIgnoresParameters(size: nat, contentType: string, parameters: string)
    requires forall i :: 0 <= i < |contentType| ==> contentType[i] != ';'
    requires |parameters| > 0 && parameters[0] == ';'
    ensures Extension(UploadedFile(size, Some(contentType + parameters))) == Extension(UploadedFile(size, Some(contentType)))
  {
    SubtypeIgnoresParameters(contentType, parameters);
    FirstCheckIgnoresParameters(contentType, parameters);
    ExtensionDependsOnChecks(size, contentType + parameters, contentType);
  }

  /** The extension depends on the content type only through the first image
      check and the subtype. */
  lemma ExtensionDependsOnChecks(size: nat, a: string, b: string)
    requires StartsWith(ToLowerCase(a), ImagePrefix) <==> StartsWith(ToLowerCase(b), ImagePrefix)
    requires Subtype(a) == Subtype(b)
    ensures Extension(UploadedFile(size, Some(a))) == Extension(UploadedFile(size, Some(b)))
  {
  }

  /** `image/svg+xml` and `image/x-icon` are refused. */
  lemma SvgAndIconRejected(size: nat, subtype: string)
    requires size > 0 && (subtype == "svg+xml" || subtype == "x-icon")
    ensures Extension(UploadedFile(size, Some(ImagePrefix + subtype))) == Err(ApiException(BadRequest, UnsupportedImageMessage))
  {
    assert subtype[1] == 'v' || subtype[1] == '-';
    var k := if subtype[1] == '-' then 1 else 3;
    ExtensionRejectsNonWord(size, subtype, k);
  }
}
