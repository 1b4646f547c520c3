/** The name under which the extension uploads a file (apps/extension/shared/api-client.ts). */
module UploadName {
  import opened Js
  import opened Text
  import opened Mime

  /** `/\.[^./\\]+$/` matches at `k`: a dot, then at least one character, and neither dot nor slash up to the end. */
  predicate ExtensionAt(name: string, k: nat) {
    && k + 1 < |name| && name[k] == '.'
    && forall i :: k < i < |name| ==> name[i] != '.' && name[i] != '/' && name[i] != '\\'
  }

  /** Where the pattern first matches, looking from `from` on. */
  function FindExtension(name: string, from: nat): (k: Option<nat>)
    requires from <= |name|
    ensures k.Some? ==> from <= k.value && ExtensionAt(name, k.value)
    ensures k.None? ==> forall i :: from <= i ==> !ExtensionAt(name, i)
    decreases |name| - from
  {
    if ExtensionAt(name, from) then Some(from)
    else if from == |name| then None
    else FindExtension(name, from + 1)
  }

  /** `name.replace(/\.[^./\\]+$/, '')` */
  function StripExtension(name: string): string {
    match FindExtension(name, 0)
    case None => name
    case Some(k) => name[..k]
  }

  /** What `mime.split('/')[1]` interpolates to, with jpg for jpeg. */
  function Extension(mime: string): string {
    var parts := Split(mime, '/');
    if |parts| < 2 then "undefined" else if parts[1] == "jpeg" then "jpg" else parts[1]
  }

  /** The type that is uploaded; a blob without a type counts as JPEG. */
  function UploadType(blobType: string): string {
    NormalizeMimeType(if blobType == "" then "image/jpeg" else blobType)
  }

  predicate EndsRight(name: string, mime: string) {
    || EndsWith(Lower(name), "." + Extension(mime))
    || (mime == "image/jpeg" && EndsWith(Lower(name), ".jpeg"))
  }

  function UploadFilename(filename: string, blobType: string): string {
    var mime := UploadType(blobType);
    var name := if filename == "" then "media" else filename;
    if EndsRight(name, mime) then name else StripExtension(name) + "." + Extension(mime)
  }

  lemma {:induction false} PieceOfLower(s: string, separator: char, i: nat)
    requires Lower(s) == s && i < |Split(s, separator)|
    ensures Lower(Split(s, separator)[i]) == Split(s, separator)[i]
  {
    if s != [] {
      assert Lower(s[1..]) == s[1..] by {
        forall k | 0 <= k < |s| - 1 ensures LowerChar(s[1..][k]) == s[1..][k] {
          assert Lower(s)[k + 1] == s[k + 1];
        }
      }
      assert LowerChar(s[0]) == Lower(s)[0] == s[0];
      if s[0] == separator {
        if i > 0 {
          PieceOfLower(s[1..], separator, i - 1);
        }
      } else {
        PieceOfLower(s[1..], separator, i);
        var rest := Split(s[1..], separator);
        assert i == 0 ==> Lower([s[0]] + rest[0]) == [s[0]] + Lower(rest[0]);
      }
    }
  }

  lemma ExtensionIsLower(blobType: string)
    ensures Lower(Extension(UploadType(blobType))) == Extension(UploadType(blobType))
  {
    hide NormalizeMimeType, Split;
    var mime := UploadType(blobType);
    NormalizedIsPlain(if blobType == "" then "image/jpeg" else blobType);
    if |Split(mime, '/')| >= 2 {
      PieceOfLower(mime, '/', 1);
    }
  }

  lemma AppendEnds(stem: string, extension: string)
    requires Lower(extension) == extension
    ensures EndsWith(Lower(stem + "." + extension), "." + extension)
  {
    var s := stem + "." + extension;
    var suffix := "." + extension;
    assert s[|s| - |suffix|..] == suffix;
    forall i | 0 <= i < |suffix| ensures Lower(s)[|s| - |suffix|..][i] == suffix[i] {
      assert Lower(s)[|s| - |suffix| + i] == LowerChar(s[|s| - |suffix| + i]);
      assert i > 0 ==> Lower(extension)[i - 1] == extension[i - 1];
    }
  }

  /** `name` ends in `suffix`, in any case. */
  ghost predicate EndsLike(name: string, suffix: string) {
    exists stem, tail :: name == stem + tail && SameLetters(tail, suffix)
  }

  lemma EndsLikeExactly(name: string, suffix: string)
    requires Lower(suffix) == suffix
    ensures EndsWith(Lower(name), suffix) <==> EndsLike(name, suffix)
  {
    if EndsWith(Lower(name), suffix) {
      var k := |name| - |suffix|;
      var tail := name[k..];
      assert Lower(tail) == Lower(name)[k..];
      LowerExactly(tail, suffix);
      assert name == name[..k] + tail;
    }
    if stem, tail :| name == stem + tail && SameLetters(tail, suffix) {
      LowerExactly(tail, suffix);
      assert Lower(name)[|stem|..] == Lower(tail);
    }
  }

  /** What the code tests: the name ends, in any case, in the type's extension, or in .jpeg for JPEG. */
  lemma EndsRightExactly(name: string, blobType: string)
    ensures EndsRight(name, UploadType(blobType)) <==>
      var mime := NormalizeMimeType(if blobType == "" then "image/jpeg" else blobType);
      EndsLike(name, "." + Extension(mime)) || (mime == "image/jpeg" && EndsLike(name, ".jpeg"))
  {
    hide NormalizeMimeType, Extension, LowerChar, EndsWith, EndsLike;
    ExtensionIsLower(blobType);
    DotIsLower(Extension(UploadType(blobType)));
    JpegIsLower();
    DotIsLower("jpeg");
    assert "." + "jpeg" == ".jpeg";
    EndsLikeExactly(name, "." + Extension(UploadType(blobType)));
    EndsLikeExactly(name, ".jpeg");
  }

  lemma JpegIsLower()
    ensures Lower("jpeg") == "jpeg"
  {
  }

  lemma DotIsLower(s: string)
    requires Lower(s) == s
    ensures Lower("." + s) == "." + s
  {
    forall i | 0 <= i < |s| ensures LowerChar(s[i]) == s[i] {
      assert Lower(s)[i] == s[i];
    }
  }

  /**
   * For every name and every type, the upload name ends, in any case, in the extension of the blob's type, JPEG
   * where it has none, or in .jpeg for JPEG; and a given name that does so already is kept as it is.
   */
  lemma NameEndsRight(filename: string, blobType: string)
    ensures
      var mime := NormalizeMimeType(if blobType == "" then "image/jpeg" else blobType);
      var name := UploadFilename(filename, blobType);
      && (EndsLike(name, "." + Extension(mime)) || (mime == "image/jpeg" && EndsLike(name, ".jpeg")))
      && (filename != ""
          && (EndsLike(filename, "." + Extension(mime)) || (mime == "image/jpeg" && EndsLike(filename, ".jpeg")))
          ==> name == filename)
      && (filename == "" ==> name == UploadFilename("media", blobType))
  {
    hide NormalizeMimeType, Extension, Lower, EndsWith, EndsLike;
    NameIsRight(filename, blobType);
    EndsRightExactly(UploadFilename(filename, blobType), blobType);
    EndsRightExactly(filename, blobType);
  }

  lemma NameIsRight(filename: string, blobType: string)
    ensures EndsRight(UploadFilename(filename, blobType), UploadType(blobType))
  {
    hide NormalizeMimeType, Extension, Lower, EndsWith;
    var mime := UploadType(blobType);
    var name := if filename == "" then "media" else filename;
    ExtensionIsLower(blobType);
    AppendEnds(StripExtension(name), Extension(mime));
  }

  /** Deriving the name again changes nothing. */
  lemma NameIsStable(filename: string, blobType: string)
    ensures UploadFilename(UploadFilename(filename, blobType), blobType) == UploadFilename(filename, blobType)
  {
    hide NormalizeMimeType, Extension, Lower, EndsWith, StripExtension;
    NameIsRight(filename, blobType);
    NameIsNotEmpty(filename, blobType);
  }

  lemma NameIsNotEmpty(filename: string, blobType: string)
    ensures UploadFilename(filename, blobType) != ""
  {
    hide NormalizeMimeType, Extension, EndsRight, StripExtension;
  }

  /** Everything up to any slash or backslash of the given name is kept as a prefix, so the directory part survives. */
  lemma DirectoryIsKept(filename: string, blobType: string, k: nat)
    requires k < |filename| && (filename[k] == '/' || filename[k] == '\\')
    ensures filename[..k + 1] <= UploadFilename(filename, blobType)
  {
    hide NormalizeMimeType, Extension, EndsRight;
    var found := FindExtension(filename, 0);
    if found.Some? {
      assert k <= found.value;
      assert filename[..found.value][..k + 1] == filename[..k + 1];
    }
  }

  /** The new name is the given one, or the given one with its extension, if any, replaced. */
  lemma OnlyExtensionChanges(filename: string, blobType: string)
    requires filename != ""
    ensures
      var mime := NormalizeMimeType(if blobType == "" then "image/jpeg" else blobType);
      var name := UploadFilename(filename, blobType);
      if EndsLike(filename, "." + Extension(mime)) || (mime == "image/jpeg" && EndsLike(filename, ".jpeg"))
      then name == filename
      else
        && (forall k: nat :: ExtensionAt(filename, k) ==> name == filename[..k] + "." + Extension(mime))
        && ((forall k: nat :: !ExtensionAt(filename, k)) ==> name == filename + "." + Extension(mime))
  {
    hide NormalizeMimeType, Extension, EndsRight, EndsLike;
    EndsRightExactly(filename, blobType);
    var found := FindExtension(filename, 0);
    forall k: nat | ExtensionAt(filename, k) ensures found == Some(k) {
      assert filename[k] == '.' && filename[found.value] == '.';
    }
  }

  /** The extensions of the types that can be uploaded. */
  lemma AllowedExtensions(i: nat)
    requires i < |ALLOWED_TYPES|
    ensures Extension(NormalizeMimeType(ALLOWED_TYPES[i])) == ["jpg", "jpg", "png", "webp", "gif", "mp4", "webm"][i]
  {
    hide NormalizeMimeType, Extension, Ascii;
    AllowedAreFixed();
    if i <= 1 {
      ExtensionOf("image", "jpeg", "image/jpeg");
    } else if i == 2 {
      ExtensionOf("image", "png", "image/png");
    } else if i == 3 {
      ExtensionOf("image", "webp", "image/webp");
    } else if i == 4 {
      ExtensionOf("image", "gif", "image/gif");
    } else if i == 5 {
      ExtensionOf("video", "mp4", "video/mp4");
    } else {
      ExtensionOf("video", "webm", "video/webm");
    }
  }

  /** The extension stands between the first and the second slash, but jpg for jpeg; without a slash, "undefined". */
  lemma ExtensionExactly(kind: string, subtype: string, more: string)
    requires '/' !in kind && '/' !in subtype && (more == "" || more[0] == '/')
    ensures Extension(kind + "/" + subtype + more) == if subtype == "jpeg" then "jpg" else subtype
    ensures Extension(kind) == "undefined"
  {
    SplitWhole(kind, '/');
    if more == "" {
      assert kind + "/" + subtype + more == kind + "/" + subtype;
      ExtensionOf(kind, subtype, kind + "/" + subtype);
    } else {
      var rest := subtype + ['/'] + more[1..];
      assert kind + "/" + subtype + more == kind + ['/'] + rest;
      SplitFirst(kind, rest, '/');
      SplitFirst(subtype, more[1..], '/');
    }
  }

  lemma ExtensionOf(kind: string, subtype: string, mime: string)
    requires '/' !in kind && '/' !in subtype && mime == kind + "/" + subtype
    ensures Extension(mime) == if subtype == "jpeg" then "jpg" else subtype
  {
    SplitFirst(kind, subtype, '/');
    SplitWhole(subtype, '/');
  }
}
