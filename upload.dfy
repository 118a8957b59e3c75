/** The multer configuration in server/middleware/upload.js: the two file
    filters, the stored file name and the two size ceilings. The UUID
    generator is a parameter; the stream handling of multer is not modelled,
    only its outcome (accepted under a name, or rejected with a message). */
module Upload {
  import opened Wrappers
  import opened JsString
  import opened NodePath

  /** Destination directory of every upload, images and videos alike. */
  const UploadDir: string := "/upload"

  /** The alternatives of /jpeg|jpg|png|webp/ and of /mp4|webm/. */
  const ImagePatterns: seq<string> := ["jpeg", "jpg", "png", "webp"]
  const VideoPatterns: seq<string> := ["mp4", "webm"]

  /** `limits.fileSize` of the two multer instances, in bytes. */
  const ImageSizeLimit: nat := 10 * 1024 * 1024
  const VideoSizeLimit: nat := 100 * 1024 * 1024

  const ImageTypeError: string := "Only image files (JPEG, PNG, WebP) are allowed"
  const VideoTypeError: string := "Only video files (MP4, WebM) are allowed"
  /** The message multer attaches to its LIMIT_FILE_SIZE error. */
  const FileTooLarge: string := "File too large"

  datatype MediaKind = Image | Video

  function Patterns(kind: MediaKind): seq<string>
  {
    if kind == Image then ImagePatterns else VideoPatterns
  }

  function SizeLimit(kind: MediaKind): nat
  {
    if kind == Image then ImageSizeLimit else VideoSizeLimit
  }

  function TypeError(kind: MediaKind): string
  {
    if kind == Image then ImageTypeError else VideoTypeError
  }

  /** `/a|b|…/.test(s)`: an unanchored search for any alternative. */
  function MatchesAny(s: string, alternatives: seq<string>): bool
  {
    if alternatives == [] then false
    else Includes(s, alternatives[0]) || MatchesAny(s, alternatives[1..])
  }

  lemma {:induction false} MatchesAnyIff(s: string, alternatives: seq<string>)
    ensures MatchesAny(s, alternatives) <==>
            exists k :: 0 <= k < |alternatives| && Includes(s, alternatives[k])
  {
    if alternatives != [] {
      MatchesAnyIff(s, alternatives[1..]);
      if MatchesAny(s, alternatives[1..]) {
        var k :| 0 <= k < |alternatives[1..]| && Includes(s, alternatives[1..][k]);
        assert Includes(s, alternatives[k + 1]);
      }
      if exists k :: 0 <= k < |alternatives| && Includes(s, alternatives[k]) {
        var k :| 0 <= k < |alternatives| && Includes(s, alternatives[k]);
        if k > 0 { assert Includes(s, alternatives[1..][k - 1]); }
      }
    }
  }

  lemma MatchesImagePatterns(s: string)
    ensures MatchesAny(s, ImagePatterns) <==>
      Includes(s, "jpeg") || Includes(s, "jpg") || Includes(s, "png") || Includes(s, "webp")
  {
    var p := ImagePatterns;
    assert MatchesAny(s, p) == (Includes(s, p[0]) || MatchesAny(s, p[1..]));
    assert MatchesAny(s, p[1..]) == (Includes(s, p[1]) || MatchesAny(s, p[2..]));
    assert MatchesAny(s, p[2..]) == (Includes(s, p[2]) || MatchesAny(s, p[3..]));
    assert MatchesAny(s, p[3..]) == (Includes(s, p[3]) || MatchesAny(s, p[4..]));
    assert p[4..] == [];
  }

  lemma MatchesVideoPatterns(s: string)
    ensures MatchesAny(s, VideoPatterns) <==> Includes(s, "mp4") || Includes(s, "webm")
  {
    var p := VideoPatterns;
    assert MatchesAny(s, p) == (Includes(s, p[0]) || MatchesAny(s, p[1..]));
    assert MatchesAny(s, p[1..]) == (Includes(s, p[1]) || MatchesAny(s, p[2..]));
    assert p[2..] == [];
  }

  /** The extension test: the original name's extension, lower-cased. */
  predicate ExtensionPasses(kind: MediaKind, originalName: string)
  {
    MatchesAny(ToLower(ExtName(originalName)), Patterns(kind))
  }

  /** The MIME test: the declared type as given, not lower-cased. */
  predicate MimePasses(kind: MediaKind, mimeType: string)
  {
    MatchesAny(mimeType, Patterns(kind))
  }

  /** The verdict of `imageFilter` / `videoFilter`. */
  datatype Verdict = Accept | Reject(message: string)

  function FileFilter(kind: MediaKind, originalName: string, mimeType: string): (v: Verdict)
    ensures v.Accept? <==> ExtensionPasses(kind, originalName) && MimePasses(kind, mimeType)
    ensures v.Reject? ==> v.message == TypeError(kind)
  {
    if ExtensionPasses(kind, originalName) && MimePasses(kind, mimeType) then Accept
    else Reject(TypeError(kind))
  }

  /** A file is accepted exactly when some alternative occurs in the lower-cased
      extension and some alternative occurs in the MIME type; each test on its
      own decides nothing. */
  lemma FilterAcceptsIff(kind: MediaKind, originalName: string, mimeType: string)
    ensures FileFilter(kind, originalName, mimeType).Accept? <==>
      && (exists k :: 0 <= k < |Patterns(kind)| && Includes(ToLower(ExtName(originalName)), Patterns(kind)[k]))
      && (exists k :: 0 <= k < |Patterns(kind)| && Includes(mimeType, Patterns(kind)[k]))
  {
    MatchesAnyIff(ToLower(ExtName(originalName)), Patterns(kind));
    MatchesAnyIff(mimeType, Patterns(kind));
  }

  /** An extension-shaped suffix: empty, or a '.' followed by text without
      '.' or '/'. */
  predicate ExtShaped(ext: string)
  {
    ext == "" || (ext[0] == '.' && '.' !in ext[1..] && '/' !in ext)
  }

  /** A stem the extension scan leaves whole: non-empty, no '.' and no '/'. */
  predicate StemShaped(stem: string)
  {
    stem != "" && '.' !in stem && '/' !in stem
  }

  predicate NoLowerCase(s: string)
  {
    forall i :: 0 <= i < |s| ==> !('a' <= s[i] <= 'z')
  }

  /** The MIME type is matched as declared, without case folding: a type with no
      lower-case letter (an upper-cased "IMAGE/PNG", say) is always rejected,
      because every alternative contains a lower-case letter. */
  lemma UpperCaseMimeRejected(kind: MediaKind, originalName: string, mimeType: string)
    requires NoLowerCase(mimeType)
    ensures FileFilter(kind, originalName, mimeType) == Reject(TypeError(kind))
  {
    PatternsStartLowerCase(kind);
    NoLowerCaseMatchesNothing(mimeType, Patterns(kind));
  }

  /** Every alternative begins with a lower-case letter. */
  lemma PatternsStartLowerCase(kind: MediaKind)
    ensures forall k :: 0 <= k < |Patterns(kind)| ==>
      Patterns(kind)[k] != "" && 'a' <= Patterns(kind)[k][0] <= 'z'
  {
  }

  lemma NoLowerCaseMatchesNothing(s: string, alternatives: seq<string>)
    requires NoLowerCase(s)
    requires forall k :: 0 <= k < |alternatives| ==> alternatives[k] != "" && 'a' <= alternatives[k][0] <= 'z'
    ensures !MatchesAny(s, alternatives)
  {
    forall k | 0 <= k < |alternatives| ensures !Includes(s, alternatives[k]) {
      MissingCharNotIncluded(s, alternatives[k], alternatives[k][0]);
    }
    MatchesAnyIff(s, alternatives);
  }

  /** Upper-casing leaves no lower-case letter. */
  lemma ToUpperNoLowerCase(s: string)
    ensures NoLowerCase(ToUpper(s))
  {
  }

  /** The extension, in contrast, is lower-cased before its test: writing the
      extension in capitals ("PHOTO.PNG") changes nothing. */
  lemma ExtensionCaseInsensitive(kind: MediaKind, stem: string, ext: string)
    requires StemShaped(stem) && ExtShaped(ext)
    ensures ExtShaped(ToUpper(ext))
    ensures ExtensionPasses(kind, stem + ToUpper(ext)) == ExtensionPasses(kind, stem + ext)
  {
    var up := ToUpper(ext);
    if ext != "" {
      assert '.' !in up[1..] && '/' !in up by {
        forall i | 0 <= i < |up| ensures up[i] != '/' && (i > 0 ==> up[i] != '.') {
          assert up[i] == UpperChar(ext[i]);
          if i > 0 { assert ext[i] == ext[1..][i - 1]; }
        }
      }
    }
    ExtNameOfName(stem, ext);
    ExtNameOfName(stem, up);
    LowerOfUpper(ext);
  }

  /** Lower-casing forgets an earlier upper-casing. */
  lemma LowerOfUpper(s: string)
    ensures ToLower(ToUpper(s)) == ToLower(s)
  {
    forall i | 0 <= i < |s| ensures ToLower(ToUpper(s))[i] == ToLower(s)[i] {
      assert ToUpper(s)[i] == UpperChar(s[i]);
    }
  }

  /** The extension test is an unanchored search, not a whole-extension match:
      once an alternative occurs in the extension, any further letters may
      follow it (".jpgx" passes as an image extension). */
  lemma ExtensionTestUnanchored(kind: MediaKind, stem: string, ext: string, tail: string, k: nat)
    requires StemShaped(stem) && ext != "" && ExtShaped(ext)
    requires '.' !in tail && '/' !in tail
    requires k < |Patterns(kind)| && Includes(ToLower(ext), Patterns(kind)[k])
    ensures ExtensionPasses(kind, stem + (ext + tail))
  {
    ExtShapedAppend(ext, tail);
    ExtNameOfName(stem, ext + tail);
    ToLowerAppend(ext, tail);
    IncludesAppend(ToLower(ext), ToLower(tail), Patterns(kind)[k]);
    MatchesAnyIff(ToLower(ext + tail), Patterns(kind));
  }

  lemma ExtShapedAppend(ext: string, tail: string)
    requires ext != "" && ExtShaped(ext) && '.' !in tail && '/' !in tail
    ensures ExtShaped(ext + tail)
  {
    assert (ext + tail)[1..] == ext[1..] + tail;
  }

  /** A generated identifier as the uuid v4 generator produces it: non-empty,
      hexadecimal digits and dashes, hence no '.' and no '/'. */
  predicate IsUuidText(id: string)
  {
    id != "" && forall i :: 0 <= i < |id| ==> id[i] == '-' || '0' <= id[i] <= '9' || 'a' <= id[i] <= 'f'
  }

  /** `storage.filename`: the generated identifier followed by the original
      extension exactly as given. */
  function StoredName(uuid: string, originalName: string): string
  {
    uuid + ExtName(originalName)
  }

  /** The stored name begins with the identifier and carries the original
      extension unchanged (case kept, empty when there is none), so the stored
      file has the same extension the filter saw. */
  lemma StoredNameKeepsExtension(uuid: string, originalName: string)
    requires IsUuidText(uuid)
    ensures StartsWith(StoredName(uuid, originalName), uuid)
    ensures ExtName(StoredName(uuid, originalName)) == ExtName(originalName)
    ensures Basename(StoredName(uuid, originalName)) == StoredName(uuid, originalName)
  {
    var e := ExtName(originalName);
    ExtNameShape(originalName);
    assert '.' !in uuid && '/' !in uuid;
    ExtNameOfName(uuid, e);
    assert (uuid + e)[..|uuid|] == uuid;
  }

  /** What the upload middleware leaves behind for one file. */
  datatype Ingested = Stored(path: string, name: string) | Rejected(message: string)

  /** One upload through multer: the filter runs before any byte is written,
      the size ceiling while the body streams; an accepted file is written into
      the single upload directory under its generated name. */
  function Ingest(kind: MediaKind, originalName: string, mimeType: string, size: nat, uuid: string): (r: Ingested)
    ensures r.Stored? <==> FileFilter(kind, originalName, mimeType) == Accept && size <= SizeLimit(kind)
    ensures r.Rejected? && FileFilter(kind, originalName, mimeType).Reject? ==> r.message == TypeError(kind)
    ensures r.Rejected? && FileFilter(kind, originalName, mimeType) == Accept ==> r.message == FileTooLarge
    ensures r.Stored? ==> r.path == UploadDir + "/" + r.name && r.name == uuid + ExtName(originalName)
  {
    match FileFilter(kind, originalName, mimeType)
    case Reject(m) => Rejected(m)
    case Accept =>
      if size > SizeLimit(kind) then Rejected(FileTooLarge)
      else Stored(UploadDir + "/" + StoredName(uuid, originalName), StoredName(uuid, originalName))
  }

  /** Images and videos land in the same directory, and the file name is the
      last segment of the stored path. */
  lemma IngestSameDirectory(kind: MediaKind, originalName: string, mimeType: string, size: nat, uuid: string)
    requires IsUuidText(uuid)
    requires Ingest(kind, originalName, mimeType, size, uuid).Stored?
    ensures StartsWith(Ingest(kind, originalName, mimeType, size, uuid).path, UploadDir + "/")
    ensures Basename(Ingest(kind, originalName, mimeType, size, uuid).path) == StoredName(uuid, originalName)
  {
    var name := StoredName(uuid, originalName);
    StoredNameKeepsExtension(uuid, originalName);
    BasenameOfChild(UploadDir, name);
    var path := UploadDir + "/" + name;
    assert path[..|UploadDir + "/"|] == UploadDir + "/";
  }
}
