/** server/utils/imageProcessor.js: deriving the full-size and thumbnail
    paths of an upload, the conditional removal of the original, and the two
    guarded deletions. The image codec is an opaque step that may fail; the
    filesystem is a mutable set of file paths beside a set of directories. */
module ImageProcessor {
  import opened Wrappers
  import opened JsString
  import opened NodePath

  const UploadDir: string := "/upload"
  /** `path.join(UPLOAD_DIR, 'thumbnails')`. */
  const ThumbnailsDir: string := "/upload/thumbnails"

  datatype Fit = Inside | Cover

  /** The parameters handed to the codec for one output: target box, fit,
      whether enlarging is forbidden, whether a crop is centred, JPEG quality. */
  datatype ResizeSpec = ResizeSpec(width: nat, height: nat, fit: Fit, withoutEnlargement: bool, centred: bool, quality: nat)

  /** The full-size rendition: inside 1920×1080, never enlarged, quality 85. */
  const FullSpec: ResizeSpec := ResizeSpec(1920, 1080, Inside, true, false, 85)
  /** The thumbnail: a centred 400×300 cover crop, quality 80. */
  const ThumbSpec: ResizeSpec := ResizeSpec(400, 300, Cover, false, true, 80)

  const ProcessError: string := "Failed to process image"

  /** The codec: whether rendering the file at a path with a spec succeeds. */
  type Codec = (string, ResizeSpec) -> bool

  /** The files and directories of the server's disk. */
  class FileSystem {
    var files: set<string>
    var dirs: set<string>

    constructor (files0: set<string>, dirs0: set<string>)
      ensures files == files0 && dirs == dirs0
    {
      files := files0;
      dirs := dirs0;
    }
  }

  /** The disk as the server sets it up: the root, the upload directory and
      its thumbnails directory exist, and no path is both file and directory. */
  predicate Layout(files: set<string>, dirs: set<string>)
  {
    "/" in dirs && UploadDir in dirs && ThumbnailsDir in dirs && files !! dirs
  }

  /** The file name every rendition gets: the input's stem with ".jpg". */
  function ProcessedName(inputPath: string): string
  {
    Stem(inputPath) + ".jpg"
  }

  function ProcessedPath(inputPath: string): string
  {
    UploadDir + "/" + ProcessedName(inputPath)
  }

  function ThumbnailPath(inputPath: string): string
  {
    ThumbnailsDir + "/" + ProcessedName(inputPath)
  }

  /** The original is kept exactly when its extension, lower-cased, is ".jpg". */
  predicate KeepsOriginal(inputPath: string)
  {
    ToLower(ExtName(inputPath)) == ".jpg"
  }

  datatype Processed = Done(processedPath: string, thumbnailPath: string) | Failed(message: string)

  /** The outcome of `processImage`: both renditions must succeed. */
  function ProcessOutcome(files: set<string>, inputPath: string, codec: Codec): (r: Processed)
    ensures r.Failed? ==> r.message == ProcessError
  {
    if inputPath in files && codec(inputPath, FullSpec) && codec(inputPath, ThumbSpec)
    then Done(ProcessedPath(inputPath), ThumbnailPath(inputPath))
    else Failed(ProcessError)
  }

  /** The files after `processImage`: the full-size rendition is written
      first, the thumbnail second, the original removed last. */
  function FilesAfterProcess(files: set<string>, inputPath: string, codec: Codec): set<string>
  {
    if !(inputPath in files && codec(inputPath, FullSpec)) then files
    else if !codec(inputPath, ThumbSpec) then files + {ProcessedPath(inputPath)}
    else
      var written := files + {ProcessedPath(inputPath), ThumbnailPath(inputPath)};
      if KeepsOriginal(inputPath) then written else written - {inputPath}
  }

  /** The rendition name is a plain segment, so `path.join` appends it. */
  lemma ProcessedNamePlain(inputPath: string)
    ensures PlainSegment(ProcessedName(inputPath))
  {
    StemNoSlash(inputPath);
  }

  /** `processImage`. Writes go to `path.join` of the directory and the name;
      the returned paths are the templated strings; the two agree. */
  method ProcessImage(fs: FileSystem, inputPath: string, codec: Codec) returns (r: Processed)
    modifies fs
    ensures r == ProcessOutcome(old(fs.files), inputPath, codec)
    ensures fs.files == FilesAfterProcess(old(fs.files), inputPath, codec)
    ensures fs.dirs == old(fs.dirs)
  {
    var processedFilename := ProcessedName(inputPath);
    ProcessedNamePlain(inputPath);
    var processedPath := JoinSegment(UploadDir, processedFilename);
    var thumbnailPath := JoinSegment(ThumbnailsDir, processedFilename);
    ChildPaths(processedFilename);
    ghost var files0 := fs.files;
    if !(inputPath in fs.files && codec(inputPath, FullSpec)) {
      return Failed(ProcessError);
    }
    fs.files := fs.files + {processedPath};
    if !(inputPath in fs.files && codec(inputPath, ThumbSpec)) {
      assert fs.files == FilesAfterProcess(files0, inputPath, codec);
      return Failed(ProcessError);
    }
    fs.files := fs.files + {thumbnailPath};
    ghost var written := fs.files;
    assert written == files0 + {ProcessedPath(inputPath), ThumbnailPath(inputPath)};
    if !KeepsOriginal(inputPath) {
      fs.files := fs.files - {inputPath};
    }
    assert fs.files == FilesAfterProcess(files0, inputPath, codec);
    r := Done("/upload/" + processedFilename, "/upload/thumbnails/" + processedFilename);
  }

  /** The two returned paths name the same file in the two directories and
      differ only by the "thumbnails/" segment. */
  lemma ProcessedPathsShape(inputPath: string)
    ensures Basename(ProcessedPath(inputPath)) == ProcessedName(inputPath)
    ensures Basename(ThumbnailPath(inputPath)) == ProcessedName(inputPath)
    ensures ThumbnailPath(inputPath) == "/upload/thumbnails/" + ProcessedPath(inputPath)[|"/upload/"|..]
    ensures ProcessedPath(inputPath) != ThumbnailPath(inputPath)
  {
    var name := ProcessedName(inputPath);
    ProcessedNamePlain(inputPath);
    BasenameOfChild(UploadDir, name);
    BasenameOfChild(ThumbnailsDir, name);
    ChildPaths(name);
  }

  lemma ChildPaths(name: string)
    ensures (UploadDir + "/" + name)[|"/upload/"|..] == name
    ensures ThumbnailsDir + "/" + name == "/upload/thumbnails/" + name
    ensures UploadDir + "/" + name == "/upload/" + name
    ensures UploadDir + "/" + name != ThumbnailsDir + "/" + name
  {
    assert |UploadDir + "/" + name| < |ThumbnailsDir + "/" + name|;
  }

  /** Both renditions have extension ".jpg" and the input's stem, so
      processing the full-size rendition again derives the same paths. */
  lemma ProcessedPathStable(inputPath: string)
    requires Stem(inputPath) != ""
    ensures ExtName(ProcessedPath(inputPath)) == ".jpg" && ExtName(ThumbnailPath(inputPath)) == ".jpg"
    ensures Stem(ProcessedPath(inputPath)) == Stem(inputPath)
    ensures ProcessedPath(ProcessedPath(inputPath)) == ProcessedPath(inputPath)
  {
    RenditionExtensions(inputPath);
    RenditionStem(inputPath);
  }

  lemma RenditionExtensions(inputPath: string)
    requires Stem(inputPath) != ""
    ensures ExtName(ProcessedPath(inputPath)) == ".jpg" && ExtName(ThumbnailPath(inputPath)) == ".jpg"
  {
    var name := ProcessedName(inputPath);
    ProcessedNamePlain(inputPath);
    StemNoSlash(inputPath);
    ExtNameAfterStem(Stem(inputPath), ".jpg");
    ExtNameOfChild(UploadDir, name);
    ExtNameOfChild(ThumbnailsDir, name);
  }

  lemma RenditionStem(inputPath: string)
    requires Stem(inputPath) != ""
    ensures Stem(ProcessedPath(inputPath)) == Stem(inputPath)
  {
    var name := ProcessedName(inputPath);
    var p := ProcessedPath(inputPath);
    RenditionExtensions(inputPath);
    ProcessedNamePlain(inputPath);
    BasenameOfChild(UploadDir, name);
    StemSplit(p);
    assert name == Stem(p) + ".jpg";
    assert Stem(p) == name[..|name| - 4];
  }

  /** An input that is one of its own renditions is kept: the removal of the
      original never removes an output. */
  lemma RenditionIsKept(inputPath: string)
    ensures !KeepsOriginal(inputPath) ==> inputPath != ProcessedPath(inputPath) && inputPath != ThumbnailPath(inputPath)
  {
    ProcessedPathsShape(inputPath);
    if Stem(inputPath) != "" {
      ProcessedPathStable(inputPath);
      JpgIsLowerCase();
      assert KeepsOriginal(ProcessedPath(inputPath)) && KeepsOriginal(ThumbnailPath(inputPath));
    } else {
      StemSplit(inputPath);
      ExtNameShape(inputPath);
      assert Basename(inputPath) == "";
      assert Basename(ProcessedPath(inputPath)) != "";
    }
  }

  lemma JpgIsLowerCase()
    ensures ToLower(".jpg") == ".jpg"
  {
  }

  /** Processing succeeds exactly when the input exists and both renditions
      succeed; every failure is the one error, and no paths are returned. */
  lemma ProcessSucceedsIff(files: set<string>, inputPath: string, codec: Codec)
    ensures ProcessOutcome(files, inputPath, codec).Done? <==>
      inputPath in files && codec(inputPath, FullSpec) && codec(inputPath, ThumbSpec)
    ensures ProcessOutcome(files, inputPath, codec) == Failed(ProcessError) ||
      ProcessOutcome(files, inputPath, codec) == Done(ProcessedPath(inputPath), ThumbnailPath(inputPath))
  {
  }

  /** After a successful run both renditions exist, the original survives
      exactly when its lower-cased extension is ".jpg", and no other file is
      touched. */
  lemma ProcessSuccessEffects(files: set<string>, inputPath: string, codec: Codec)
    requires ProcessOutcome(files, inputPath, codec).Done?
    ensures var after := FilesAfterProcess(files, inputPath, codec);
      && ProcessedPath(inputPath) in after && ThumbnailPath(inputPath) in after
      && (inputPath in after <==> KeepsOriginal(inputPath))
      && after - {ProcessedPath(inputPath), ThumbnailPath(inputPath), inputPath}
         == files - {ProcessedPath(inputPath), ThumbnailPath(inputPath), inputPath}
  {
    RenditionIsKept(inputPath);
  }

  /** After a failure nothing is removed, no thumbnail is written, and at most
      the full-size rendition was written. */
  lemma ProcessFailureEffects(files: set<string>, inputPath: string, codec: Codec)
    requires ProcessOutcome(files, inputPath, codec).Failed?
    ensures var after := FilesAfterProcess(files, inputPath, codec);
      files <= after <= files + {ProcessedPath(inputPath)} && ThumbnailPath(inputPath) !in after - files
    ensures !(inputPath in files && codec(inputPath, FullSpec)) ==> FilesAfterProcess(files, inputPath, codec) == files
  {
    ProcessedPathsShape(inputPath);
  }

  /** The removal decision depends only on the extension: for a name made of
      a stem and an extension, the original is kept exactly when the
      extension lower-cases to ".jpg" (".jpg" and ".JPG" stay; ".png", ".webp"
      and ".jpeg" go). */
  lemma KeepsOriginalIff(stem: string, ext: string)
    requires stem != "" && '/' !in stem
    requires |ext| >= 2 && ext[0] == '.' && '.' !in ext[1..] && '/' !in ext
    ensures KeepsOriginal(stem + ext) <==> ToLower(ext) == ".jpg"
  {
    ExtNameAfterStem(stem, ext);
  }

  /** For a lower-case ".jpg" upload in the upload directory, the full-size
      rendition's target path is the input path itself, and the original is
      not unlinked. Whether the codec can write over its own input is up to
      the `codec` parameter. */
  lemma JpgProcessedInPlace(stem: string)
    requires stem != "" && '/' !in stem
    ensures ProcessedPath(UploadDir + "/" + stem + ".jpg") == UploadDir + "/" + stem + ".jpg"
    ensures KeepsOriginal(UploadDir + "/" + stem + ".jpg")
  {
    var input := UploadDir + "/" + stem + ".jpg";
    ExtNameAfterStem(stem, ".jpg");
    assert input == UploadDir + "/" + (stem + ".jpg");
    BasenameOfChild(UploadDir, stem + ".jpg");
    assert ExtName(input) == SegmentExt(stem + ".jpg") == ExtName(stem + ".jpg");
    StemSplit(input);
    assert Stem(input) == stem;
    JpgIsLowerCase();
  }

  /** The disk after `deleteImage(url)`: nothing unless the URL is a
      non-empty string under "/upload/"; otherwise the basename is joined to
      both directories and each existing path is unlinked in turn. Unlinking a
      directory throws, which the handler catches, skipping what follows. */
  function FilesAfterDeleteImage(files: set<string>, dirs: set<string>, url: Option<string>): set<string>
  {
    if !Present(url) || !StartsWith(url.value, "/upload/") then files
    else
      var name := Basename(url.value);
      var imagePath := JoinSegment(UploadDir, name);
      var thumbnailPath := JoinSegment(ThumbnailsDir, name);
      if imagePath in dirs then files
      else if thumbnailPath in dirs then files - {imagePath}
      else files - {imagePath, thumbnailPath}
  }

  /** The disk after `deleteVideo(url)`: the same guard, one path. */
  function FilesAfterDeleteVideo(files: set<string>, dirs: set<string>, url: Option<string>): set<string>
  {
    if !Present(url) || !StartsWith(url.value, "/upload/") then files
    else
      var videoPath := JoinSegment(UploadDir, Basename(url.value));
      if videoPath in dirs then files else files - {videoPath}
  }

  /** `deleteImage`: never fails; an error inside ends the attempt silently. */
  method DeleteImage(fs: FileSystem, imageUrl: Option<string>)
    modifies fs
    ensures fs.files == FilesAfterDeleteImage(old(fs.files), old(fs.dirs), imageUrl)
    ensures fs.dirs == old(fs.dirs)
  {
    if imageUrl.None? || imageUrl.value == "" || !StartsWith(imageUrl.value, "/upload/") {
      return;
    }
    var filename := Basename(imageUrl.value);
    var imagePath := JoinSegment(UploadDir, filename);
    var thumbnailPath := JoinSegment(ThumbnailsDir, filename);
    if imagePath in fs.files || imagePath in fs.dirs {
      if imagePath in fs.dirs {
        return;
      }
      fs.files := fs.files - {imagePath};
    }
    if thumbnailPath in fs.files || thumbnailPath in fs.dirs {
      if thumbnailPath in fs.dirs {
        return;
      }
      fs.files := fs.files - {thumbnailPath};
    }
  }

  /** `deleteVideo`. */
  method DeleteVideo(fs: FileSystem, videoUrl: Option<string>)
    modifies fs
    ensures fs.files == FilesAfterDeleteVideo(old(fs.files), old(fs.dirs), videoUrl)
    ensures fs.dirs == old(fs.dirs)
  {
    if videoUrl.None? || videoUrl.value == "" || !StartsWith(videoUrl.value, "/upload/") {
      return;
    }
    var filename := Basename(videoUrl.value);
    var videoPath := JoinSegment(UploadDir, filename);
    if videoPath in fs.files || videoPath in fs.dirs {
      if videoPath in fs.dirs {
        return;
      }
      fs.files := fs.files - {videoPath};
    }
  }

  /** Outside "/upload/" (or with no URL at all) neither deletion touches the disk. */
  lemma DeleteGuard(files: set<string>, dirs: set<string>, url: Option<string>)
    requires !Present(url) || !StartsWith(url.value, "/upload/")
    ensures FilesAfterDeleteImage(files, dirs, url) == files
    ensures FilesAfterDeleteVideo(files, dirs, url) == files
  {
  }

  /** Whatever the URL ("/upload/../../etc/passwd" included), the only files
      `deleteImage` can remove are the entries of one plain name directly
      inside the upload directory and directly inside its thumbnails
      directory; `deleteVideo` only the first of them. */
  lemma DeleteConfined(files: set<string>, dirs: set<string>, url: Option<string>) returns (name: string)
    requires Layout(files, dirs)
    ensures PlainSegment(name)
    ensures FilesAfterDeleteImage(files, dirs, url) <= files
    ensures files - FilesAfterDeleteImage(files, dirs, url) <= {UploadDir + "/" + name, ThumbnailsDir + "/" + name}
    ensures FilesAfterDeleteVideo(files, dirs, url) <= files
    ensures files - FilesAfterDeleteVideo(files, dirs, url) <= {UploadDir + "/" + name}
  {
    name := "x";
    if Present(url) && StartsWith(url.value, "/upload/") {
      var b := Basename(url.value);
      if PlainSegment(b) {
        name := b;
      } else {
        assert JoinSegment(UploadDir, b) in dirs;
      }
    }
  }

  /** With a plain basename and no directory in the way, `deleteImage`
      removes exactly the full-size file and the thumbnail of that name. */
  lemma DeleteImageRemovesBoth(files: set<string>, dirs: set<string>, url: string)
    requires StartsWith(url, "/upload/") && PlainSegment(Basename(url))
    requires UploadDir + "/" + Basename(url) !in dirs && ThumbnailsDir + "/" + Basename(url) !in dirs
    ensures FilesAfterDeleteImage(files, dirs, Some(url)) ==
      files - {UploadDir + "/" + Basename(url), ThumbnailsDir + "/" + Basename(url)}
  {
  }

  /** Deleting by the full-size URL that processing returned removes both
      renditions it wrote. */
  lemma DeleteUndoesProcess(files: set<string>, dirs: set<string>, inputPath: string, codec: Codec)
    requires ProcessOutcome(files, inputPath, codec).Done?
    requires ProcessedPath(inputPath) !in dirs && ThumbnailPath(inputPath) !in dirs
    ensures var after := FilesAfterProcess(files, inputPath, codec);
      var url := ProcessOutcome(files, inputPath, codec).processedPath;
      ProcessedPath(inputPath) !in FilesAfterDeleteImage(after, dirs, Some(url))
      && ThumbnailPath(inputPath) !in FilesAfterDeleteImage(after, dirs, Some(url))
  {
    var name := ProcessedName(inputPath);
    var url := ProcessedPath(inputPath);
    ProcessedPathsShape(inputPath);
    ProcessedNamePlain(inputPath);
    ChildPaths(name);
    assert url[..|"/upload/"|] == "/upload/";
    DeleteImageRemovesBoth(FilesAfterProcess(files, inputPath, codec), dirs, url);
  }
}
