/** `PdfImageConverter`: the input checks of `pdf_to_image` and its choice of
    rendering library, `pdf_to_single_image`, which renders into a
    temporary directory, pastes the pages onto one canvas and cleans up,
    and `get_supported_formats`. */
module PdfImageConverter {
  import opened Wrappers
  import opened Paths
  import opened FileSystem
  import opened PdfPages
  import opened PdfLayout

  /** The output extensions accepted, compared as `'.' + output_format.lower()`. */
  const SupportedOutputFormats: seq<string> := [".png", ".jpg", ".jpeg", ".bmp", ".tiff"]

  /** Which of PyMuPDF, Pillow and pdf2image could be imported. */
  datatype Libraries = Libraries(pymupdf: bool, pil: bool, pdf2image: bool)

  datatype Engine = UsePyMuPdf | UsePdf2Image

  /** PyMuPDF when it is available, pdf2image only when PyMuPDF is not. */
  function ChooseEngine(libs: Libraries): Option<Engine>
  {
    if libs.pymupdf then Some(UsePyMuPdf)
    else if libs.pdf2image then Some(UsePdf2Image)
    else None
  }

  lemma ChooseEngineMeaning(libs: Libraries)
    ensures ChooseEngine(libs) == Some(UsePyMuPdf) <==> libs.pymupdf
    ensures ChooseEngine(libs) == Some(UsePdf2Image) <==> !libs.pymupdf && libs.pdf2image
    ensures ChooseEngine(libs).None? <==> !libs.pymupdf && !libs.pdf2image
  {
  }

  /** The exceptions `pdf_to_image` and `pdf_to_single_image` raise. */
  datatype PdfError =
    | NoPdfLibrary
    | InputNotFound(input: FilePath)
    | NotPdf
    | UnsupportedFormat(format: string)
    | ConversionFailed(cause: EngineError)
    | PilMissing
    | NoImages
    | ImageUnreadable(path: FilePath)
    | MergedSaveFailed
    | TempDirNotEmpty
    | MergeFailed(reason: PdfError)

  /** The checks `pdf_to_image` makes before converting, in their order: a
      PDF library, the input's existence, its ".pdf" suffix (lower-cased),
      and the output format. */
  function CheckRequest(libs: Libraries, present: bool, input: FilePath, format: string): Result<(), PdfError>
  {
    if !(libs.pymupdf || libs.pdf2image) then Err(NoPdfLibrary)
    else if !present then Err(InputNotFound(input))
    else if Lower(Suffix(input.name)) != ".pdf" then Err(NotPdf)
    else if !Listed("." + Lower(format), SupportedOutputFormats) then Err(UnsupportedFormat(format))
    else Ok(())
  }

  /** A request is accepted exactly when all four checks pass, each failure
      is reported by the first check that fails, and an accepted request
      always has a library to render with. */
  lemma CheckRequestMeaning(libs: Libraries, present: bool, input: FilePath, format: string)
    ensures CheckRequest(libs, present, input, format).Ok? <==>
              && (libs.pymupdf || libs.pdf2image) && present && Lower(Suffix(input.name)) == ".pdf"
              && "." + Lower(format) in SupportedOutputFormats
    ensures CheckRequest(libs, present, input, format) == Err(NoPdfLibrary) <==> !libs.pymupdf && !libs.pdf2image
    ensures CheckRequest(libs, present, input, format) == Err(InputNotFound(input)) <==>
              (libs.pymupdf || libs.pdf2image) && !present
    ensures CheckRequest(libs, present, input, format) == Err(NotPdf) <==>
              (libs.pymupdf || libs.pdf2image) && present && Lower(Suffix(input.name)) != ".pdf"
    ensures CheckRequest(libs, present, input, format) == Err(UnsupportedFormat(format)) <==>
              && (libs.pymupdf || libs.pdf2image) && present && Lower(Suffix(input.name)) == ".pdf"
              && "." + Lower(format) !in SupportedOutputFormats
    ensures CheckRequest(libs, present, input, format).Ok? ==> ChooseEngine(libs).Some?
  {
    ListedIsIn("." + Lower(format), SupportedOutputFormats);
  }

  /** An accepted format names its page files with one of the supported
      extensions. */
  lemma AcceptedFormatNamesPages(stem: string, number: int, format: string)
    requires "." + Lower(format) in SupportedOutputFormats
    ensures Suffix(PageFileName(stem, number, format)) in SupportedOutputFormats
  {
    var ext := Lower(format);
    var dotted := "." + ext;
    assert ext == dotted[1..];
    assert dotted[1..] in ["png", "jpg", "jpeg", "bmp", "tiff"];
    forall k | 0 <= k < |format|
      ensures format[k] != '.'
    {
      LowerAt(format, k);
    }
    PageFileNameParts(stem, number, format);
  }

  /** `output_dir`, defaulting to the input's directory. */
  function OutputDir(input: FilePath, outputDir: Option<string>): string
  {
    if outputDir.Some? then outputDir.value else input.dir
  }

  /** What `pdf_to_image` returns or raises, and the files it leaves. */
  datatype Conversion = Conversion(result: Result<seq<FilePath>, PdfError>, files: map<FilePath, seq<bv8>>)

  /** `pdf_to_image`: the input checks, then the PyMuPDF path when it is
      available and the pdf2image path otherwise; a library failure is
      reported as a failed conversion. */
  function PdfConversion<Page, Img>(pymupdf: PyMuPdf<Page>, pdf2image: Pdf2Image<Img>, libs: Libraries,
                                    files: map<FilePath, seq<bv8>>, input: FilePath, outputDir: Option<string>,
                                    format: string, dpi: int, range: Option<PageRange>): Conversion
  {
    var check := CheckRequest(libs, input in files, input, format);
    if check.Err? then Conversion(Err(check.error), files)
    else
      var dir := OutputDir(input, outputDir);
      match ChooseEngine(libs)
      case Some(UsePyMuPdf) => Reported(Pymupdf(pymupdf, files, input, dir, format, dpi, range))
      case Some(UsePdf2Image) => Reported(Pdf2imageRun(pdf2image, files, input, dir, format, dpi, range))
      case None => assert false; Conversion(Err(NoPdfLibrary), files)
  }

  /** The `except` of `pdf_to_image`: the engine's paths are returned as they
      are, and an engine's exception is re-raised as a failed conversion. */
  function Reported(o: Outcome): Conversion
  {
    Conversion(if o.result.Ok? then Ok(o.result.value) else Err(ConversionFailed(o.result.error)), o.files)
  }

  /** An accepted request is converted by the engine `ChooseEngine` picks:
      PyMuPDF whenever it is available, pdf2image otherwise; the conversion
      returns and leaves behind what that engine's path does. */
  lemma ConversionEngine<Page, Img>(pymupdf: PyMuPdf<Page>, pdf2image: Pdf2Image<Img>, libs: Libraries,
                                    files: map<FilePath, seq<bv8>>, input: FilePath, outputDir: Option<string>,
                                    format: string, dpi: int, range: Option<PageRange>)
    requires CheckRequest(libs, input in files, input, format).Ok?
    ensures var c := PdfConversion(pymupdf, pdf2image, libs, files, input, outputDir, format, dpi, range);
            var dir := OutputDir(input, outputDir);
            && (libs.pymupdf ==> c == Reported(Pymupdf(pymupdf, files, input, dir, format, dpi, range)))
            && (!libs.pymupdf ==> libs.pdf2image && c == Reported(Pdf2imageRun(pdf2image, files, input, dir, format, dpi, range)))
  {
    CheckRequestMeaning(libs, input in files, input, format);
    ChooseEngineMeaning(libs);
  }

  /** A request refused by the input checks changes nothing and raises the
      check's own exception; once the input checks pass, every exception is a
      failed conversion. */
  lemma ConversionChecksFirst<Page, Img>(pymupdf: PyMuPdf<Page>, pdf2image: Pdf2Image<Img>, libs: Libraries,
                                         files: map<FilePath, seq<bv8>>, input: FilePath, outputDir: Option<string>,
                                         format: string, dpi: int, range: Option<PageRange>)
    ensures var check := CheckRequest(libs, input in files, input, format);
            var c := PdfConversion(pymupdf, pdf2image, libs, files, input, outputDir, format, dpi, range);
            && (check.Err? ==> c.result == Err(check.error) && c.files == files && !c.result.error.ConversionFailed?)
            && (check.Ok? && c.result.Err? ==> c.result.error.ConversionFailed?)
  {
  }

  /** A successful conversion returns distinct page files of the input, all
      present in the output directory with a supported extension, and
      changes no other file. */
  lemma ConversionSucceeds<Page, Img>(pymupdf: PyMuPdf<Page>, pdf2image: Pdf2Image<Img>, libs: Libraries,
                                      files: map<FilePath, seq<bv8>>, input: FilePath, outputDir: Option<string>,
                                      format: string, dpi: int, range: Option<PageRange>)
    requires PdfConversion(pymupdf, pdf2image, libs, files, input, outputDir, format, dpi, range).result.Ok?
    ensures CheckRequest(libs, input in files, input, format).Ok?
    ensures var c := PdfConversion(pymupdf, pdf2image, libs, files, input, outputDir, format, dpi, range);
            var out := c.result.value;
            && Distinct(out)
            && (forall k :: 0 <= k < |out| ==>
                  && out[k] in c.files
                  && IsPageFile(out[k], OutputDir(input, outputDir), Stem(input.name), format)
                  && Suffix(out[k].name) in SupportedOutputFormats)
            && (forall p :: p !in out ==> (p in c.files <==> p in files))
            && (forall p :: p !in out && p in files ==> c.files[p] == files[p])
  {
    var dir := OutputDir(input, outputDir);
    var stem := Stem(input.name);
    CheckRequestMeaning(libs, input in files, input, format);
    var o := if libs.pymupdf then Pymupdf(pymupdf, files, input, dir, format, dpi, range)
             else Pdf2imageRun(pdf2image, files, input, dir, format, dpi, range);
    if libs.pymupdf {
      PymupdfWritesPages(pymupdf, files, input, dir, format, dpi, range);
    } else {
      Pdf2imageWritesPages(pdf2image, files, input, dir, format, dpi, range);
    }
    assert PagesWritten(files, o, dir, stem, format);
    PageFilesSupported(o.result.value, dir, stem, format);
  }

  /** Page files of an accepted format all carry a supported extension. */
  lemma PageFilesSupported(out: seq<FilePath>, dir: string, stem: string, format: string)
    requires "." + Lower(format) in SupportedOutputFormats
    requires forall k :: 0 <= k < |out| ==> IsPageFile(out[k], dir, stem, format)
    ensures forall k :: 0 <= k < |out| ==> Suffix(out[k].name) in SupportedOutputFormats
  {
    forall k | 0 <= k < |out|
      ensures Suffix(out[k].name) in SupportedOutputFormats
    {
      var n :| out[k].name == PageFileName(stem, n, format);
      AcceptedFormatNamesPages(stem, n, format);
    }
  }

  /** `pdf_to_image` changes no file outside its output directory, whether
      it succeeds or fails. */
  lemma ConversionKeepsOtherDirs<Page, Img>(pymupdf: PyMuPdf<Page>, pdf2image: Pdf2Image<Img>, libs: Libraries,
                                            files: map<FilePath, seq<bv8>>, input: FilePath, outputDir: Option<string>,
                                            format: string, dpi: int, range: Option<PageRange>)
    ensures var c := PdfConversion(pymupdf, pdf2image, libs, files, input, outputDir, format, dpi, range);
            var dir := OutputDir(input, outputDir);
            && (forall p: FilePath :: p.dir != dir ==> (p in c.files <==> p in files))
            && (forall p: FilePath :: p.dir != dir && p in files ==> c.files[p] == files[p])
  {
    var dir := OutputDir(input, outputDir);
    if CheckRequest(libs, input in files, input, format).Ok? {
      if libs.pymupdf {
        PymupdfKeepsOtherDirs(pymupdf, files, input, dir, format, dpi, range);
      } else {
        Pdf2imageKeepsOtherDirs(pdf2image, files, input, dir, format, dpi, range);
      }
    }
  }

  /** `pdf_to_image`: the input checks in order, the output directory created when
      one is given, then PyMuPDF when it is available and pdf2image
      otherwise, a library failure being re-raised as a failed conversion. */
  method PdfToImage<Page, Img>(pymupdf: PyMuPdf<Page>, pdf2image: Pdf2Image<Img>, libs: Libraries, disk: Disk,
                               input: FilePath, outputDir: Option<string>, format: string, dpi: int,
                               range: Option<PageRange>) returns (r: Result<seq<FilePath>, PdfError>)
    requires disk.Valid()
    modifies disk
    ensures disk.Valid()
    ensures var c := PdfConversion(pymupdf, pdf2image, libs, old(disk.files), input, outputDir, format, dpi, range);
            r == c.result && disk.files == c.files
    ensures disk.dirs == if CheckRequest(libs, input in old(disk.files), input, format).Ok? && outputDir.Some?
                         then old(disk.dirs) + {outputDir.value} else old(disk.dirs)
  {
    if !(libs.pymupdf || libs.pdf2image) {
      return Err(NoPdfLibrary);
    }
    if input !in disk.files {
      return Err(InputNotFound(input));
    }
    if Lower(Suffix(input.name)) != ".pdf" {
      return Err(NotPdf);
    }
    if !Listed("." + Lower(format), SupportedOutputFormats) {
      return Err(UnsupportedFormat(format));
    }
    var dir := input.dir;
    if outputDir.Some? {
      dir := outputDir.value;
      disk.MakeDirs(dir);
    }
    assert dir in disk.dirs;
    var pages: Result<seq<FilePath>, EngineError>;
    if libs.pymupdf {
      pages := PymupdfPages(pymupdf, disk, input, dir, format, dpi, range);
    } else if libs.pdf2image {
      pages := Pdf2imagePages(pdf2image, disk, input, dir, format, dpi, range);
    } else {
      assert false;
      return Err(NoPdfLibrary);
    }
    r := if pages.Ok? then Ok(pages.value) else Err(ConversionFailed(pages.error));
  }

  /** Pillow's part in `pdf_to_single_image`: `Image.open` giving an image's
      size, and the white RGB canvas with the images pasted at their
      offsets, saved in the named format. */
  datatype Imaging = Imaging(open: seq<bv8> -> Option<Size>,
                             merge: (Size, seq<seq<bv8>>, seq<Offset>, string) -> Option<seq<bv8>>)

  /** `Path(input_file).parent / "temp_images"`. */
  function TempDir(input: FilePath): string
  {
    JoinDir(input.dir, "temp_images")
  }

  /** The temporary directory is never the input's own directory. */
  lemma TempDirIsNotInputDir(input: FilePath)
    ensures TempDir(input) != input.dir
  {
  }

  /** `Image.open(path)`: the size of a readable image. */
  function ReadSize(imaging: Imaging, files: map<FilePath, seq<bv8>>, p: FilePath): Option<Size>
  {
    if p in files then imaging.open(files[p]) else None
  }

  /** Opening the images in turn: their sizes, or the first that cannot be
      opened. */
  function OpenAll(imaging: Imaging, files: map<FilePath, seq<bv8>>, paths: seq<FilePath>): (r: Result<seq<Size>, FilePath>)
    ensures r.Ok? ==> |r.value| == |paths|
    decreases |paths|
  {
    if paths == [] then Ok([])
    else
      var n := |paths| - 1;
      var prior := OpenAll(imaging, files, paths[..n]);
      if prior.Err? then prior
      else match ReadSize(imaging, files, paths[n])
        case None => Err(paths[n])
        case Some(size) => Ok(prior.value + [size])
  }

  /** All images open exactly when each one does, and then each size is its
      own image's; otherwise the path reported is the first that does not
      open. */
  lemma {:induction false} OpenAllMeaning(imaging: Imaging, files: map<FilePath, seq<bv8>>, paths: seq<FilePath>)
    ensures OpenAll(imaging, files, paths).Ok? <==> forall k :: 0 <= k < |paths| ==> ReadSize(imaging, files, paths[k]).Some?
    ensures OpenAll(imaging, files, paths).Ok? ==>
              forall k :: 0 <= k < |paths| ==> paths[k] in files && ReadSize(imaging, files, paths[k]) == Some(OpenAll(imaging, files, paths).value[k])
    ensures OpenAll(imaging, files, paths).Err? ==>
              exists k :: 0 <= k < |paths| && paths[k] == OpenAll(imaging, files, paths).error
                          && ReadSize(imaging, files, paths[k]).None?
                          && forall j :: 0 <= j < k ==> ReadSize(imaging, files, paths[j]).Some?
    decreases |paths|
  {
    if paths != [] {
      var n := |paths| - 1;
      var prefix := paths[..n];
      OpenAllMeaning(imaging, files, prefix);
      assert forall k :: 0 <= k < n ==> prefix[k] == paths[k];
      var prior := OpenAll(imaging, files, prefix);
      if prior.Err? {
        var k :| 0 <= k < n && prefix[k] == prior.error && ReadSize(imaging, files, prefix[k]).None?
                 && forall j :: 0 <= j < k ==> ReadSize(imaging, files, prefix[j]).Some?;
        assert paths[k] == OpenAll(imaging, files, paths).error;
      } else if ReadSize(imaging, files, paths[n]).None? {
        assert paths[n] == OpenAll(imaging, files, paths).error;
      }
    }
  }

  /** The opened images, as bytes. */
  function Contents(files: map<FilePath, seq<bv8>>, paths: seq<FilePath>): (r: seq<seq<bv8>>)
    requires forall k :: 0 <= k < |paths| ==> paths[k] in files
    ensures |r| == |paths| && forall k :: 0 <= k < |paths| ==> r[k] == files[paths[k]]
  {
    seq(|paths|, k requires 0 <= k < |paths| => files[paths[k]])
  }

  /** The files left once each of `paths` is removed. */
  function RemoveAll(files: map<FilePath, seq<bv8>>, paths: seq<FilePath>): map<FilePath, seq<bv8>>
  {
    map p | p in files && p !in paths :: files[p]
  }

  /** What `pdf_to_single_image` returns or raises, and the directories and
      files it leaves. */
  datatype Merge = Merge(result: Result<FilePath, PdfError>, dirs: set<string>, files: map<FilePath, seq<bv8>>)

  /** The `except` branch: every file of the temporary directory is
      unlinked, the directory is removed and the error re-raised. */
  function Abandon(e: PdfError, dirs: set<string>, files: map<FilePath, seq<bv8>>, temp: string): Merge
  {
    Merge(Err(MergeFailed(e)), dirs - {temp}, Without(files, temp))
  }

  /** The part after the pages are rendered into `temp`: open them, paste
      them onto one canvas, save it, remove the pages and the directory.
      The save raises when Pillow cannot write the format or the output
      file's directory does not exist. */
  function Combine(imaging: Imaging, dirs: set<string>, files: map<FilePath, seq<bv8>>, temp: string,
                   images: seq<FilePath>, outputFile: FilePath, format: string, layout: string): Merge
  {
    if images == [] then Abandon(NoImages, dirs, files, temp)
    else
      match OpenAll(imaging, files, images)
      case Err(p) => Abandon(ImageUnreadable(p), dirs, files, temp)
      case Ok(sizes) =>
        OpenAllMeaning(imaging, files, images);
        var vertical := layout == "vertical";
        var merged := imaging.merge(CanvasSize(sizes, vertical), Contents(files, images), Offsets(sizes, vertical), Upper(format));
        if merged.None? || outputFile.dir !in dirs then Abandon(MergedSaveFailed, dirs, files, temp)
        else
          var cleaned := RemoveAll(files[outputFile := merged.value], images);
          if HoldsFiles(cleaned, temp) then Abandon(TempDirNotEmpty, dirs, cleaned, temp)
          else Merge(Ok(outputFile), dirs - {temp}, cleaned)
  }

  /** `pdf_to_single_image`: Pillow is required; the pages of the whole
      document are rendered into `temp_images` beside the input and merged
      into `outputFile`; any failure after the directory is made cleans it
      up and is re-raised as a failed merge. */
  function SingleImage<Page, Img>(pymupdf: PyMuPdf<Page>, pdf2image: Pdf2Image<Img>, imaging: Imaging, libs: Libraries,
                                  dirs: set<string>, files: map<FilePath, seq<bv8>>, input: FilePath,
                                  outputFile: FilePath, format: string, dpi: int, layout: string): Merge
  {
    if !libs.pil then Merge(Err(PilMissing), dirs, files)
    else
      var temp := TempDir(input);
      var c := PdfConversion(pymupdf, pdf2image, libs, files, input, Some(temp), format, dpi, None);
      if c.result.Err? then Abandon(c.result.error, dirs + {temp}, c.files, temp)
      else Combine(imaging, dirs + {temp}, c.files, temp, c.result.value, outputFile, format, layout)
  }

  /** Once one image fails to open, opening more does not change the
      outcome. */
  lemma {:induction false} OpenAllStops(imaging: Imaging, files: map<FilePath, seq<bv8>>, paths: seq<FilePath>, i: nat)
    requires i <= |paths| && OpenAll(imaging, files, paths[..i]).Err?
    ensures OpenAll(imaging, files, paths) == OpenAll(imaging, files, paths[..i])
    decreases |paths|
  {
    if i < |paths| {
      var n := |paths| - 1;
      assert paths[..n][..i] == paths[..i];
      OpenAllStops(imaging, files, paths[..n], i);
    } else {
      assert paths[..i] == paths;
    }
  }

  /** `for img_file in image_files: images.append(Image.open(img_file))`. */
  method OpenImages(imaging: Imaging, disk: Disk, paths: seq<FilePath>) returns (r: Result<seq<Size>, FilePath>)
    ensures r == OpenAll(imaging, disk.files, paths)
  {
    var sizes: seq<Size> := [];
    for i := 0 to |paths|
      invariant OpenAll(imaging, disk.files, paths[..i]) == Ok(sizes)
    {
      var size := if paths[i] in disk.files then imaging.open(disk.files[paths[i]]) else None;
      assert paths[..i + 1][..i] == paths[..i];
      if size.None? {
        OpenAllStops(imaging, disk.files, paths, i + 1);
        return Err(paths[i]);
      }
      sizes := sizes + [size.value];
    }
    assert paths[..|paths|] == paths;
    r := Ok(sizes);
  }

  lemma RemoveAllSnoc(files: map<FilePath, seq<bv8>>, paths: seq<FilePath>, i: nat)
    requires i < |paths|
    ensures RemoveAll(files, paths[..i + 1]) == RemoveAll(files, paths[..i]) - {paths[i]}
  {
    SliceSnoc(paths, i);
  }

  /** `for img_file in image_files: os.remove(img_file)`, each file being
      present when it is removed. */
  method RemoveFiles(disk: Disk, paths: seq<FilePath>)
    requires disk.Valid() && Distinct(paths) && forall k :: 0 <= k < |paths| ==> paths[k] in disk.files
    modifies disk
    ensures disk.Valid() && disk.files == RemoveAll(old(disk.files), paths) && disk.dirs == old(disk.dirs)
  {
    ghost var files0 := disk.files;
    for i := 0 to |paths|
      invariant disk.Valid() && disk.files == RemoveAll(files0, paths[..i]) && disk.dirs == old(disk.dirs)
    {
      assert paths[i] !in paths[..i];
      disk.RemoveFile(paths[i]);
      RemoveAllSnoc(files0, paths, i);
    }
    assert paths[..|paths|] == paths;
  }

  /** The `except` branch of `pdf_to_single_image`. */
  method CleanUp(disk: Disk, temp: string, e: PdfError) returns (r: Result<FilePath, PdfError>)
    requires disk.Valid()
    modifies disk
    ensures disk.Valid()
    ensures Merge(r, disk.dirs, disk.files) == Abandon(e, old(disk.dirs), old(disk.files), temp)
  {
    disk.ClearDir(temp);
    r := Err(MergeFailed(e));
  }

  /** The merge and clean-up once the pages are in `temp`. */
  method CombinePages(imaging: Imaging, disk: Disk, temp: string, images: seq<FilePath>,
                      outputFile: FilePath, format: string, layout: string) returns (r: Result<FilePath, PdfError>)
    requires disk.Valid() && temp in disk.dirs
    requires Distinct(images) && forall k :: 0 <= k < |images| ==> images[k] in disk.files
    modifies disk
    ensures disk.Valid()
    ensures Merge(r, disk.dirs, disk.files) == Combine(imaging, old(disk.dirs), old(disk.files), temp, images, outputFile, format, layout)
  {
    if images == [] {
      r := CleanUp(disk, temp, NoImages);
      return;
    }
    var opening := OpenImages(imaging, disk, images);
    if opening.Err? {
      r := CleanUp(disk, temp, ImageUnreadable(opening.error));
      return;
    }
    var sizes := opening.value;
    var vertical := layout == "vertical";
    var canvas := CanvasSize(sizes, vertical);
    var offsets := PasteOffsets(sizes, vertical);
    var merged := imaging.merge(canvas, Contents(disk.files, images), offsets, Upper(format));
    if merged.None? || outputFile.dir !in disk.dirs {
      r := CleanUp(disk, temp, MergedSaveFailed);
      return;
    }
    disk.WriteFile(outputFile, merged.value);
    RemoveFiles(disk, images);
    var removed := disk.RemoveDir(temp);
    if !removed {
      r := CleanUp(disk, temp, TempDirNotEmpty);
      return;
    }
    r := Ok(outputFile);
  }

  /** `pdf_to_single_image`, the whole document merged into one image:
      checks Pillow, makes `temp_images`, converts into it and merges. */
  method PdfToSingleImage<Page, Img>(pymupdf: PyMuPdf<Page>, pdf2image: Pdf2Image<Img>, imaging: Imaging,
                                     libs: Libraries, disk: Disk, input: FilePath, outputFile: FilePath,
                                     format: string, dpi: int, layout: string) returns (r: Result<FilePath, PdfError>)
    requires disk.Valid()
    modifies disk
    ensures disk.Valid()
    ensures var m := SingleImage(pymupdf, pdf2image, imaging, libs, old(disk.dirs), old(disk.files),
                                 input, outputFile, format, dpi, layout);
            r == m.result && disk.dirs == m.dirs && disk.files == m.files
  {
    if !libs.pil {
      return Err(PilMissing);
    }
    var tempDir := JoinDir(input.dir, "temp_images");
    disk.MakeDirs(tempDir);
    ghost var files0 := disk.files;
    var imageFiles := PdfToImage(pymupdf, pdf2image, libs, disk, input, Some(tempDir), format, dpi, None);
    assert disk.dirs == old(disk.dirs) + {tempDir};
    if imageFiles.Err? {
      r := CleanUp(disk, tempDir, imageFiles.error);
      return;
    }
    ConversionSucceeds(pymupdf, pdf2image, libs, files0, input, Some(tempDir), format, dpi, None);
    r := CombinePages(imaging, disk, tempDir, imageFiles.value, outputFile, format, layout);
  }

  /** With Pillow present, `pdf_to_single_image` always leaves
      `temp_images` removed and no file in it, whether it succeeds or not. */
  lemma SingleImageCleansUp<Page, Img>(pymupdf: PyMuPdf<Page>, pdf2image: Pdf2Image<Img>, imaging: Imaging, libs: Libraries,
                                       dirs: set<string>, files: map<FilePath, seq<bv8>>, input: FilePath,
                                       outputFile: FilePath, format: string, dpi: int, layout: string)
    requires libs.pil
    ensures var m := SingleImage(pymupdf, pdf2image, imaging, libs, dirs, files, input, outputFile, format, dpi, layout);
            m.dirs == dirs - {TempDir(input)} && !HoldsFiles(m.files, TempDir(input))
  {
    var temp := TempDir(input);
    var c := PdfConversion(pymupdf, pdf2image, libs, files, input, Some(temp), format, dpi, None);
    assert dirs + {temp} - {temp} == dirs - {temp};
    if c.result.Ok? {
      CombineCleansUp(imaging, dirs + {temp}, c.files, temp, c.result.value, outputFile, format, layout);
    }
  }

  /** The merge step, successful or not, removes `temp` and every file in it. */
  lemma CombineCleansUp(imaging: Imaging, dirs: set<string>, files: map<FilePath, seq<bv8>>, temp: string,
                        images: seq<FilePath>, outputFile: FilePath, format: string, layout: string)
    ensures var m := Combine(imaging, dirs, files, temp, images, outputFile, format, layout);
            m.dirs == dirs - {temp} && !HoldsFiles(m.files, temp)
  {
  }

  /** The merge step changes no file outside `temp` other than the output
      file, given page files that all lie in `temp`. */
  lemma CombineKeepsOthers(imaging: Imaging, dirs: set<string>, files: map<FilePath, seq<bv8>>, temp: string,
                           images: seq<FilePath>, outputFile: FilePath, format: string, layout: string)
    requires forall k :: 0 <= k < |images| ==> images[k].dir == temp
    ensures var m := Combine(imaging, dirs, files, temp, images, outputFile, format, layout);
            && (forall p: FilePath :: p.dir != temp && p != outputFile ==> (p in m.files <==> p in files))
            && (forall p: FilePath :: p.dir != temp && p != outputFile && p in files ==> m.files[p] == files[p])
  {
    forall p: FilePath | p.dir != temp
      ensures p !in images
    {
    }
  }

  /** A merge step that succeeds had pages, opened all of them, saved into
      an existing directory, and leaves the pasted canvas in the output file
      unless that file lies in `temp`. */
  lemma CombineSucceeds(imaging: Imaging, dirs: set<string>, files: map<FilePath, seq<bv8>>, temp: string,
                        images: seq<FilePath>, outputFile: FilePath, format: string, layout: string)
    requires forall k :: 0 <= k < |images| ==> images[k].dir == temp
    requires Combine(imaging, dirs, files, temp, images, outputFile, format, layout).result.Ok?
    ensures var m := Combine(imaging, dirs, files, temp, images, outputFile, format, layout);
            && m.result.value == outputFile
            && |images| > 0
            && (forall k :: 0 <= k < |images| ==> images[k] in files)
            && OpenAll(imaging, files, images).Ok?
            && outputFile.dir in dirs
            && (outputFile in m.files <==> outputFile.dir != temp)
            && var sizes, vertical := OpenAll(imaging, files, images).value, layout == "vertical";
               (outputFile.dir != temp ==>
                  imaging.merge(CanvasSize(sizes, vertical), Contents(files, images), Offsets(sizes, vertical), Upper(format))
                  == Some(m.files[outputFile]))
  {
    OpenAllMeaning(imaging, files, images);
    if outputFile.dir != temp {
      assert outputFile !in images;
    }
  }

  /** Merging the pages changes no file outside `temp_images` other than
      the output file: in particular the input survives unless it is the
      output file. */
  lemma SingleImageKeepsOthers<Page, Img>(pymupdf: PyMuPdf<Page>, pdf2image: Pdf2Image<Img>, imaging: Imaging, libs: Libraries,
                                          dirs: set<string>, files: map<FilePath, seq<bv8>>, input: FilePath,
                                          outputFile: FilePath, format: string, dpi: int, layout: string)
    ensures var m := SingleImage(pymupdf, pdf2image, imaging, libs, dirs, files, input, outputFile, format, dpi, layout);
            && (forall p: FilePath :: p.dir != TempDir(input) && p != outputFile ==> (p in m.files <==> p in files))
            && (forall p: FilePath :: p.dir != TempDir(input) && p != outputFile && p in files ==> m.files[p] == files[p])
            && (input in files && input != outputFile ==> input in m.files && m.files[input] == files[input])
  {
    var temp := TempDir(input);
    TempDirIsNotInputDir(input);
    if libs.pil {
      var c := PdfConversion(pymupdf, pdf2image, libs, files, input, Some(temp), format, dpi, None);
      ConversionKeepsOtherDirs(pymupdf, pdf2image, libs, files, input, Some(temp), format, dpi, None);
      if c.result.Ok? {
        ConversionSucceeds(pymupdf, pdf2image, libs, files, input, Some(temp), format, dpi, None);
        PageFilesInTemp(c.result.value, temp, Stem(input.name), format);
        CombineKeepsOthers(imaging, dirs + {temp}, c.files, temp, c.result.value, outputFile, format, layout);
      }
    }
  }

  lemma PageFilesInTemp(images: seq<FilePath>, temp: string, stem: string, format: string)
    requires forall k :: 0 <= k < |images| ==> IsPageFile(images[k], temp, stem, format)
    ensures forall k :: 0 <= k < |images| ==> images[k].dir == temp
  {
  }

  /** A merge that succeeds returns the output file; it rendered at least
      one page and opened every page; the output file's directory existed
      (or was `temp_images`); the output file holds the pasted canvas unless
      it lies in `temp_images` (then the clean-up deleted it). */
  lemma SingleImageSucceeds<Page, Img>(pymupdf: PyMuPdf<Page>, pdf2image: Pdf2Image<Img>, imaging: Imaging, libs: Libraries,
                                       dirs: set<string>, files: map<FilePath, seq<bv8>>, input: FilePath,
                                       outputFile: FilePath, format: string, dpi: int, layout: string)
    requires SingleImage(pymupdf, pdf2image, imaging, libs, dirs, files, input, outputFile, format, dpi, layout).result.Ok?
    ensures var m := SingleImage(pymupdf, pdf2image, imaging, libs, dirs, files, input, outputFile, format, dpi, layout);
            var temp := TempDir(input);
            var c := PdfConversion(pymupdf, pdf2image, libs, files, input, Some(temp), format, dpi, None);
            && libs.pil && m.result.value == outputFile
            && c.result.Ok? && |c.result.value| > 0
            && (forall k :: 0 <= k < |c.result.value| ==> c.result.value[k] in c.files)
            && OpenAll(imaging, c.files, c.result.value).Ok?
            && (outputFile.dir in dirs || outputFile.dir == temp)
            && (outputFile in m.files <==> outputFile.dir != temp)
            && var sizes, vertical := OpenAll(imaging, c.files, c.result.value).value, layout == "vertical";
               (outputFile.dir != temp ==>
                  imaging.merge(CanvasSize(sizes, vertical), Contents(c.files, c.result.value), Offsets(sizes, vertical), Upper(format))
                  == Some(m.files[outputFile]))
  {
    var temp := TempDir(input);
    var c := PdfConversion(pymupdf, pdf2image, libs, files, input, Some(temp), format, dpi, None);
    ConversionSucceeds(pymupdf, pdf2image, libs, files, input, Some(temp), format, dpi, None);
    PageFilesInTemp(c.result.value, temp, Stem(input.name), format);
    CombineSucceeds(imaging, dirs + {temp}, c.files, temp, c.result.value, outputFile, format, layout);
  }

  /** The `pdf_to_image` entry of `get_supported_formats`. */
  datatype FormatInfo = FormatInfo(available: bool, inputFormats: seq<string>, outputFormats: seq<string>,
                                   pymupdf: bool, pdf2image: bool)

  function SupportedFormats(libs: Libraries): (info: FormatInfo)
    ensures info.available <==> ChooseEngine(libs).Some?
    ensures info.pymupdf == libs.pymupdf && info.pdf2image == libs.pdf2image
  {
    FormatInfo(libs.pymupdf || libs.pdf2image, [".pdf"], SupportedOutputFormats, libs.pymupdf, libs.pdf2image)
  }

  /** The advertised formats are exactly the ones `pdf_to_image` accepts:
      the feature is available unless the library check fails, and a
      present input is accepted exactly when its suffix is an advertised
      input format and `'.' + format` an advertised output format. */
  lemma SupportedFormatsAgree(libs: Libraries, present: bool, input: FilePath, format: string)
    ensures var info := SupportedFormats(libs);
            && (info.available <==> CheckRequest(libs, present, input, format) != Err(NoPdfLibrary))
            && (CheckRequest(libs, present, input, format).Ok? <==>
                  info.available && present && Lower(Suffix(input.name)) in info.inputFormats
                  && "." + Lower(format) in info.outputFormats)
  {
    CheckRequestMeaning(libs, present, input, format);
  }
}
