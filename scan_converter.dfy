/** `ScanConverter.convert_to_scan`: the input checks, the output-path rule
    and the read, rectify, enhance, write sequence around the scan pipeline.
    The file system is the `Disk` object whose directories and files the
    conversion changes; decoding and encoding are passed in. */
module ScanConverter {
  import opened Wrappers
  import opened Paths
  import opened FileSystem
  import opened Raster
  import opened VisionOps
  import opened ScanEffect
  import opened DocumentDetect

  /** The extensions accepted as input, compared after lower-casing. */
  const SupportedFormats: seq<string> := [".jpg", ".jpeg", ".png", ".bmp", ".tiff", ".tif"]

  /** The exceptions `convert_to_scan` raises. */
  datatype ScanError =
    | OpenCvMissing
    | InputNotFound(input: FilePath)
    | UnsupportedFormat(suffix: string)
    | ReadFailed
    /** a `cv2.error` of the pipeline, re-raised as it is: the resize of a
        frame whose resized width is zero */
    | OpenCvFailed
    | SaveFailed

  /** `cv2.imdecode` and `cv2.imencode(".jpg", ..)`. */
  datatype Codec = Codec(decode: seq<bv8> -> Option<Grid<Bgr>>, encodeJpg: Grid<Bgr> -> Option<seq<bv8>>)
  {
    /** A decoded image is a non-empty three-channel 8-bit image. */
    ghost predicate Valid()
    {
      forall bytes :: decode(bytes).Some? ==> IsBgrImage(decode(bytes).value) && |decode(bytes).value| > 0
    }
  }

  /** The checks made before anything is read, in their order: OpenCV, the
      input's existence, then its suffix, lower-cased, against the list. */
  function CheckInput(cvAvailable: bool, present: bool, input: FilePath): (r: Result<(), ScanError>)
  {
    if !cvAvailable then Err(OpenCvMissing)
    else if !present then Err(InputNotFound(input))
    else if !Listed(Lower(Suffix(input.name)), SupportedFormats) then Err(UnsupportedFormat(Suffix(input.name)))
    else Ok(())
  }

  /** The input is accepted exactly when all three checks pass, and each
      failure is reported by the first check that fails. */
  lemma CheckInputMeaning(cvAvailable: bool, present: bool, input: FilePath)
    ensures CheckInput(cvAvailable, present, input).Ok? <==> cvAvailable && present && Lower(Suffix(input.name)) in SupportedFormats
    ensures CheckInput(cvAvailable, present, input) == Err(OpenCvMissing) <==> !cvAvailable
    ensures CheckInput(cvAvailable, present, input) == Err(InputNotFound(input)) <==> cvAvailable && !present
    ensures CheckInput(cvAvailable, present, input) == Err(UnsupportedFormat(Suffix(input.name))) <==>
              cvAvailable && present && Lower(Suffix(input.name)) !in SupportedFormats
  {
    ListedIsIn(Lower(Suffix(input.name)), SupportedFormats);
  }

  /** A name without an extension is always refused. */
  lemma NoSuffixRejected(input: FilePath)
    requires !HasSuffix(input.name)
    ensures CheckInput(true, true, input) == Err(UnsupportedFormat(""))
  {
    assert Lower("") == "";
  }

  /** `output_dir / f"{stem}_scan.jpg"`, the directory defaulting to the
      input's own. */
  function OutputPath(input: FilePath, outputDir: Option<string>): FilePath
  {
    var dir := if outputDir.Some? then outputDir.value else input.dir;
    FilePath(dir, Stem(input.name) + "_scan.jpg")
  }

  /** The output is a ".jpg" file whose stem is the input's stem followed by
      "_scan", in the chosen directory. */
  lemma OutputPathIsJpg(input: FilePath, outputDir: Option<string>)
    ensures OutputPath(input, outputDir).dir == if outputDir.Some? then outputDir.value else input.dir
    ensures Suffix(OutputPath(input, outputDir).name) == ".jpg"
    ensures Stem(OutputPath(input, outputDir).name) == Stem(input.name) + "_scan"
  {
    var stem := Stem(input.name);
    var base := stem + "_scan";
    var name := OutputPath(input, outputDir).name;
    assert "_scan.jpg" == "_scan" + ("." + "jpg");
    assert name == base + "." + "jpg";
    assert '.' !in "jpg";
    SuffixOfAppend(base, "jpg");
  }

  /** Written next to its input, the output never replaces the input. */
  lemma OutputNeverInput(input: FilePath)
    ensures OutputPath(input, None) != input
  {
    var out := OutputPath(input, None);
    var s := Stem(input.name);
    StemSuffixSplit(input.name);
    if HasSuffix(input.name) {
      assert input.name[|s|] == Suffix(input.name)[0] == '.';
      assert out.name[|s|] == '_';
    } else {
      assert |out.name| != |input.name|;
    }
  }

  lemma AppendCancel(x: string, y: string, z: string)
    ensures x + z == y + z ==> x == y
  {
    if x + z == y + z {
      assert x == (x + z)[..|x|];
      assert |x| == |y|;
      assert y == (y + z)[..|y|];
    }
  }

  /** Two inputs written to one directory get the same output path exactly
      when their stems agree. */
  lemma OutputPathInjective(a: FilePath, b: FilePath, outputDir: Option<string>)
    requires outputDir.Some? || a.dir == b.dir
    ensures OutputPath(a, outputDir) == OutputPath(b, outputDir) <==> Stem(a.name) == Stem(b.name)
  {
    AppendCancel(Stem(a.name), Stem(b.name), "_scan.jpg");
  }

  /** The image that is encoded: the rectified (or original) frame with the
      scan effect applied; `None` when detection raises. */
  function ScanImage(ops: Ops, image: Grid<Bgr>): (r: Option<Grid<Bgr>>)
    requires ops.Valid() && IsBgrImage(image) && |image| > 0
    ensures r.None? <==> ResizedWidth(image) == 0
    ensures r.Some? ==> IsBgrImage(r.value)
  {
    match Detect(ops, image)
    case None => None
    case Some(warped) => Some(ProcessScanEffect(ops, warped))
  }

  /** When no document outline is found the output keeps the input's size,
      and every pixel is the input pixel or its enhanced gray. */
  lemma ScanImageWithoutOutline(ops: Ops, image: Grid<Bgr>, i: nat, j: nat)
    requires ops.Valid() && IsBgrImage(image) && |image| > 0 && ResizedWidth(image) > 0
    requires Outline(ops, Candidates(ops, image), ResizedWidth(image) * DetectHeight).None?
    requires i < |image| && j < Width(image)
    ensures ScanImage(ops, image).Some? && SameShape(ScanImage(ops, image).value, image)
    ensures var v, s := Enhance(ops, GrayOf(ops, image))[i][j], ScanImage(ops, image).value;
            s[i][j] == image[i][j] || s[i][j] == Bgr(v, v, v)
  {
    assert Detect(ops, image) == Some(image);
    ProcessScanEffectPixel(ops, image, i, j);
  }

  /** The whole image pipeline as one function on decoded images. */
  ghost function Pipeline(ops: Ops): Grid<Bgr> -> Option<Grid<Bgr>>
  {
    image => if ops.Valid() && IsBgrImage(image) && |image| > 0 then ScanImage(ops, image) else Some(image)
  }

  /** The file a successful conversion writes. */
  datatype Saved = Saved(path: FilePath, jpeg: seq<bv8>)

  /** What `convert_to_scan` writes and returns, or raises, given the file
      contents before the call and the image pipeline `scan`. */
  function Convert(codec: Codec, cvAvailable: bool, files: map<FilePath, seq<bv8>>,
                   input: FilePath, outputDir: Option<string>, scan: Grid<Bgr> -> Option<Grid<Bgr>>): (r: Result<Saved, ScanError>)
    ensures r.Ok? ==> CheckInput(cvAvailable, input in files, input).Ok? && r.value.path == OutputPath(input, outputDir)
    ensures r.Ok? ==> input in files && codec.decode(files[input]).Some?
    ensures CheckInput(cvAvailable, input in files, input).Err? ==> r == Err(CheckInput(cvAvailable, input in files, input).error)
  {
    var check := CheckInput(cvAvailable, input in files, input);
    if check.Err? then Err(check.error)
    else
      var image := codec.decode(files[input]);
      if image.None? then Err(ReadFailed)
      else
        var result := scan(image.value);
        if result.None? then Err(OpenCvFailed)
        else
          var buffer := codec.encodeJpg(result.value);
          if buffer.None? then Err(SaveFailed)
          else Ok(Saved(OutputPath(input, outputDir), buffer.value))
  }

  /** Once the input checks pass, an input that does not decode is a read failure. */
  lemma ConvertUndecodable(codec: Codec, cvAvailable: bool, files: map<FilePath, seq<bv8>>,
                           input: FilePath, outputDir: Option<string>, scan: Grid<Bgr> -> Option<Grid<Bgr>>)
    requires CheckInput(cvAvailable, input in files, input).Ok?
    ensures codec.decode(files[input]).None? ==> Convert(codec, cvAvailable, files, input, outputDir, scan) == Err(ReadFailed)
  {
  }

  /** Once the input checks pass, an input that decodes is converted exactly when
      the pipeline does not raise and its image encodes, and the encoded bytes
      are what is saved. */
  lemma ConvertDecodable(codec: Codec, cvAvailable: bool, files: map<FilePath, seq<bv8>>,
                         input: FilePath, outputDir: Option<string>, scan: Grid<Bgr> -> Option<Grid<Bgr>>)
    requires CheckInput(cvAvailable, input in files, input).Ok? && codec.decode(files[input]).Some?
    ensures var result := scan(codec.decode(files[input]).value);
            result.None? ==> Convert(codec, cvAvailable, files, input, outputDir, scan) == Err(OpenCvFailed)
    ensures var result := scan(codec.decode(files[input]).value);
            result.Some? ==>
              var buffer := codec.encodeJpg(result.value);
              && (Convert(codec, cvAvailable, files, input, outputDir, scan).Ok? <==> buffer.Some?)
              && (buffer.Some? ==> Convert(codec, cvAvailable, files, input, outputDir, scan).value.jpeg == buffer.value)
              && (buffer.None? ==> Convert(codec, cvAvailable, files, input, outputDir, scan) == Err(SaveFailed))
  {
  }

  /** With the scan pipeline, an accepted input that decodes fails with the
      OpenCV error exactly when its resized width is zero, that is when it is
      more than 500 times taller than it is wide. */
  lemma ConvertNarrowImage(ops: Ops, codec: Codec, cvAvailable: bool, files: map<FilePath, seq<bv8>>,
                           input: FilePath, outputDir: Option<string>)
    requires ops.Valid() && codec.Valid()
    requires CheckInput(cvAvailable, input in files, input).Ok? && codec.decode(files[input]).Some?
    ensures var image := codec.decode(files[input]).value;
            Convert(codec, cvAvailable, files, input, outputDir, Pipeline(ops)) == Err(OpenCvFailed) <==>
              Width(image) * DetectHeight < |image|
  {
    var image := codec.decode(files[input]).value;
    PipelineRaises(ops, image);
    ConvertDecodable(codec, cvAvailable, files, input, outputDir, Pipeline(ops));
  }

  /** The pipeline raises on a decoded image exactly when the image is more
      than 500 times taller than it is wide. */
  lemma PipelineRaises(ops: Ops, image: Grid<Bgr>)
    requires ops.Valid() && IsBgrImage(image) && |image| > 0
    ensures Pipeline(ops)(image).None? <==> Width(image) * DetectHeight < |image|
  {
    NarrowFrame(image);
    assert Pipeline(ops)(image) == ScanImage(ops, image);
  }

  /** Steps 1 and 2 of `convert_to_scan`: rectify, then apply the scan effect. */
  method ScanDecoded(ops: Ops, image: Grid<Bgr>) returns (result: Option<Grid<Bgr>>)
    requires ops.Valid() && IsBgrImage(image) && |image| > 0
    ensures result == ScanImage(ops, image)
  {
    var warped, _ := DetectDocument(ops, image);
    if warped.None? {
      return None;
    }
    result := Some(ProcessScanEffect(ops, warped.value));
  }

  /** `convert_to_scan`: checks the input, creates the output directory when
      one is given, decodes, rectifies, applies the scan effect, encodes and
      writes; the file is written only when encoding succeeds. */
  method ConvertToScan(ops: Ops, codec: Codec, cvAvailable: bool, disk: Disk,
                       input: FilePath, outputDir: Option<string>) returns (r: Result<FilePath, ScanError>)
    requires ops.Valid() && codec.Valid() && disk.Valid()
    modifies disk
    ensures var c := Convert(codec, cvAvailable, old(disk.files), input, outputDir, Pipeline(ops));
            && (c.Ok? ==> r == Ok(c.value.path) && disk.files == old(disk.files)[c.value.path := c.value.jpeg])
            && (c.Err? ==> r == Err(c.error) && disk.files == old(disk.files))
    ensures disk.Valid()
    ensures disk.dirs == if CheckInput(cvAvailable, input in old(disk.files), input).Ok? && outputDir.Some?
                         then old(disk.dirs) + {outputDir.value} else old(disk.dirs)
  {
    if !cvAvailable {
      return Err(OpenCvMissing);
    }
    if input !in disk.files {
      return Err(InputNotFound(input));
    }
    var suffix := Suffix(input.name);
    if !Listed(Lower(suffix), SupportedFormats) {
      return Err(UnsupportedFormat(suffix));
    }
    ghost var files0 := disk.files;
    assert CheckInput(cvAvailable, input in files0, input).Ok?;
    var dir := input.dir;
    if outputDir.Some? {
      dir := outputDir.value;
      disk.MakeDirs(dir);
    }
    var outputFile := FilePath(dir, Stem(input.name) + "_scan.jpg");
    assert outputFile == OutputPath(input, outputDir);
    assert outputFile.dir in disk.dirs;
    var image := codec.decode(disk.files[input]);
    assert disk.files == files0;
    if image.None? {
      ConvertUndecodable(codec, cvAvailable, files0, input, outputDir, Pipeline(ops));
      return Err(ReadFailed);
    }
    ConvertDecodable(codec, cvAvailable, files0, input, outputDir, Pipeline(ops));
    var result := ScanDecoded(ops, image.value);
    assert result == Pipeline(ops)(image.value);
    if result.None? {
      return Err(OpenCvFailed);
    }
    var buffer := codec.encodeJpg(result.value);
    if buffer.Some? {
      disk.WriteFile(outputFile, buffer.value);
      return Ok(outputFile);
    } else {
      return Err(SaveFailed);
    }
  }
}
