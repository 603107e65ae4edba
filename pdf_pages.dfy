/** The page bookkeeping of `PdfImageConverter`: clamping the requested page
    range, naming each page's file, and the two page loops
    (`_pdf_to_image_pymupdf`, `_pdf_to_image_pdf2image`) that render or save
    one page after another and collect the written paths. PyMuPDF and
    pdf2image themselves are passed in as functions. */
module PdfPages {
  import opened Wrappers
  import opened MinMax
  import opened Paths
  import opened Decimal
  import opened FileSystem

  /** `page_range`: the first and the last page wanted, 1-based and inclusive. */
  datatype PageRange = PageRange(first: int, last: int)

  /** Page indices `range(start, end)`: 0-based, the end excluded. */
  datatype Span = Span(start: int, end: int)

  /** The start and end page indices of the PyMuPDF path: every page, or the
      requested range moved to 0-based indices and cut to the document. */
  function ClampRange(total: nat, range: Option<PageRange>): (s: Span)
    ensures 0 <= s.start && s.end <= total
    ensures range.None? ==> s == Span(0, total)
  {
    match range
    case None => Span(0, total)
    case Some(r) => Span(Max(0, r.first - 1), Min(total, r.last))
  }

  /** How many indices `range(start, end)` visits. */
  function PageCount(s: Span): nat
  {
    Max(0, s.end - s.start)
  }

  /** The indices visited are exactly the document's pages whose 1-based
      number lies in the requested range. */
  lemma ClampRangeMeaning(total: nat, range: Option<PageRange>, index: int)
    ensures var s := ClampRange(total, range);
            s.start <= index < s.end <==>
              0 <= index < total && (range.Some? ==> range.value.first <= index + 1 <= range.value.last)
  {
  }

  /** `f"{stem}_page_{number:03d}.{output_format.lower()}"`. */
  function PageFileName(stem: string, number: int, format: string): string
  {
    stem + "_page_" + Pad3(number) + "." + Lower(format)
  }

  /** Two pages of one document get the same file name exactly when they
      have the same number. */
  lemma PageFileNameInjective(stem: string, a: int, b: int, format: string)
    ensures PageFileName(stem, a, format) == PageFileName(stem, b, format) <==> a == b
  {
    if PageFileName(stem, a, format) == PageFileName(stem, b, format) {
      Regroup(stem, "_page_", Pad3(a), ".", Lower(format));
      Regroup(stem, "_page_", Pad3(b), ".", Lower(format));
      MiddleCancel(stem + "_page_", Pad3(a), Pad3(b), "." + Lower(format));
      Pad3Injective(a, b);
    }
  }

  lemma Regroup(s1: string, s2: string, m: string, t1: string, t2: string)
    ensures s1 + s2 + m + t1 + t2 == (s1 + s2) + m + (t1 + t2)
  {
  }

  /** Equal strings with equal beginnings and endings have equal middles. */
  lemma MiddleCancel(p: string, x: string, y: string, e: string)
    requires p + x + e == p + y + e
    ensures x == y
  {
    var l := |p + x + e|;
    assert |x| == |y|;
    assert x == (p + x + e)[|p|..l - |e|];
    assert y == (p + y + e)[|p|..l - |e|];
  }

  /** A page file's suffix is the lower-cased format and its stem is the
      document's stem, "_page_" and the padded number. */
  lemma PageFileNameParts(stem: string, number: int, format: string)
    requires |format| > 0 && '.' !in format
    ensures Suffix(PageFileName(stem, number, format)) == "." + Lower(format)
    ensures Stem(PageFileName(stem, number, format)) == stem + "_page_" + Pad3(number)
  {
    var ext := Lower(format);
    forall k | 0 <= k < |ext|
      ensures ext[k] != '.'
    {
      LowerAt(format, k);
    }
    SuffixOfAppend(stem + "_page_" + Pad3(number), ext);
  }

  /** Page numbers in strictly increasing order. */
  predicate Increasing(numbers: seq<int>)
  {
    forall i, j :: 0 <= i < j < |numbers| ==> numbers[i] < numbers[j]
  }

  /** The PyMuPDF path numbers index `page_num` as `page_num + 1`. */
  function PymupdfNumbers(s: Span): seq<int>
  {
    seq(PageCount(s), k => s.start + k + 1)
  }

  /** The pdf2image path numbers its i-th image `i + 1`, or
      `page_range[0] + i` when a range is given. */
  function Pdf2imageNumbers(count: nat, range: Option<PageRange>): seq<int>
  {
    seq(count, i => if range.None? then i + 1 else range.value.first + i)
  }

  /** Both engines number their pages in increasing order. */
  lemma NumbersIncrease(s: Span, count: nat, range: Option<PageRange>)
    ensures Increasing(PymupdfNumbers(s)) && Increasing(Pdf2imageNumbers(count, range))
  {
  }

  /** With no range both engines number every page from 1; with a range
      that starts at page 1 or later, and pdf2image producing the pages of
      that range present in the document, both engines number the same pages
      the same way. */
  lemma EnginesNumberAlike(total: nat, range: Option<PageRange>, count: nat)
    requires range.None? ==> count == total
    requires range.Some? ==> range.value.first >= 1 && count == PageCount(ClampRange(total, range))
    ensures Pdf2imageNumbers(count, range) == PymupdfNumbers(ClampRange(total, range))
  {
  }

  /** The paths written for the given page numbers, in order. */
  function PagePaths(dir: string, stem: string, format: string, numbers: seq<int>): (r: seq<FilePath>)
    ensures |r| == |numbers|
  {
    seq(|numbers|, k requires 0 <= k < |numbers| => FilePath(dir, PageFileName(stem, numbers[k], format)))
  }

  /** Pages numbered in increasing order are written to distinct files. */
  lemma PagePathsDistinct(dir: string, stem: string, format: string, numbers: seq<int>)
    requires Increasing(numbers)
    ensures Distinct(PagePaths(dir, stem, format, numbers))
  {
    var paths := PagePaths(dir, stem, format, numbers);
    forall i, j | 0 <= i < j < |paths|
      ensures paths[i] != paths[j]
    {
      PageFileNameInjective(stem, numbers[i], numbers[j], format);
    }
  }

  /** How one page is saved: as JPEG (PyMuPDF's `output="jpeg"`, PIL's
      `'JPEG', quality=95`) or under a named format. */
  datatype Encoding = Jpeg(quality: Option<int>) | Named(format: string)

  /** `output_format.lower() in ['jpg', 'jpeg']` */
  predicate IsJpeg(format: string)
  {
    Lower(format) == "jpg" || Lower(format) == "jpeg"
  }

  /** PyMuPDF saves JPEG explicitly and any other format by the file's
      extension. */
  function PymupdfEncoding(format: string): Encoding
  {
    if IsJpeg(format) then Jpeg(None) else Named(Lower(format))
  }

  /** pdf2image's images are saved by PIL as JPEG at quality 95 or under the
      upper-cased format name. */
  function Pdf2imageEncoding(format: string): Encoding
  {
    if IsJpeg(format) then Jpeg(Some(95)) else Named(Upper(format))
  }

  /** PyMuPDF: `fitz.open` on the file's bytes, and `page.get_pixmap(..)`
      followed by `pix.save(..)` on one page at a dpi; `None` where the
      library raises. */
  datatype PyMuPdf<!Page> = PyMuPdf(open: seq<bv8> -> Option<seq<Page>>,
                                   render: (Page, int, Encoding) -> Option<seq<bv8>>)

  /** pdf2image: `convert_from_path(dpi, first_page, last_page)` on the file's
      bytes, and PIL's `image.save(..)` of one image; `None` where the
      library raises. */
  datatype Pdf2Image<!Img> = Pdf2Image(convert: (seq<bv8>, int, Option<int>, Option<int>) -> Option<seq<Img>>,
                                      save: (Img, Encoding) -> Option<seq<bv8>>)

  /** The exceptions the page loops let through. */
  datatype EngineError = OpenFailed | PageFailed(number: int)

  /** How many pages were saved before the first one that failed. */
  function SavedCount(results: seq<Option<seq<bv8>>>): (n: nat)
    ensures n <= |results|
  {
    if results == [] then 0
    else if results[0].None? then 0
    else 1 + SavedCount(results[1..])
  }

  /** The saved count is the position of the first failure, or the number
      of pages when none failed. */
  lemma {:induction false} SavedCountMeaning(results: seq<Option<seq<bv8>>>)
    ensures forall k :: 0 <= k < SavedCount(results) ==> results[k].Some?
    ensures SavedCount(results) < |results| ==> results[SavedCount(results)].None?
    decreases |results|
  {
    if results != [] && results[0].Some? {
      SavedCountMeaning(results[1..]);
      assert forall k :: 1 <= k < |results| ==> results[1..][k - 1] == results[k];
    }
  }

  /** The bytes of the first `n` pages, all of which were saved. */
  function Payloads(results: seq<Option<seq<bv8>>>, n: nat): seq<seq<bv8>>
    requires n <= SavedCount(results)
  {
    SavedCountMeaning(results);
    seq(n, k requires 0 <= k < n => results[k].value)
  }

  /** What a page loop leaves behind: the paths it returns or the exception
      it raises, and the files. */
  datatype Outcome = Outcome(result: Result<seq<FilePath>, EngineError>, files: map<FilePath, seq<bv8>>)

  /** Pages are saved in order until the first failure; the list of paths
      is returned only when every page was saved. */
  function Run(files: map<FilePath, seq<bv8>>, paths: seq<FilePath>, numbers: seq<int>,
               results: seq<Option<seq<bv8>>>): Outcome
    requires |paths| == |numbers| == |results|
  {
    var n := SavedCount(results);
    Outcome(if n == |results| then Ok(paths) else Err(PageFailed(numbers[n])),
            WriteAll(files, paths[..n], Payloads(results, n)))
  }

  /** A run whose page `i` is the first to fail raises for that page and
      leaves the pages before it saved. */
  lemma RunStops(files: map<FilePath, seq<bv8>>, paths: seq<FilePath>, numbers: seq<int>,
                 results: seq<Option<seq<bv8>>>, i: nat)
    requires |paths| == |numbers| == |results|
    requires i < |results| && results[i].None? && i <= SavedCount(results)
    ensures Run(files, paths, numbers, results) == Outcome(Err(PageFailed(numbers[i])), WriteAll(files, paths[..i], Payloads(results, i)))
  {
    SavedCountMeaning(results);
    assert SavedCount(results) == i;
  }

  /** A run in which every page is saved returns every path. */
  lemma RunCompletes(files: map<FilePath, seq<bv8>>, paths: seq<FilePath>, numbers: seq<int>,
                     results: seq<Option<seq<bv8>>>)
    requires |paths| == |numbers| == |results|
    requires SavedCount(results) == |results|
    ensures Run(files, paths, numbers, results) == Outcome(Ok(paths), WriteAll(files, paths[..|paths|], Payloads(results, |results|)))
  {
    SavedCountMeaning(results);
  }

  /** A page saved right after the saved ones extends the count. */
  lemma SavedCountStep(results: seq<Option<seq<bv8>>>, i: nat)
    requires i <= SavedCount(results) && i < |results| && results[i].Some?
    ensures i < SavedCount(results)
  {
    SavedCountMeaning(results);
  }

  lemma SliceSnoc<T>(s: seq<T>, i: nat)
    requires i < |s|
    ensures s[..i + 1] == s[..i] + [s[i]]
  {
  }

  /** Saving page `i` extends the files left by saving the pages before it. */
  lemma SaveStep(files: map<FilePath, seq<bv8>>, paths: seq<FilePath>, results: seq<Option<seq<bv8>>>, i: nat)
    requires i < |paths| == |results|
    requires i < SavedCount(results) && results[i].Some?
    ensures WriteAll(files, paths[..i + 1], Payloads(results, i + 1))
            == WriteAll(files, paths[..i], Payloads(results, i))[paths[i] := results[i].value]
  {
    SliceSnoc(paths, i);
    assert Payloads(results, i + 1) == Payloads(results, i) + [results[i].value];
    WriteAllSnoc(files, paths[..i], Payloads(results, i), paths[i], results[i].value);
  }

  /** What each page of `range(start, end)` renders to. */
  function PymupdfResults<Page>(engine: PyMuPdf<Page>, pages: seq<Page>, dpi: int, format: string, s: Span): (r: seq<Option<seq<bv8>>>)
    requires 0 <= s.start && s.end <= |pages|
    ensures |r| == PageCount(s)
  {
    seq(PageCount(s), k requires 0 <= k < PageCount(s) => engine.render(pages[s.start + k], dpi, PymupdfEncoding(format)))
  }

  /** What `_pdf_to_image_pymupdf` returns and writes. */
  function Pymupdf<Page>(engine: PyMuPdf<Page>, files: map<FilePath, seq<bv8>>, input: FilePath,
                         dir: string, format: string, dpi: int, range: Option<PageRange>): Outcome
    requires input in files
  {
    match engine.open(files[input])
    case None => Outcome(Err(OpenFailed), files)
    case Some(pages) =>
      var s := ClampRange(|pages|, range);
      var numbers := PymupdfNumbers(s);
      Run(files, PagePaths(dir, Stem(input.name), format, numbers), numbers, PymupdfResults(engine, pages, dpi, format, s))
  }

  /** `first_page, last_page = page_range`, or neither. */
  function Bounds(range: Option<PageRange>): (Option<int>, Option<int>)
  {
    if range.None? then (None, None) else (Some(range.value.first), Some(range.value.last))
  }

  /** What each converted image saves to. */
  function Pdf2imageResults<Img>(engine: Pdf2Image<Img>, images: seq<Img>, format: string): (r: seq<Option<seq<bv8>>>)
    ensures |r| == |images|
  {
    seq(|images|, k requires 0 <= k < |images| => engine.save(images[k], Pdf2imageEncoding(format)))
  }

  /** What `_pdf_to_image_pdf2image` returns and writes. */
  function Pdf2imageRun<Img>(engine: Pdf2Image<Img>, files: map<FilePath, seq<bv8>>, input: FilePath,
                             dir: string, format: string, dpi: int, range: Option<PageRange>): Outcome
    requires input in files
  {
    match engine.convert(files[input], dpi, Bounds(range).0, Bounds(range).1)
    case None => Outcome(Err(OpenFailed), files)
    case Some(images) =>
      var numbers := Pdf2imageNumbers(|images|, range);
      Run(files, PagePaths(dir, Stem(input.name), format, numbers), numbers, Pdf2imageResults(engine, images, format))
  }

  /** The paths are returned, in page order, exactly when every page was
      saved; otherwise the number of the first page that failed is
      reported. */
  lemma RunResult(files: map<FilePath, seq<bv8>>, paths: seq<FilePath>, numbers: seq<int>,
                  results: seq<Option<seq<bv8>>>)
    requires |paths| == |numbers| == |results|
    ensures var o := Run(files, paths, numbers, results);
            var n := SavedCount(results);
            && (o.result.Ok? <==> forall k :: 0 <= k < |results| ==> results[k].Some?)
            && (o.result.Ok? ==> o.result.value == paths)
            && (o.result.Err? ==> n < |results| && results[n].None? && o.result == Err(PageFailed(numbers[n])))
  {
    SavedCountMeaning(results);
  }

  /** Every page saved before the first failure is in its own file. */
  lemma RunSavesPages(files: map<FilePath, seq<bv8>>, paths: seq<FilePath>, numbers: seq<int>,
                      results: seq<Option<seq<bv8>>>)
    requires |paths| == |numbers| == |results| && Distinct(paths)
    ensures var o := Run(files, paths, numbers, results);
            forall k :: 0 <= k < SavedCount(results) ==>
              results[k].Some? && paths[k] in o.files && o.files[paths[k]] == results[k].value
  {
    var n := SavedCount(results);
    SavedCountMeaning(results);
    DistinctPrefix(paths, n);
    var data := Payloads(results, n);
    WriteAllMeaning(files, paths[..n], data);
    assert forall k :: 0 <= k < n ==> data[k] == results[k].value;
  }

  /** A run changes no file other than the pages it saved. */
  lemma RunKeepsOthers(files: map<FilePath, seq<bv8>>, paths: seq<FilePath>, numbers: seq<int>,
                       results: seq<Option<seq<bv8>>>)
    requires |paths| == |numbers| == |results| && Distinct(paths)
    ensures var o := Run(files, paths, numbers, results);
            var n := SavedCount(results);
            && (forall p :: p !in paths[..n] ==> (p in o.files <==> p in files))
            && (forall p :: p !in paths[..n] && p in files ==> o.files[p] == files[p])
  {
    var n := SavedCount(results);
    DistinctPrefix(paths, n);
    WriteAllMeaning(files, paths[..n], Payloads(results, n));
  }

  /** A run that returns its paths has saved every page under its own
      path and changed no other file. */
  lemma RunSucceeds(files: map<FilePath, seq<bv8>>, paths: seq<FilePath>, numbers: seq<int>,
                    results: seq<Option<seq<bv8>>>)
    requires |paths| == |numbers| == |results| && Distinct(paths)
    requires Run(files, paths, numbers, results).result.Ok?
    ensures var o := Run(files, paths, numbers, results);
            && o.result.value == paths
            && (forall k :: 0 <= k < |paths| ==> results[k].Some? && paths[k] in o.files && o.files[paths[k]] == results[k].value)
            && (forall p :: p !in paths ==> (p in o.files <==> p in files))
            && (forall p :: p !in paths && p in files ==> o.files[p] == files[p])
  {
    assert SavedCount(results) == |results|;
    assert paths[..|paths|] == paths;
    RunSavesPages(files, paths, numbers, results);
    RunKeepsOthers(files, paths, numbers, results);
  }

  /** A run over page paths that returns its paths returns one path per
      page number, each named by its number and holding that page's
      bytes, and leaves every other file as it was. */
  lemma PagesSucceed(files: map<FilePath, seq<bv8>>, dir: string, stem: string, format: string,
                     numbers: seq<int>, results: seq<Option<seq<bv8>>>)
    requires |numbers| == |results| && Increasing(numbers)
    requires Run(files, PagePaths(dir, stem, format, numbers), numbers, results).result.Ok?
    ensures var o := Run(files, PagePaths(dir, stem, format, numbers), numbers, results);
            var out := o.result.value;
            && |out| == |numbers|
            && Distinct(out)
            && (forall k :: 0 <= k < |out| ==>
                  && out[k] == FilePath(dir, PageFileName(stem, numbers[k], format))
                  && out[k] in o.files
                  && results[k] == Some(o.files[out[k]]))
  {
    var paths := PagePaths(dir, stem, format, numbers);
    PagePathsDistinct(dir, stem, format, numbers);
    RunSucceeds(files, paths, numbers, results);
  }

  /** Such a run changes no file but the pages it returns. */
  lemma PagesKeepOthers(files: map<FilePath, seq<bv8>>, dir: string, stem: string, format: string,
                        numbers: seq<int>, results: seq<Option<seq<bv8>>>)
    requires |numbers| == |results| && Increasing(numbers)
    requires Run(files, PagePaths(dir, stem, format, numbers), numbers, results).result.Ok?
    ensures var o := Run(files, PagePaths(dir, stem, format, numbers), numbers, results);
            var out := o.result.value;
            && (forall p :: p !in out ==> (p in o.files <==> p in files))
            && (forall p :: p !in out && p in files ==> o.files[p] == files[p])
  {
    var paths := PagePaths(dir, stem, format, numbers);
    PagePathsDistinct(dir, stem, format, numbers);
    RunSucceeds(files, paths, numbers, results);
  }

  /** The pages rendered from a clamped range, saved by a run that
      returns its paths: one path per index of the range, named by the
      index's 1-based number and holding that page's rendering. */
  lemma RenderedRunSucceeds<Page>(engine: PyMuPdf<Page>, files: map<FilePath, seq<bv8>>, stem: string, dir: string,
                                  format: string, dpi: int, pages: seq<Page>, s: Span)
    requires 0 <= s.start && s.end <= |pages|
    requires var numbers := PymupdfNumbers(s);
             Run(files, PagePaths(dir, stem, format, numbers), numbers, PymupdfResults(engine, pages, dpi, format, s)).result.Ok?
    ensures var numbers := PymupdfNumbers(s);
            var o := Run(files, PagePaths(dir, stem, format, numbers), numbers, PymupdfResults(engine, pages, dpi, format, s));
            var out := o.result.value;
            && |out| == PageCount(s)
            && (forall k :: 0 <= k < |out| ==>
                  && out[k] == FilePath(dir, PageFileName(stem, s.start + k + 1, format))
                  && out[k] in o.files
                  && engine.render(pages[s.start + k], dpi, PymupdfEncoding(format)) == Some(o.files[out[k]]))
  {
    var numbers := PymupdfNumbers(s);
    var results := PymupdfResults(engine, pages, dpi, format, s);
    NumbersIncrease(s, 0, None);
    PagesSucceed(files, dir, stem, format, numbers, results);
    var o := Run(files, PagePaths(dir, stem, format, numbers), numbers, results);
    var out := o.result.value;
    forall k | 0 <= k < |out|
      ensures out[k] == FilePath(dir, PageFileName(stem, s.start + k + 1, format))
      ensures engine.render(pages[s.start + k], dpi, PymupdfEncoding(format)) == Some(o.files[out[k]])
    {
      assert numbers[k] == s.start + k + 1;
      assert results[k] == engine.render(pages[s.start + k], dpi, PymupdfEncoding(format));
    }
  }

  /** When the PyMuPDF path succeeds it returns, in page order, one path per
      page of the clamped range (`ClampRangeMeaning` says which pages those
      are), named by the page's 1-based number and holding that page's
      rendering. */
  lemma PymupdfSucceeds<Page>(engine: PyMuPdf<Page>, files: map<FilePath, seq<bv8>>, input: FilePath, dir: string,
                              format: string, dpi: int, range: Option<PageRange>, pages: seq<Page>)
    requires input in files && engine.open(files[input]) == Some(pages)
    requires Pymupdf(engine, files, input, dir, format, dpi, range).result.Ok?
    ensures var s := ClampRange(|pages|, range);
            var o := Pymupdf(engine, files, input, dir, format, dpi, range);
            var out := o.result.value;
            && |out| == PageCount(s)
            && (forall k :: 0 <= k < |out| ==>
                  && 0 <= s.start + k < |pages|
                  && out[k] == FilePath(dir, PageFileName(Stem(input.name), s.start + k + 1, format))
                  && out[k] in o.files
                  && engine.render(pages[s.start + k], dpi, PymupdfEncoding(format)) == Some(o.files[out[k]]))
  {
    var s := ClampRange(|pages|, range);
    var numbers := PymupdfNumbers(s);
    assert Pymupdf(engine, files, input, dir, format, dpi, range)
        == Run(files, PagePaths(dir, Stem(input.name), format, numbers), numbers, PymupdfResults(engine, pages, dpi, format, s));
    RenderedRunSucceeds(engine, files, Stem(input.name), dir, format, dpi, pages, s);
  }

  /** When the pdf2image path succeeds it returns one path per converted
      image, in order, named `i + 1` or `page_range[0] + i` and holding that
      image as saved. */
  lemma Pdf2imageSucceeds<Img>(engine: Pdf2Image<Img>, files: map<FilePath, seq<bv8>>, input: FilePath, dir: string,
                               format: string, dpi: int, range: Option<PageRange>, images: seq<Img>)
    requires input in files && engine.convert(files[input], dpi, Bounds(range).0, Bounds(range).1) == Some(images)
    requires Pdf2imageRun(engine, files, input, dir, format, dpi, range).result.Ok?
    ensures var o := Pdf2imageRun(engine, files, input, dir, format, dpi, range);
            var out := o.result.value;
            && |out| == |images|
            && forall k :: 0 <= k < |out| ==>
                 && out[k] == FilePath(dir, PageFileName(Stem(input.name), if range.None? then k + 1 else range.value.first + k, format))
                 && out[k] in o.files
                 && engine.save(images[k], Pdf2imageEncoding(format)) == Some(o.files[out[k]])
  {
    var numbers := Pdf2imageNumbers(|images|, range);
    var results := Pdf2imageResults(engine, images, format);
    var o := Run(files, PagePaths(dir, Stem(input.name), format, numbers), numbers, results);
    assert Pdf2imageRun(engine, files, input, dir, format, dpi, range) == o;
    NumbersIncrease(Span(0, 0), |images|, range);
    PagesSucceed(files, dir, Stem(input.name), format, numbers, results);
    var out := o.result.value;
    forall k | 0 <= k < |out|
      ensures out[k] == FilePath(dir, PageFileName(Stem(input.name), if range.None? then k + 1 else range.value.first + k, format))
      ensures out[k] in o.files
      ensures engine.save(images[k], Pdf2imageEncoding(format)) == Some(o.files[out[k]])
    {
      assert numbers[k] == if range.None? then k + 1 else range.value.first + k;
      assert results[k] == engine.save(images[k], Pdf2imageEncoding(format));
    }
  }

  /** `p` is a page file of `stem` in `dir`: its name is the stem, "_page_",
      some page number in three or more digits, a dot and the format. */
  ghost predicate IsPageFile(p: FilePath, dir: string, stem: string, format: string)
  {
    p.dir == dir && exists n :: p.name == PageFileName(stem, n, format)
  }

  /** What a successful engine leaves behind: distinct page files of the
      input in the output directory, all present, and every other file as
      it was. */
  ghost predicate PagesWritten(files: map<FilePath, seq<bv8>>, o: Outcome, dir: string, stem: string, format: string)
    requires o.result.Ok?
  {
    var out := o.result.value;
    && Distinct(out)
    && (forall k :: 0 <= k < |out| ==> out[k] in o.files && IsPageFile(out[k], dir, stem, format))
    && (forall p :: p !in out ==> (p in o.files <==> p in files))
    && (forall p :: p !in out && p in files ==> o.files[p] == files[p])
  }

  lemma RunWritesPages(files: map<FilePath, seq<bv8>>, dir: string, stem: string, format: string,
                       numbers: seq<int>, results: seq<Option<seq<bv8>>>)
    requires |numbers| == |results| && Increasing(numbers)
    requires Run(files, PagePaths(dir, stem, format, numbers), numbers, results).result.Ok?
    ensures PagesWritten(files, Run(files, PagePaths(dir, stem, format, numbers), numbers, results), dir, stem, format)
  {
    var o := Run(files, PagePaths(dir, stem, format, numbers), numbers, results);
    var out := o.result.value;
    PagesSucceed(files, dir, stem, format, numbers, results);
    PagesKeepOthers(files, dir, stem, format, numbers, results);
    forall k | 0 <= k < |out|
      ensures IsPageFile(out[k], dir, stem, format)
    {
      assert out[k].name == PageFileName(stem, numbers[k], format);
    }
  }

  /** The PyMuPDF path, when it succeeds, changes only its page files. */
  lemma PymupdfWritesPages<Page>(engine: PyMuPdf<Page>, files: map<FilePath, seq<bv8>>, input: FilePath,
                                 dir: string, format: string, dpi: int, range: Option<PageRange>)
    requires input in files && Pymupdf(engine, files, input, dir, format, dpi, range).result.Ok?
    ensures PagesWritten(files, Pymupdf(engine, files, input, dir, format, dpi, range), dir, Stem(input.name), format)
  {
    var pages := engine.open(files[input]).value;
    var s := ClampRange(|pages|, range);
    var numbers := PymupdfNumbers(s);
    var results := PymupdfResults(engine, pages, dpi, format, s);
    assert Pymupdf(engine, files, input, dir, format, dpi, range)
        == Run(files, PagePaths(dir, Stem(input.name), format, numbers), numbers, results);
    NumbersIncrease(s, 0, range);
    RunWritesPages(files, dir, Stem(input.name), format, numbers, results);
  }

  /** The pdf2image path, when it succeeds, changes only its page files. */
  lemma Pdf2imageWritesPages<Img>(engine: Pdf2Image<Img>, files: map<FilePath, seq<bv8>>, input: FilePath,
                                  dir: string, format: string, dpi: int, range: Option<PageRange>)
    requires input in files && Pdf2imageRun(engine, files, input, dir, format, dpi, range).result.Ok?
    ensures PagesWritten(files, Pdf2imageRun(engine, files, input, dir, format, dpi, range), dir, Stem(input.name), format)
  {
    var images := engine.convert(files[input], dpi, Bounds(range).0, Bounds(range).1).value;
    var numbers := Pdf2imageNumbers(|images|, range);
    var results := Pdf2imageResults(engine, images, format);
    assert Pdf2imageRun(engine, files, input, dir, format, dpi, range)
        == Run(files, PagePaths(dir, Stem(input.name), format, numbers), numbers, results);
    NumbersIncrease(Span(0, 0), |images|, range);
    RunWritesPages(files, dir, Stem(input.name), format, numbers, results);
  }

  /** Successful or not, a run over the page paths of `dir` changes no
      file outside `dir`. */
  lemma RunKeepsOtherDirs(files: map<FilePath, seq<bv8>>, dir: string, stem: string, format: string,
                          numbers: seq<int>, results: seq<Option<seq<bv8>>>)
    requires |numbers| == |results| && Increasing(numbers)
    ensures var o := Run(files, PagePaths(dir, stem, format, numbers), numbers, results);
            && (forall p: FilePath :: p.dir != dir ==> (p in o.files <==> p in files))
            && (forall p: FilePath :: p.dir != dir && p in files ==> o.files[p] == files[p])
  {
    var paths := PagePaths(dir, stem, format, numbers);
    var n := SavedCount(results);
    PagePathsDistinct(dir, stem, format, numbers);
    RunKeepsOthers(files, paths, numbers, results);
    forall p: FilePath | p.dir != dir
      ensures p !in paths[..n]
    {
      assert forall k :: 0 <= k < n ==> paths[..n][k].dir == dir;
    }
  }

  /** The PyMuPDF path changes no file outside the output directory. */
  lemma PymupdfKeepsOtherDirs<Page>(engine: PyMuPdf<Page>, files: map<FilePath, seq<bv8>>, input: FilePath,
                                    dir: string, format: string, dpi: int, range: Option<PageRange>)
    requires input in files
    ensures var o := Pymupdf(engine, files, input, dir, format, dpi, range);
            && (forall p: FilePath :: p.dir != dir ==> (p in o.files <==> p in files))
            && (forall p: FilePath :: p.dir != dir && p in files ==> o.files[p] == files[p])
  {
    if engine.open(files[input]).Some? {
      var pages := engine.open(files[input]).value;
      var s := ClampRange(|pages|, range);
      var numbers := PymupdfNumbers(s);
      var results := PymupdfResults(engine, pages, dpi, format, s);
      assert Pymupdf(engine, files, input, dir, format, dpi, range)
          == Run(files, PagePaths(dir, Stem(input.name), format, numbers), numbers, results);
      NumbersIncrease(s, 0, range);
      RunKeepsOtherDirs(files, dir, Stem(input.name), format, numbers, results);
    }
  }

  /** The pdf2image path changes no file outside the output directory. */
  lemma Pdf2imageKeepsOtherDirs<Img>(engine: Pdf2Image<Img>, files: map<FilePath, seq<bv8>>, input: FilePath,
                                     dir: string, format: string, dpi: int, range: Option<PageRange>)
    requires input in files
    ensures var o := Pdf2imageRun(engine, files, input, dir, format, dpi, range);
            && (forall p: FilePath :: p.dir != dir ==> (p in o.files <==> p in files))
            && (forall p: FilePath :: p.dir != dir && p in files ==> o.files[p] == files[p])
  {
    if engine.convert(files[input], dpi, Bounds(range).0, Bounds(range).1).Some? {
      var images := engine.convert(files[input], dpi, Bounds(range).0, Bounds(range).1).value;
      var numbers := Pdf2imageNumbers(|images|, range);
      var results := Pdf2imageResults(engine, images, format);
      assert Pdf2imageRun(engine, files, input, dir, format, dpi, range)
          == Run(files, PagePaths(dir, Stem(input.name), format, numbers), numbers, results);
      NumbersIncrease(Span(0, 0), |images|, range);
      RunKeepsOtherDirs(files, dir, Stem(input.name), format, numbers, results);
    }
  }

  /** The page indices to render: all of them, or the requested range made
      0-based and cut to the document. */
  method PageSpan(total: nat, range: Option<PageRange>) returns (start: int, end: int)
    ensures Span(start, end) == ClampRange(total, range)
  {
    start, end := 0, total;
    if range.Some? {
      start, end := range.value.first, range.value.last;
      start := Max(0, start - 1);
      end := Min(total, end);
    }
  }

  /** `_pdf_to_image_pymupdf`: opens the document, clamps the range, and
      renders and saves page after page, collecting the paths. */
  method PymupdfPages<Page>(engine: PyMuPdf<Page>, disk: Disk, input: FilePath, dir: string,
                            format: string, dpi: int, range: Option<PageRange>) returns (r: Result<seq<FilePath>, EngineError>)
    requires disk.Valid() && input in disk.files && dir in disk.dirs
    modifies disk
    ensures var o := Pymupdf(engine, old(disk.files), input, dir, format, dpi, range);
            r == o.result && disk.files == o.files
    ensures disk.Valid() && disk.dirs == old(disk.dirs)
  {
    var document := engine.open(disk.files[input]);
    if document.None? {
      return Err(OpenFailed);
    }
    var pages := document.value;
    var start, end := PageSpan(|pages|, range);
    r := RenderPages(engine, disk, pages, start, end, dir, Stem(input.name), format, dpi);
  }

  /** The page loop of `_pdf_to_image_pymupdf`: page `page_num` is rendered
      and saved as page `page_num + 1`, for each index from `start` up to
      `end`. */
  method RenderPages<Page>(engine: PyMuPdf<Page>, disk: Disk, pages: seq<Page>, start: int, end: int,
                           dir: string, stem: string, format: string, dpi: int) returns (r: Result<seq<FilePath>, EngineError>)
    requires disk.Valid() && 0 <= start && end <= |pages| && dir in disk.dirs
    modifies disk
    ensures var s := Span(start, end);
            var numbers := PymupdfNumbers(s);
            var o := Run(old(disk.files), PagePaths(dir, stem, format, numbers), numbers, PymupdfResults(engine, pages, dpi, format, s));
            r == o.result && disk.files == o.files
    ensures disk.Valid() && disk.dirs == old(disk.dirs)
  {
    ghost var s := Span(start, end);
    ghost var numbers := PymupdfNumbers(s);
    ghost var results := PymupdfResults(engine, pages, dpi, format, s);
    ghost var paths := PagePaths(dir, stem, format, numbers);
    ghost var files0 := disk.files;
    var outputFiles: seq<FilePath> := [];
    var pageNum := start;
    ghost var i := 0;
    while pageNum < end
      invariant pageNum == start + i && 0 <= i <= |results|
      invariant outputFiles == paths[..i]
      invariant i <= SavedCount(results)
      invariant disk.files == WriteAll(files0, outputFiles, Payloads(results, i))
      invariant disk.Valid() && disk.dirs == old(disk.dirs)
    {
      var page := pages[pageNum];
      var pix := engine.render(page, dpi, PymupdfEncoding(format));
      var outputFile := FilePath(dir, PageFileName(stem, pageNum + 1, format));
      assert numbers[i] == pageNum + 1;
      assert pix == results[i];
      assert outputFile == paths[i];
      if pix.None? {
        RunStops(files0, paths, numbers, results, i);
        return Err(PageFailed(pageNum + 1));
      }
      SavedCountStep(results, i);
      SaveStep(files0, paths, results, i);
      SliceSnoc(paths, i);
      disk.WriteFile(outputFile, pix.value);
      outputFiles := outputFiles + [outputFile];
      pageNum := pageNum + 1;
      i := i + 1;
    }
    assert i == |results|;
    RunCompletes(files0, paths, numbers, results);
    assert outputFiles == paths[..|paths|] == paths;
    return Ok(outputFiles);
  }

  /** `_pdf_to_image_pdf2image`: converts the requested pages, then saves
      image after image under its page number, collecting the paths. */
  method Pdf2imagePages<Img>(engine: Pdf2Image<Img>, disk: Disk, input: FilePath, dir: string,
                             format: string, dpi: int, range: Option<PageRange>) returns (r: Result<seq<FilePath>, EngineError>)
    requires disk.Valid() && input in disk.files && dir in disk.dirs
    modifies disk
    ensures var o := Pdf2imageRun(engine, old(disk.files), input, dir, format, dpi, range);
            r == o.result && disk.files == o.files
    ensures disk.Valid() && disk.dirs == old(disk.dirs)
  {
    var firstPage: Option<int> := None;
    var lastPage: Option<int> := None;
    if range.Some? {
      firstPage, lastPage := Some(range.value.first), Some(range.value.last);
    }
    var converted := engine.convert(disk.files[input], dpi, firstPage, lastPage);
    if converted.None? {
      return Err(OpenFailed);
    }
    var images := converted.value;
    var stem := Stem(input.name);
    ghost var numbers := Pdf2imageNumbers(|images|, range);
    ghost var results := Pdf2imageResults(engine, images, format);
    ghost var paths := PagePaths(dir, stem, format, numbers);
    ghost var files0 := disk.files;
    assert Pdf2imageRun(engine, files0, input, dir, format, dpi, range) == Run(files0, paths, numbers, results);
    var outputFiles: seq<FilePath> := [];
    for i := 0 to |images|
      invariant outputFiles == paths[..i]
      invariant i <= SavedCount(results)
      invariant disk.files == WriteAll(files0, outputFiles, Payloads(results, i))
      invariant disk.Valid() && disk.dirs == old(disk.dirs)
    {
      var pageNum := i + 1;
      if range.Some? {
        pageNum := range.value.first + i;
      }
      var outputFile := FilePath(dir, PageFileName(stem, pageNum, format));
      var saved := engine.save(images[i], Pdf2imageEncoding(format));
      assert numbers[i] == pageNum;
      assert saved == results[i];
      assert outputFile == paths[i];
      if saved.None? {
        RunStops(files0, paths, numbers, results, i);
        return Err(PageFailed(pageNum));
      }
      SavedCountStep(results, i);
      SaveStep(files0, paths, results, i);
      SliceSnoc(paths, i);
      disk.WriteFile(outputFile, saved.value);
      outputFiles := outputFiles + [outputFile];
    }
    assert SavedCount(results) == |results|;
    RunCompletes(files0, paths, numbers, results);
    assert outputFiles == paths[..|paths|] == paths;
    return Ok(outputFiles);
  }
}
