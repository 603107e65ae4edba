# Document conversion tool: the scan and PDF-to-image converters

A Dafny model of two converters of a desktop document conversion tool.

**`ScanConverter`** turns a photographed page into a scan-like JPEG:
1. It checks the input.
2. It finds the page outline. It takes the five largest contours, in decreasing order of area, and picks the first whose polygon approximation has four corners and that covers at least a fifth of the resized frame.
3. It rectifies the page with a perspective warp.
4. It removes the background by morphological closing.
5. It applies a gamma table, truncation, normalisation and sharpening.
6. It keeps the original colour wherever a red stamp lies nearby.

**`PdfImageConverter`** renders the pages of a PDF to image files with PyMuPDF, or with pdf2image when PyMuPDF is missing. It can also merge all pages onto one canvas through a temporary `temp_images` directory, and it reports the formats it supports.

How the model represents the system:
- **The file system** is a `Disk` class (`FileSystem.Disk`). It has a set of directories and a map from paths to bytes, and the converters' methods modify it in place. The invariant `Disk.Valid()` keeps every file inside an existing directory. Directories form a flat set: a directory's parents are not tracked.
- **Each conversion is also specified by a function on values:**
  - `ScanConverter.Convert`;
  - `PdfPages.Pymupdf` and `PdfPages.Pdf2imageRun`;
  - `PdfImageConverter.PdfConversion` and `PdfImageConverter.SingleImage`.

  Each method is proved equal to its function. The properties the converters promise are proved as lemmas about these functions.
- **Foreign libraries** are records of functions passed in as parameters:
  - the OpenCV calls whose numeric behaviour is not modelled (`VisionOps.Ops`), constrained only by the shape and 8-bit guarantees OpenCV gives, including the perspective warp returning an image of the requested positive size;
  - `cv2.imdecode` and `cv2.imencode` (`ScanConverter.Codec`);
  - PyMuPDF (`PdfPages.PyMuPdf`);
  - pdf2image with PIL's save (`PdfPages.Pdf2Image`);
  - Pillow's open and merge (`PdfImageConverter.Imaging`).

  A library call that raises returns `None`. Of the `VisionOps.Ops` calls, only the resize can raise in the model (`VisionOps.Ops.Resize`, for an empty requested size); the others are total.
- **Library availability** is a `Libraries` parameter.
- **The OpenCV steps the model does define exactly:** the red mask, the 3×3 dilation, closing, the LUT, truncation, gray-to-BGR conversion and the final composite. These are functions on pixel grids (`Raster`, `ScanEffect`).

## Model

| member | source | states |
|---|---|---|
| Paths.JoinDir | converters/pdf_image_converter.py:247 | `dir / sub` is the directory, one `/`, then the sub-directory name |
| Paths.Suffix | converters/scan_converter.py:215 | the suffix is empty, or a dot followed by at least one character and no further dot |
| Paths.Stem | converters/scan_converter.py:225 | the stem is a prefix of the name |
| Paths.StemSuffixSplit | converters/scan_converter.py:215-225 | stem followed by suffix gives back the whole name |
| Paths.SuffixOfAppend | converters/pdf_image_converter.py:149 | a name `base.ext` with a dot-free `ext` has suffix `.ext` and stem `base` |
| Paths.LowerChar | converters/scan_converter.py:215 | capital ASCII letters move to lower case; every other character is unchanged |
| Paths.LowerAt | converters/scan_converter.py:215 | `lower()` maps each character separately and keeps the length |
| Paths.LowerIdempotent | converters/pdf_image_converter.py:77 | lower-casing twice equals lower-casing once |
| Paths.UpperChar | converters/pdf_image_converter.py:214 | lower-case ASCII letters move to upper case; every other character is unchanged |
| Paths.LowerOfUpper | converters/pdf_image_converter.py:284 | the upper-cased format name lower-cases back to the lower-cased format |
| Paths.ListedIsIn | converters/scan_converter.py:215 | the entry-by-entry membership test agrees with `in` |
| Decimal.Pad3 | converters/pdf_image_converter.py:149 | `03d` writes at least three characters: digits, or a minus sign then digits; exactly three for 0..999 |
| Decimal.Pad3RoundTrip | converters/pdf_image_converter.py:149 | parsing a `03d`-formatted number gives back the number |
| Decimal.Pad3Injective | converters/pdf_image_converter.py:208 | different page numbers are formatted differently |
| Raster.MapPixels | converters/scan_converter.py:140 | a per-pixel colour conversion keeps the shape and maps every pixel by the same function |
| Raster.WindowMax | converters/scan_converter.py:156 | the value is the largest in-image pixel of the square window, and it occurs there |
| Raster.WindowMin | converters/scan_converter.py:169 | the value is the smallest in-image pixel of the square window, and it occurs there |
| Raster.Dilate | converters/scan_converter.py:156 | dilation keeps the shape, and each pixel becomes its window maximum (the border is ignored) |
| Raster.Erode | converters/scan_converter.py:169 | erosion keeps the shape, and each pixel becomes its window minimum |
| Raster.Close | converters/scan_converter.py:168-169 | closing keeps a rectangular image's shape |
| Raster.DilateExtensive | converters/scan_converter.py:156 | dilation never lowers a pixel |
| Raster.DilateKeepsValues | converters/scan_converter.py:156 | dilation keeps 8-bit images 8-bit and 0/255 masks binary |
| Raster.ErodeKeepsValues | converters/scan_converter.py:169 | erosion keeps 8-bit images 8-bit |
| Raster.CloseExtensive | converters/scan_converter.py:168-169 | closing never lowers a pixel |
| Raster.CloseKeepsGray | converters/scan_converter.py:169 | closing an 8-bit image gives an 8-bit image |
| Geometry.Keys | converters/scan_converter.py:42-48 | one key per point: `x + y`, or `y - x` for `np.diff` |
| Geometry.FirstArgMin | converters/scan_converter.py:43 | `np.argmin` picks a smallest key, and every earlier key is strictly larger |
| Geometry.FirstArgMax | converters/scan_converter.py:44 | `np.argmax` picks a largest key, and every earlier key is strictly smaller |
| Geometry.Corners | converters/scan_converter.py:34-52 | four given points: two have the smallest and largest `x + y` (slots 0 and 2), two the smallest and largest `y - x` (slots 1 and 3) |
| Geometry.OrderPoints | converters/scan_converter.py:34-52 | the freshly allocated 4-slot array holds exactly the ordered corners |
| Geometry.ArgMinEarliest | converters/scan_converter.py:43 | no earlier point ties with the one argmin picks |
| Geometry.ArgMaxEarliest | converters/scan_converter.py:44 | no earlier point ties with the one argmax picks |
| Geometry.CornersTieBreak | converters/scan_converter.py:43-50 | on ties, each slot takes the earliest point with the extreme key |
| Geometry.CornersIndependentOfOrder | converters/scan_converter.py:42-50 | when each extreme is held by one point only, reordering the points does not change the corners |
| Geometry.RectangleSumExtremes | converters/scan_converter.py:40-44 | in an upright rectangle, `x + y` is uniquely smallest at the top-left and uniquely largest at the bottom-right |
| Geometry.RectangleDiffExtremes | converters/scan_converter.py:46-50 | in an upright rectangle, `y - x` is uniquely smallest at the top-right and uniquely largest at the bottom-left |
| Geometry.RectangleIsCanonical | converters/scan_converter.py:34-52 | an upright rectangle already in canonical order is returned unchanged |
| Geometry.RectangleAnyOrder | converters/scan_converter.py:34-52 | an upright rectangle's corners in any order are put into canonical order |
| Geometry.Trunc | converters/scan_converter.py:64 | `int()` truncates toward zero |
| Geometry.OutputWidth | converters/scan_converter.py:62-64 | the width is the larger of the truncated bottom and top edge lengths |
| Geometry.OutputHeight | converters/scan_converter.py:67-69 | the height is the larger of the truncated right and left edge lengths |
| Geometry.Destination | converters/scan_converter.py:72-76 | the target corners are (0,0), (W-1,0), (W-1,H-1), (0,H-1) |
| Geometry.DestinationIsCanonical | converters/scan_converter.py:72-79 | the target corners are already in the order `order_points` produces |
| Geometry.RectangleSize | converters/scan_converter.py:62-69 | with exact axis-parallel edge lengths, a W×H upright rectangle measures W by H |
| Geometry.RectangleKeepsSize | converters/scan_converter.py:58-69 | with exact edge lengths, a W×H upright rectangle's corners in any order give a W×H output size |
| ScanEffect.InHsvRange | converters/scan_converter.py:143-149 | a pixel lies in a range when each of hue, saturation and value is between the bounds, both ends included; `ScanEffect.InRange` states the mask it gives |
| ScanEffect.IsRed | converters/scan_converter.py:142-152 | red is hue 0-10 or 156-180, both with saturation at least 43 and value at least 46; `ScanEffect.RedMask` states that the mask is 255 exactly there |
| ScanEffect.InRange | converters/scan_converter.py:145 | the mask is binary, the same shape as the image, and 255 exactly where every channel is within bounds |
| ScanEffect.AddMasks | converters/scan_converter.py:152 | `cv2.add` adds pixel by pixel and saturates at 255 |
| ScanEffect.RedMask | converters/scan_converter.py:140-152 | the union mask is binary and 255 exactly where the pixel is in either red hue range |
| ScanEffect.StampMask | converters/scan_converter.py:155-156 | the dilated mask keeps the image's shape |
| ScanEffect.StampMaskMeaning | converters/scan_converter.py:155-156 | the dilated mask is 255 exactly where a red pixel lies in the 3×3 neighbourhood, and 0 elsewhere |
| ScanEffect.StampMaskCoversRed | converters/scan_converter.py:152-156 | every red pixel is in the dilated mask |
| ScanEffect.OrOne | converters/scan_converter.py:165 | `value \| 1` on a natural: an even value goes up by one and an odd one stays; `ScanEffect.BackgroundKernelSize` states the odd result |
| ScanEffect.BackgroundKernelSize | converters/scan_converter.py:164-166 | the kernel side is odd and at least 3, and at least `min(h, w) / 50` in integer division (the `int()` of 2% of the shorter side); the next odd value down, `k - 2`, misses one of these bounds |
| ScanEffect.ApplyLut | converters/scan_converter.py:178-179 | each pixel is replaced by its table entry, and the result stays 8-bit |
| ScanEffect.Truncate | converters/scan_converter.py:183 | values above the level become the level; the others are unchanged |
| ScanEffect.TruncateIdempotent | converters/scan_converter.py:183 | truncating twice equals truncating once |
| ScanEffect.GrayToBgr | converters/scan_converter.py:192 | the gray value goes into all three channels |
| ScanEffect.Composite | converters/scan_converter.py:196-200 | each pixel is the original where the mask is positive, and the scanned pixel elsewhere |
| ScanEffect.Background | converters/scan_converter.py:168-169 | the background estimate is an 8-bit image of the same shape |
| ScanEffect.BackgroundNotDarker | converters/scan_converter.py:168-172 | the background is never darker than the pixel it lies behind |
| ScanEffect.Enhance | converters/scan_converter.py:159-189 | steps A to D keep the image 8-bit and its shape |
| ScanEffect.GrayOf | converters/scan_converter.py:159 | the grayscale conversion is applied to each pixel |
| ScanEffect.Scanned | converters/scan_converter.py:159-192 | the scanned image is a colour image of the input's shape: the enhanced gray in three equal channels |
| ScanEffect.CompositeKeepsBgr | converters/scan_converter.py:200 | the composite of two colour images is a colour image |
| ScanEffect.ProcessScanEffect | converters/scan_converter.py:135-202 | the result is a colour image of the input's shape |
| ScanEffect.ProcessScanEffectPixel | converters/scan_converter.py:135-202 | each pixel is the original one where red lies in its 3×3 neighbourhood, and otherwise its enhanced gray in three channels |
| ScanEffect.StampKeepsColour | converters/scan_converter.py:140-200 | a red pixel keeps its exact original colour |
| VisionOps.Ops.Resize | converters/scan_converter.py:95 | `cv2.resize` with no scale factors raises exactly when the requested width or height is zero or less, and otherwise returns the library's resized frame |
| DocumentDetect.InsertDesc | converters/scan_converter.py:105 | inserting into a descending list keeps it descending and adds exactly the new contour |
| DocumentDetect.SortDesc | converters/scan_converter.py:105 | sorting by area with `reverse=True` yields a descending permutation |
| DocumentDetect.TopByArea | converters/scan_converter.py:105 | `[:5]` keeps min(5, count) contours |
| DocumentDetect.TopByAreaKeepsLargest | converters/scan_converter.py:105 | the kept contours come from the input in descending order, and no dropped contour is larger than a kept one |
| DocumentDetect.ResizedWidth | converters/scan_converter.py:93-94 | the resized width `int(w * 500 / h)`, in integer division of the naturals |
| DocumentDetect.NarrowFrame | converters/scan_converter.py:93-94 | the resized width is zero exactly when the frame is more than 500 times taller than it is wide |
| DocumentDetect.Ratio | converters/scan_converter.py:89 | the scale from the resized frame back to the original, height/500 |
| DocumentDetect.Candidates | converters/scan_converter.py:92-105 | the contours examined when the resize succeeds: the edges of the blurred gray resized frame, reduced to the five largest; `DocumentDetect.TopByAreaKeepsLargest` states which are kept |
| DocumentDetect.Qualifies | converters/scan_converter.py:112-121 | a contour is taken when its approximation has four points and its area is not below a fifth of the resized frame; `DocumentDetect.FirstQualifying` states that the first such candidate is chosen |
| DocumentDetect.FirstQualifying | converters/scan_converter.py:110-124 | the chosen candidate has four corners and enough area, and no earlier one qualifies; None means none qualifies |
| DocumentDetect.FirstQualifyingUnique | converters/scan_converter.py:110-124 | the first qualifying position is the only answer |
| DocumentDetect.Scale | converters/scan_converter.py:128 | every corner is multiplied by the ratio |
| DocumentDetect.Rectify | converters/scan_converter.py:54-82 | the warped result is a colour image, and when the measured W and H are positive it has H rows of W pixels |
| DocumentDetect.FourPointTransform | converters/scan_converter.py:54-82 | the method returns the ordered-corner warp to the W×H target |
| DocumentDetect.RectifyKeepsRectangleSize | converters/scan_converter.py:54-82 | with exact edge lengths, an upright W×H rectangle in any corner order is rectified to an image of H rows of W pixels |
| DocumentDetect.Outline | converters/scan_converter.py:107-124 | an outline that is found has four corners |
| DocumentDetect.ChooseOutline | converters/scan_converter.py:107-124 | the loop skips the contours that do not qualify and stops at the first qualifying one |
| DocumentDetect.Detect | converters/scan_converter.py:84-133 | `None` (the resize raised) exactly when the resized width is zero, and otherwise a colour image |
| DocumentDetect.DetectDocument | converters/scan_converter.py:84-133 | the method computes `Detect`; `found` holds exactly when the resize succeeded and a candidate qualifies, and otherwise a returned frame is the original |
| ScanConverter.CheckInput | converters/scan_converter.py:208-216 | the three checks made before anything is read; `ScanConverter.CheckInputMeaning` states their order and errors |
| ScanConverter.CheckInputMeaning | converters/scan_converter.py:208-216 | accepted iff OpenCV is present, the input exists and its lower-cased suffix is listed; otherwise the first failing check's error |
| ScanConverter.NoSuffixRejected | converters/scan_converter.py:215-216 | a name without an extension is refused with an empty suffix |
| ScanConverter.OutputPath | converters/scan_converter.py:219-225 | the output path; `ScanConverter.OutputPathIsJpg`, `OutputNeverInput` and `OutputPathInjective` state its meaning |
| ScanConverter.OutputPathIsJpg | converters/scan_converter.py:219-225 | the output is `<stem>_scan.jpg` in the given directory or the input's |
| ScanConverter.OutputNeverInput | converters/scan_converter.py:219-225 | written beside its input, the output never replaces the input |
| ScanConverter.OutputPathInjective | converters/scan_converter.py:225 | within one directory, two inputs share an output path iff their stems agree |
| ScanConverter.ScanImage | converters/scan_converter.py:239-242 | `None` (an OpenCV error) exactly when the resized width is zero, and otherwise a colour image |
| ScanConverter.ScanImageWithoutOutline | converters/scan_converter.py:126-133 | with no outline, the output has the input's size, and every pixel is the input pixel or its enhanced gray |
| ScanConverter.Convert | converters/scan_converter.py:204-256 | a success passed every check and decoded the input, and saves to the output path; a refused check raises its own error; an error of the pipeline is re-raised as `OpenCvFailed` |
| ScanConverter.ConvertUndecodable | converters/scan_converter.py:232-236 | an accepted input that does not decode is a read failure |
| ScanConverter.ConvertDecodable | converters/scan_converter.py:239-256 | a decodable input fails with the pipeline's OpenCV error when the pipeline raises; otherwise it succeeds iff encoding succeeds, the encoded bytes are saved, and a failed encoding is a save failure |
| ScanConverter.PipelineRaises | converters/scan_converter.py:94-95 | the scan pipeline raises on a decoded image exactly when the image is more than 500 times taller than it is wide |
| ScanConverter.ConvertNarrowImage | converters/scan_converter.py:94-95 | an accepted, decodable input fails with the OpenCV error, writing nothing, exactly when it is more than 500 times taller than it is wide |
| ScanConverter.Pipeline | converters/scan_converter.py:238-242 | the image pipeline handed to `ScanConverter.Convert`: on a decoded colour image it is `ScanConverter.ScanImage`, `None` when OpenCV raises |
| ScanConverter.ScanDecoded | converters/scan_converter.py:238-242 | rectify, then apply the scan effect |
| ScanConverter.ConvertToScan | converters/scan_converter.py:204-256 | the returned path or error and the new files are those of `Convert`; the output directory is created only after the input checks pass |
| FileSystem.Disk.MakeDirs | converters/scan_converter.py:223 | the directory is added and no file changes |
| FileSystem.Disk.WriteFile | converters/scan_converter.py:248 | a file in an existing directory is created or replaced, and nothing else changes; every file stays in an existing directory |
| FileSystem.Disk.RemoveFile | converters/pdf_image_converter.py:290 | an existing file is removed and nothing else changes |
| FileSystem.Disk.RemoveDir | converters/pdf_image_converter.py:291 | the directory is removed iff it exists and no file lies in it |
| FileSystem.Disk.ClearDir | converters/pdf_image_converter.py:298-301 | every file of the directory is unlinked and the directory is removed |
| FileSystem.Without | converters/pdf_image_converter.py:298-301 | exactly the files outside the directory remain, with their contents |
| FileSystem.WriteAllMeaning | converters/pdf_image_converter.py:142-158 | after saving distinct paths in turn, each holds its own data and every other file is as it was |
| FileSystem.WriteAllSaves | converters/pdf_image_converter.py:142-158 | each saved path holds its own data |
| FileSystem.WriteAllKeeps | converters/pdf_image_converter.py:142-158 | a path that was not saved is untouched |
| PdfPages.ClampRange | converters/pdf_image_converter.py:128-133 | the indices lie within the document; with no range they are all pages |
| PdfPages.ClampRangeMeaning | converters/pdf_image_converter.py:128-142 | an index is visited iff it is a page of the document whose 1-based number lies in the requested range |
| PdfPages.PageSpan | converters/pdf_image_converter.py:128-133 | the method computes the clamped start and end |
| PdfPages.PageFileName | converters/pdf_image_converter.py:149 | `<stem>_page_<NNN>.<format in lower case>`; `PdfPages.PageFileNameParts` and `PageFileNameInjective` state its meaning |
| PdfPages.PymupdfNumbers | converters/pdf_image_converter.py:142-149 | page `page_num + 1` for each index of the clamped range; `PdfPages.NumbersIncrease` and `PymupdfSucceeds` state its meaning |
| PdfPages.Pdf2imageNumbers | converters/pdf_image_converter.py:203-206 | `i + 1`, or `page_range[0] + i` when a range is given; `PdfPages.NumbersIncrease` and `EnginesNumberAlike` state its meaning |
| PdfPages.PageFileNameInjective | converters/pdf_image_converter.py:149 | two pages of one document get the same name iff they have the same number |
| PdfPages.PageFileNameParts | converters/pdf_image_converter.py:149 | a page file's suffix is the lower-cased format, and its stem is `<stem>_page_<number>` |
| PdfPages.NumbersIncrease | converters/pdf_image_converter.py:204-206 | both engines number pages in strictly increasing order |
| PdfPages.EnginesNumberAlike | converters/pdf_image_converter.py:204-206 | with no range, or a range starting at page 1 or later, both engines number the same pages the same way |
| PdfPages.PagePaths | converters/pdf_image_converter.py:149 | one path per page number |
| PdfPages.PagePathsDistinct | converters/pdf_image_converter.py:208 | increasing page numbers give distinct files |
| PdfPages.PymupdfResults | converters/pdf_image_converter.py:142-155 | one rendering per index of the range |
| PdfPages.Pdf2imageResults | converters/pdf_image_converter.py:211-214 | one saved image per converted page |
| PdfPages.PymupdfEncoding | converters/pdf_image_converter.py:152-155 | "jpeg" output for jpg or jpeg in any case, and otherwise the format taken from the file name |
| PdfPages.Pdf2imageEncoding | converters/pdf_image_converter.py:211-214 | JPEG at quality 95 for jpg or jpeg in any case, and otherwise the upper-cased format name |
| PdfPages.Run | converters/pdf_image_converter.py:142-158 | pages saved in order up to the first failure; `PdfPages.RunResult`, `RunStops` and `RunCompletes` state its result |
| PdfPages.SavedCount | converters/pdf_image_converter.py:142-158 | the pages saved before the first failure are at most all the pages |
| PdfPages.SavedCountMeaning | converters/pdf_image_converter.py:142-158 | the saved count is the position of the first failing page, or the page count |
| PdfPages.RunStops | converters/pdf_image_converter.py:142-167 | the first failing page raises for its own number and leaves the earlier pages saved |
| PdfPages.RunCompletes | converters/pdf_image_converter.py:142-163 | a loop in which every page saves returns every path |
| PdfPages.RunResult | converters/pdf_image_converter.py:142-163 | the paths come back in order iff every page saved; otherwise the error names the first failing page |
| PdfPages.RunSavesPages | converters/pdf_image_converter.py:142-158 | every page saved before the failure is in its own file |
| PdfPages.RunKeepsOthers | converters/pdf_image_converter.py:142-158 | no file other than the saved pages changes |
| PdfPages.RunSucceeds | converters/pdf_image_converter.py:142-163 | a successful loop saved every page under its path and changed nothing else |
| PdfPages.PagesSucceed | converters/pdf_image_converter.py:142-163 | after a success, each returned path is named by its page number and holds that page's bytes |
| PdfPages.PagesKeepOthers | converters/pdf_image_converter.py:142-163 | after a success, every file that is not returned is as it was |
| PdfPages.RenderedRunSucceeds | converters/pdf_image_converter.py:142-158 | after a success, the k-th path is page `start + k + 1` and holds that page's rendering |
| PdfPages.PymupdfSucceeds | converters/pdf_image_converter.py:106-163 | a successful PyMuPDF conversion returns one path per page of the clamped range, in order, each holding its rendering |
| PdfPages.Pdf2imageSucceeds | converters/pdf_image_converter.py:169-220 | a successful pdf2image conversion returns one path per converted image, named `i + 1` or `page_range[0] + i`, holding that image |
| PdfPages.RunWritesPages | converters/pdf_image_converter.py:142-163 | after a success, only distinct page files of the input are present and new |
| PdfPages.PymupdfWritesPages | converters/pdf_image_converter.py:106-163 | a successful PyMuPDF conversion changes only its page files |
| PdfPages.Pdf2imageWritesPages | converters/pdf_image_converter.py:169-220 | a successful pdf2image conversion changes only its page files |
| PdfPages.Pymupdf | converters/pdf_image_converter.py:120-167 | open, clamp, render and save each page; `PdfPages.PymupdfSucceeds`, `PymupdfWritesPages` and `PymupdfKeepsOtherDirs` state its meaning |
| PdfPages.Pdf2imageRun | converters/pdf_image_converter.py:183-224 | convert, then save each image; `PdfPages.Pdf2imageSucceeds`, `Pdf2imageWritesPages` and `Pdf2imageKeepsOtherDirs` state its meaning |
| PdfPages.RunKeepsOtherDirs | converters/pdf_image_converter.py:142-158 | successful or not, no file outside the output directory changes |
| PdfPages.PymupdfKeepsOtherDirs | converters/pdf_image_converter.py:106-167 | the PyMuPDF path changes no file outside the output directory |
| PdfPages.Pdf2imageKeepsOtherDirs | converters/pdf_image_converter.py:169-224 | the pdf2image path changes no file outside the output directory |
| PdfPages.RenderPages | converters/pdf_image_converter.py:142-158 | the loop's result and files are those of the page-by-page specification |
| PdfPages.PymupdfPages | converters/pdf_image_converter.py:106-167 | the method's result and files are those of `Pymupdf`; no directory changes |
| PdfPages.Pdf2imagePages | converters/pdf_image_converter.py:169-224 | the method's result and files are those of `Pdf2imageRun`; no directory changes |
| PdfLayout.MaxOf | converters/pdf_image_converter.py:264 | `max` is an element, and it is at least every element |
| PdfLayout.CanvasSize | converters/pdf_image_converter.py:263-268 | vertically the widest width by the summed heights, horizontally the summed widths by the tallest height; `PdfLayout.PastedInside` and `PastedTight` state that the pages fit it exactly |
| PdfLayout.Offsets | converters/pdf_image_converter.py:274-281 | the paste position of each page, the sum of the earlier pages' heights (or widths) along the layout axis; `PdfLayout.PastedDisjoint` and `PastedTight` state its meaning |
| PdfLayout.PasteOffsets | converters/pdf_image_converter.py:274-281 | the paste loop computes each image's offset |
| PdfLayout.PastedInside | converters/pdf_image_converter.py:263-281 | every pasted image lies inside the canvas |
| PdfLayout.PastedDisjoint | converters/pdf_image_converter.py:274-281 | no two pasted images overlap, and each starts after the earlier ones end |
| PdfLayout.PastedTight | converters/pdf_image_converter.py:263-281 | the first image is at the origin, each follows the previous without a gap, and the last ends at the canvas edge |
| PdfImageConverter.ChooseEngine | converters/pdf_image_converter.py:93-100 | the engine used; `PdfImageConverter.ChooseEngineMeaning` states the rule |
| PdfImageConverter.CheckRequest | converters/pdf_image_converter.py:70-81 | the four checks made before converting; `PdfImageConverter.CheckRequestMeaning` states their order and errors |
| PdfImageConverter.PdfConversion | converters/pdf_image_converter.py:53-104 | the result and files of `pdf_to_image`; `PdfImageConverter.ConversionChecksFirst`, `ConversionEngine`, `ConversionSucceeds` and `ConversionKeepsOtherDirs` state its meaning |
| PdfImageConverter.ChooseEngineMeaning | converters/pdf_image_converter.py:94-100 | PyMuPDF when present; pdf2image only when PyMuPDF is missing; no engine when both are missing |
| PdfImageConverter.ConversionEngine | converters/pdf_image_converter.py:93-104 | an accepted request returns and leaves what the PyMuPDF path does when PyMuPDF is available, and otherwise what the pdf2image path does, with engine errors wrapped as failed conversions |
| PdfImageConverter.CheckRequestMeaning | converters/pdf_image_converter.py:70-81 | accepted iff all four checks pass; otherwise the first failing check's error; an accepted request has an engine |
| PdfImageConverter.AcceptedFormatNamesPages | converters/pdf_image_converter.py:80 | an accepted format gives page files a supported extension |
| PdfImageConverter.ConversionChecksFirst | converters/pdf_image_converter.py:70-104 | a refused request changes nothing and raises that test's error; after the input checks, every error is a failed conversion |
| PdfImageConverter.ConversionSucceeds | converters/pdf_image_converter.py:53-104 | a success returns distinct, present page files of the input with supported extensions, and changes no other file |
| PdfImageConverter.PageFilesSupported | converters/pdf_image_converter.py:149 | page files of an accepted format all have a supported extension |
| PdfImageConverter.ConversionKeepsOtherDirs | converters/pdf_image_converter.py:84-104 | successful or not, no file outside the output directory changes |
| PdfImageConverter.PdfToImage | converters/pdf_image_converter.py:53-104 | result and files are those of `PdfConversion`; the output directory is created only after the input checks pass |
| PdfImageConverter.TempDirIsNotInputDir | converters/pdf_image_converter.py:247 | `temp_images` is never the input's own directory |
| PdfImageConverter.OpenAll | converters/pdf_image_converter.py:258-260 | one size per image when all images open |
| PdfImageConverter.OpenAllMeaning | converters/pdf_image_converter.py:258-260 | all open iff each one does, with sizes in order; otherwise the first one that does not open is reported |
| PdfImageConverter.OpenAllStops | converters/pdf_image_converter.py:258-260 | after one image fails to open, more images do not change the outcome |
| PdfImageConverter.OpenImages | converters/pdf_image_converter.py:258-260 | the loop opens the images in turn, as `OpenAll` states |
| PdfImageConverter.RemoveFiles | converters/pdf_image_converter.py:289-290 | the listed files are removed and nothing else changes |
| PdfImageConverter.CleanUp | converters/pdf_image_converter.py:296-304 | the files of `temp_images` are unlinked, the directory is removed, and the wrapped error is raised |
| PdfImageConverter.Abandon | converters/pdf_image_converter.py:295-303 | the `except` branch: the files of `temp_images` are gone, the directory is removed and the merge fails with the cause |
| PdfImageConverter.Combine | converters/pdf_image_converter.py:254-293 | open, paste, save, then remove the pages and `temp_images`; `PdfImageConverter.CombineSucceeds`, `CombineCleansUp` and `CombineKeepsOthers` state its meaning |
| PdfImageConverter.SingleImage | converters/pdf_image_converter.py:226-303 | `pdf_to_single_image`; `PdfImageConverter.SingleImageSucceeds`, `SingleImageCleansUp` and `SingleImageKeepsOthers` state its meaning |
| PdfImageConverter.CombinePages | converters/pdf_image_converter.py:254-294 | the merge and clean-up method has the result, directories and files of `Combine`; saving into a missing directory fails the merge |
| PdfImageConverter.PdfToSingleImage | converters/pdf_image_converter.py:226-304 | the method has the result, directories and files of `SingleImage` |
| PdfImageConverter.CombineCleansUp | converters/pdf_image_converter.py:286-304 | the merge step removes the temporary directory and every file in it |
| PdfImageConverter.SingleImageCleansUp | converters/pdf_image_converter.py:286-304 | with Pillow, `temp_images` is always gone afterwards, with nothing in it, whether the merge succeeds or not |
| PdfImageConverter.CombineKeepsOthers | converters/pdf_image_converter.py:254-294 | no file outside `temp_images`, other than the output file, changes |
| PdfImageConverter.CombineSucceeds | converters/pdf_image_converter.py:254-294 | a success had pages, opened all of them and saved into an existing directory; the output holds the pasted canvas unless it lies in `temp_images` |
| PdfImageConverter.SingleImageKeepsOthers | converters/pdf_image_converter.py:226-304 | no file outside `temp_images` except the output changes; the input survives unless it is the output |
| PdfImageConverter.SingleImageSucceeds | converters/pdf_image_converter.py:226-294 | a success rendered at least one page, opened every page, and saved into an existing directory or `temp_images`; the output holds the pasted canvas unless it lies in `temp_images` |
| PdfImageConverter.SupportedFormats | converters/pdf_image_converter.py:306-325 | available iff an engine exists; the engine flags are the libraries' flags |
| PdfImageConverter.SupportedFormatsAgree | converters/pdf_image_converter.py:306-325 | the advertised formats are exactly those `pdf_to_image` accepts |

## Left out

**How the model represents things:**
- Floating-point arithmetic is modelled exactly over reals or integers:
  - `int(min(h, w) * 0.02)` is taken as `min(h, w) / 50`;
  - `total_area * 0.2` is compared as an exact real;
  - points are reals rather than float32;
  - the PyMuPDF zoom `dpi / 72` is left to the engine.
- Geometry.OutputWidth, Geometry.OutputHeight: the edge length `np.sqrt(dx**2 + dy**2)` is a parameter. Only edges parallel to the axes are assumed exact, because the square root is floating point.
- VisionOps.Ops: the numeric OpenCV operations are parameters constrained only by their shape and 8-bit guarantees. These are resizing, colour conversion, the blurs, Canny, `findContours`, `approxPolyDP`, `contourArea`, `arcLength`, the perspective warp, `divide`, `normalize` and `addWeighted`. Apart from the resize to an empty size, these calls are taken never to raise; an OpenCV error on other degenerate input is not modelled.
- ScanEffect.OrOne: `value | 1` is modelled on naturals only, which is what `int(min(h, w) * 0.02)` produces.
- Paths.Lower, Paths.Upper: case mapping covers ASCII letters only.
- The PDF and image libraries' rendering, conversion, decoding and encoding are function parameters. A raised exception is a `None` result.
- The library flags set by `check_dependencies` (pdf_image_converter.py:41-51) and `ScanConverter.check_dependencies` (scan_converter.py:24-32) are a `Libraries` parameter and a `cvAvailable` parameter.
- `np.fromfile` and `tofile` are modelled as reading and writing a file's bytes. Non-ASCII paths and I/O errors other than a missing directory are out of scope.
- DocumentDetect.SortDesc: only the descending order and the permutation are proved, not that ties keep their input order as Python's stable sort does.

**Behaviour the model does not cover:**
- Logging and the warning messages; the exception texts are represented by error constructors.
- `Path.exists()` also being true for a directory: the model treats an input as present when a file of that path exists.
- The failure of `temp_dir.mkdir(exist_ok=True)` when the input's parent directory does not exist: the model always creates `temp_images`.
- Sub-directories inside `temp_images`: with none modelled, `glob("*")` only sees files. The case where `unlink` or `rmdir` fails inside the silent `except` is not modelled.
- Closing images and the PDF document (`img.close()`, `pdf_document.close()`), which only release resources.
- PdfImageConverter.PdfToImage: the `else: raise Exception(...)` at pdf_image_converter.py:100 cannot be reached after the library test at line 70. The model proves that branch dead instead of modelling it.
- PdfPages.EnginesNumberAlike: the agreement is stated only for no range or a range starting at page 1 or later. For an earlier start, pdf2image's numbering depends on how pdf2image itself clamps `first_page`.
- Warping to a size of zero or less, when the measured edges are shorter than one pixel, depends on OpenCV. For that size `VisionOps.Ops` only promises a colour image; the model does not say what its shape is.
- PdfPages.PymupdfSucceeds: which pages the clamped range visits is stated separately, in PdfPages.ClampRangeMeaning.
- A success of `pdf_to_single_image` can leave no output file, when the output file lies in `temp_images` and is also one of the page files. PdfImageConverter.SingleImageSucceeds states this case as it is rather than excluding it.
- `merged_image.save(output_file, output_format.upper())` with a format name Pillow does not know (for example "JPG") belongs to the merge function: a `None` result makes the merge fail.
