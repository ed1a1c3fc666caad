# AstroPitography and tetra3 in Dafny

AstroPitography is a Raspberry Pi camera front end for astrophotography. Its
scripts keep a small amount of state across the passes of a PySimpleGUI
event loop:
- the preview size the resize buttons step through;
- the convert-to-DNG flag;
- the last image taken;
- the slider values and their defaults.

From that state they build the file names and, in the earlier revision, the
`raspistill` command lines of a capture. The repository also carries tetra3, a
star-pattern plate solver. This model covers tetra3's core:
- the hashed pattern catalogue: key to index, and insertion and lookup with
  quadratic probing;
- the generator of star patterns from the brightest centroids;
- the integer path of `crop_and_downsample_image`;
- the hash codes a solve looks up;
- the re-centred centroid window.

The modules:

- `Arith`: definitions shared by the modules below. These are `Option`, `Min`
  and `Max`, plus the monotonicity of multiplication and the uniqueness of
  Euclidean division.
- `Text`: Python's `str(int)`, `int(str)`, `str.split()` and the two `strftime`
  stamps, with round trips and injectivity.
- `ProbeTable`: `_key_to_index`, `_insert_at_index` and `_get_at_index`.
  - The table is an `array<seq<int>>`, and an all-zero row is an empty slot.
  - The two probing loops are methods, proved against `Inserted` and
    `ProbeRun`.
- `Patterns`: `_generate_patterns_from_centroids`.
  - The generator is a method that updates the index list in place, in an
    array holding the sentinels `-1` and `n`.
  - Its proof goes through the colexicographic rank of a pattern: each pass
    adds one to the rank. So the generator lists every `p`-subset of the
    centroids exactly once, in rank order.
- `ImageOps`: `crop_and_downsample_image` on integer images (`array2<int>`).
  - A specification function `CropAndDownsampleSpec` works on rows. The
    method copies the window and sums blocks in loops, and is proved equal
    to it.
  - `CentroidWindow` models the clamp of the centroid window.
- `CodeSpace`: the hash codes a solve looks up for one image pattern. These
  are the clamped bin ranges, their `itertools.product`, and the set of
  sorted tuples.
- `Capture`: the picamera revision of the AstroPitography script.
  - `_pad`, the preview-size list and its parsing, and the resize counter.
  - Stamps and file names, the long-exposure camera settings, and the
    convert-to-DNG latch.
  - The Delete button and the Defaults button.
  - The state `main` keeps is a class, `Session`.
- `OldCapture`: the earlier, raspistill-based revision of the script.
  - Its stamps and file names, which contain colons.
  - The long-exposure and ordinary command lines, with their optional flags.
  - The Defaults button.
  - The window's values are a class, `Controls`.

Integers are unbounded. Where the source relies on a fixed width, the model
writes it out: the clip to the NumPy integer type's range after
downsampling. Python's `//` is modelled as floor division (`FloorDiv`).

## Model

| member | source | states |
|---|---|---|
| ProbeTable.KeyToIndex | tetra3/tetra3.py:112-117 | the index of a key is always a valid slot, `0 <= r < max_index` |
| ProbeTable.KeyValueHorner | tetra3/tetra3.py:112-115 | the key's value `sum(val * bin_factor**i)` satisfies Horner's rule `key[0] + b * value(key[1..])` |
| ProbeTable.KeyValueRange | tetra3/tetra3.py:112-115 | a key of base-`b` digits has a value in `[0, b^len)` |
| ProbeTable.KeyValueInjective | tetra3/tetra3.py:112-115 | two keys of the same length with digits below the bin factor and equal values are equal |
| ProbeTable.Probe | tetra3/tetra3.py:90-93 | the probe position `(index + c**2) % max_ind` is always inside the table |
| ProbeTable.FirstEmpty | tetra3/tetra3.py:92-97 | the first probe offset that meets an empty slot: it is empty and every earlier probe is occupied |
| ProbeTable.ProbePeriodic | tetra3/tetra3.py:92-93 | the probe sequence repeats with the table size |
| ProbeTable.ProbeBelowSize | tetra3/tetra3.py:92-93 | every probe offset lands where its remainder modulo the table size lands |
| ProbeTable.NoEmptyNeverEnds | tetra3/tetra3.py:92-97 | without an empty slot among the first `n` probes no probe ever finds one, so the source's loop never ends |
| ProbeTable.InsertAtIndex | tetra3/tetra3.py:87-97 | the table afterwards is the old table with `item` written into the first empty slot along the probe sequence, and nothing else changed |
| ProbeTable.GetAtIndex | tetra3/tetra3.py:100-109 | returns the rows met along the probe sequence, in order, up to the first empty slot |
| ProbeTable.ProbeRunShape | tetra3/tetra3.py:100-109 | every row returned is occupied; the result is empty exactly when the first probed slot is empty |
| ProbeTable.InsertThenGet | tetra3/tetra3.py:87-109 | after an insertion, a lookup from the same index returns the rows found before followed by the inserted row |
| ProbeTable.InsertedIsFound | tetra3/tetra3.py:87-109 | an inserted row is among the rows a lookup from its index returns |
| ProbeTable.EightSlotProbes | tetra3/tetra3.py:92-93 | in an 8-slot table quadratic probing from 0 reaches only slots 0, 1 and 4 |
| Patterns.FirstBump | tetra3/tetra3.py:136-145 | the position the `for` loop stops at: it can be incremented, and no lower position can |
| Patterns.Successor | tetra3/tetra3.py:136-145 | the list the `for` loop leaves behind has the same length |
| Patterns.SuccessorIncreasing | tetra3/tetra3.py:136-145 | one step keeps the pattern strictly increasing inside `[0, n)` |
| Patterns.RankSuccessor | tetra3/tetra3.py:136-145 | one step adds exactly one to the colexicographic rank |
| Patterns.RankBound | tetra3/tetra3.py:120-146 | a pattern of indices below `m` ranks below `C(m, p)` |
| Patterns.RankInjective | tetra3/tetra3.py:120-146 | distinct patterns of one size have distinct ranks |
| Patterns.RankRun | tetra3/tetra3.py:129-131 | the first pattern `0..p-1` ranks 0, and any run of consecutive indices ranks `C(m + len, len) - 1` |
| Patterns.LastPattern | tetra3/tetra3.py:134 | the only pattern whose first index is at least `n - p` is the last one, `n-p..n-1` |
| Patterns.NoBumpIsLast | tetra3/tetra3.py:134-145 | when no position can be incremented the pattern is the last one |
| Patterns.LastRank | tetra3/tetra3.py:134 | the pattern the `while` condition stops at has rank `C(n, p) - 1` |
| Patterns.BumpIsSuccessor | tetra3/tetra3.py:136-145 | incrementing position `i` and resetting those below it gives the successor |
| Patterns.GeneratorStep | tetra3/tetra3.py:134-146 | one pass of the `while` loop gives an increasing pattern whose rank is one more, at most `C(n, p)` |
| Patterns.ListsStep | tetra3/tetra3.py:134-146 | after one pass the list of yielded patterns grows by the next pattern in rank order, the `k`-th still of rank `k`, each the centroids at its indices |
| Patterns.Pick | tetra3/tetra3.py:131 | `star_centroids[indices]` has one centroid per index |
| Patterns.Advance | tetra3/tetra3.py:136-145 | the `for` loop over the index array keeps the sentinels and turns the pattern into its successor |
| Patterns.ListedOnce | tetra3/tetra3.py:120-146 | a list ranked `0 .. C(n, p) - 1` holds every `p`-subset exactly once |
| Patterns.GeneratePatterns | tetra3/tetra3.py:120-146 | nothing when there are fewer centroids than `p`; otherwise `C(n, p)` patterns starting with `0..p-1`, the `k`-th of colexicographic rank `k` (brightest first), pairwise distinct, every `p`-subset present, each pattern the centroids at its indices |
| ImageOps.Clip | tetra3/tetra3.py:1265-1267 | `clip(iinfo.min, iinfo.max)`: the result is in range, equal to the input when it is in range, else the bound it passed |
| ImageOps.RoundUp | tetra3/tetra3.py:1226-1227 | `ceil(c / d) * d` is the multiple of `d` in `[c, c + d)` |
| ImageOps.RoundHalfEven | tetra3/tetra3.py:1234-1235 | `round(num / 2)` is within one half of `num / 2` and even on a tie |
| ImageOps.ClampOffset | tetra3/tetra3.py:1237-1244 | the clamped offset lies in `[0, full - size]` and an offset already there is kept |
| ImageOps.CropList | tetra3/tetra3.py:1207-1223 | a crop that succeeds is a four-entry list `[height, width, down, right]` |
| ImageOps.SliceIndex | tetra3/tetra3.py:1246 | a slice index is clamped into `[0, n]` and kept when already there |
| ImageOps.SliceBounds | tetra3/tetra3.py:1246 | a slice selects an ordered range inside `[0, n]`, the requested one when it is in bounds |
| ImageOps.Cut | tetra3/tetra3.py:1246 | `image[top:top+h, left:left+w]` has the rows and columns the slice bounds select, pixel for pixel |
| ImageOps.Downsampled | tetra3/tetra3.py:1253-1267 | the summed image has shape `(h // d, w // d)` |
| ImageOps.WindowInside | tetra3/tetra3.py:1224-1246 | the crop window never reaches outside the image |
| ImageOps.WindowSize | tetra3/tetra3.py:1225-1232 | the crop size is the requested size rounded up to a multiple of the divisor, clamped to the image |
| ImageOps.WindowCentred | tetra3/tetra3.py:1233-1244 | when the centred window fits, its offset is the requested offset plus half the margin, rounded |
| ImageOps.CropErrors | tetra3/tetra3.py:1207-1225 | the crop step fails exactly on a crop list of wrong length, a scalar that is not positive or does not divide both sides, or a divisor that is not positive; a wrong length and a non-positive scalar give their own errors |
| ImageOps.FractionWindow | tetra3/tetra3.py:1217-1246 | a scalar crop `k` keeps a centred `fh / k x fw / k` window |
| ImageOps.DownsampledInRange | tetra3/tetra3.py:1253-1267 | every downsampled pixel lies in the integer type's range |
| ImageOps.OutputShape | tetra3/tetra3.py:1246-1261 | the output is the window itself when only cropping, and the window divided by the factor when downsampling |
| ImageOps.CutWhole | tetra3/tetra3.py:1246-1251 | cutting the full window gives the image back |
| ImageOps.DownsampleByOne | tetra3/tetra3.py:1253-1267 | downsampling by one without a crop returns the image when its values fit the type |
| ImageOps.BlockSumAt | tetra3/tetra3.py:1260-1261 | the loop computes the sum of one `d x d` block |
| ImageOps.CutOut | tetra3/tetra3.py:1246 | the new array holds exactly the window's pixels |
| ImageOps.CutGrid | tetra3/tetra3.py:1246 | an array holding the window's pixels holds what the NumPy slice selects |
| ImageOps.CutWindow | tetra3/tetra3.py:1246 | the cropped array's contents are NumPy's slice of the image by the window, negative and out-of-range bounds included |
| ImageOps.DownsampleWindow | tetra3/tetra3.py:1253-1267 | each output pixel is the clipped sum of its block inside the window |
| ImageOps.DownsampledGrid | tetra3/tetra3.py:1253-1267 | an array of those clipped block sums is the downsampled crop |
| ImageOps.PixelOfWindow | tetra3/tetra3.py:1246-1267 | a downsampled pixel of the cut window is the clipped block sum taken directly from the image |
| ImageOps.BlockSumOfCut | tetra3/tetra3.py:1246-1261 | a block of the cut-out window is the image's block shifted by the window offset |
| ImageOps.CropAndDownsample | tetra3/tetra3.py:1158-1272 | with neither crop nor downsample the image itself with offsets `(0, 0)`; otherwise the result, offsets and errors of `CropAndDownsampleSpec` |
| ImageOps.CentroidWindow | tetra3/tetra3.py:1117-1132 | the window side is at most the image size and a non-negative window lies inside the image |
| ImageOps.CentroidInWindow | tetra3/tetra3.py:1117-1132 | a window of positive side contains the centroid it was centred on |
| CodeSpace.BinRange | tetra3/tetra3.py:684 | `range(max(low, 0), min(high + 1, bins))` counts up from `max(low, 0)` |
| CodeSpace.BinRangeMembers | tetra3/tetra3.py:684 | a bin is in the range exactly when it is at least 0 and `low`, at most `high` and below `bins` |
| CodeSpace.Ranges | tetra3/tetra3.py:684-686 | one clamped range per edge ratio |
| CodeSpace.PrependMembers | tetra3/tetra3.py:689 | one level of `itertools.product`: a tuple is present exactly when its head is in the range and its tail in the rest |
| CodeSpace.ProductMembers | tetra3/tetra3.py:689 | `itertools.product(*ranges)` holds exactly the tuples with one entry per range, each inside its range |
| CodeSpace.SortCodeSortsAndKeeps | tetra3/tetra3.py:688 | `sorted(code)` is sorted and holds the same entries |
| CodeSpace.SortCodeOfSorted | tetra3/tetra3.py:688 | sorting a sorted tuple leaves it as it is |
| CodeSpace.CodesAreKeys | tetra3/tetra3.py:684-691 | every code looked up is a sorted tuple of `p` digits below `p_bins`, so its key value is below `p_bins^p` |
| CodeSpace.CodesDistinctKeys | tetra3/tetra3.py:688-691 | two different codes have different key values |
| CodeSpace.SortedKeyIsLookedUp | tetra3/tetra3.py:684-691 | every sorted key whose bins lie inside the ratios' bounds is among the codes looked up |
| Text.NatToString | AstroPitography.py:571 | `str(n)` is a token of digits, one digit exactly below 10 |
| Text.ParseNatToString | AstroPitography.py:409 | `int(str(n)) == n` |
| Text.ParseIntToString | Old/AstroPitography.py:321 | a signed number printed into a command reads back as the same number, negative values included |
| Text.ParsePad2 | AstroPitography.py:425 | a two-digit `%d`-style field reads back as its number |
| Text.IntToStringInjective | Old/AstroPitography.py:321 | distinct integers print differently |
| Text.Split | AstroPitography.py:409 | every word of `str.split()` is non-empty and free of whitespace |
| Text.SplitWord | AstroPitography.py:409 | a word followed by whitespace or nothing splits off as the first word |
| Text.DigitTokens | AstroPitography.py:409 | the `isdigit()` filter keeps exactly the digit words of the input: every kept word is a digit word of the input, and every digit word of the input is kept |
| Text.DigitTokensAppend | AstroPitography.py:409 | filtering a concatenation gives the filtered parts one after the other, so the kept words keep their order |
| Text.StrftimeChars | AstroPitography.py:425 | a stamp holds only digits, its two separators and `_` |
| Text.StrftimeInjective | AstroPitography.py:425 | two times with the same stamp are the same time |
| Text.FrameNameInjective | AstroPitography.py:571-587 | a frame's file name, whatever its extension, gives back the frame number, and the exposure when it carries `_LE_` |
| Capture.FloorDiv | AstroPitography.py:317-318 | Python's `//` rounds toward negative infinity |
| Capture.PadToCameraBlocks | AstroPitography.py:293-319 | `_pad` gives each side the least multiple of 32 (resp. 16) not below it, at most 31 (resp. 15) above |
| Capture.PadIdempotent | AstroPitography.py:293-319 | padding a padded size changes nothing |
| Capture.ParseResolution | AstroPitography.py:409 | a parsed size has non-negative width and height |
| Capture.ParseResolutionOf | AstroPitography.py:409 | two digit tokens around ` x ` parse to the numbers they spell |
| Capture.ParseResolutionText | AstroPitography.py:406-409 | parsing a size's `W x H` text gives the size back |
| Capture.ResolutionListParses | AstroPitography.py:406-409 | every entry of the preview list parses to the size it names |
| Capture.ReadPreviewSize | AstroPitography.py:476 | the width and height read from entry `k` are `PreviewSizes[k]` |
| Capture.StepInRange | AstroPitography.py:469-496 | one press keeps the index valid, moves it by at most one, and leaves it in place exactly at the end it is pushed against |
| Capture.StepsInRange | AstroPitography.py:469-496 | no run of presses leaves the list |
| Capture.RepeatedPresses | AstroPitography.py:469-496 | `k` presses of one button move `k` places or stop at the end |
| Capture.StampHasNoColon | AstroPitography.py:425 | the stamp of this revision contains no colon |
| Capture.StampInjective | AstroPitography.py:425 | different times give different stamps |
| Capture.ImageNameInjective | AstroPitography.py:571-587 | within one branch an image name gives back its frame number, and the exposure for a long exposure |
| Capture.VideoNameInjective | AstroPitography.py:514 | recordings of different lengths started at the same time get different names |
| Capture.Shots | AstroPitography.py:551-600 | a capture of `count` images takes `count` frames |
| Capture.ShotNamesDistinct | AstroPitography.py:571-587 | the frames of one capture never share a file name |
| Capture.DefaultCapture | AstroPitography.py:75-82 | with the default settings a capture takes the single frame `..._no-0.jpeg` and leaves the camera as prepared |
| Capture.DeleteSettles | AstroPitography.py:276-287 | Delete never removes the placeholder; it tries a removal exactly when the last image is not the placeholder; after a successful removal a second Delete does nothing |
| Capture.LatchEver | AstroPitography.py:389-439 | the DNG flag is set exactly when it started set or the box was ever ticked |
| Capture.Session.constructor | AstroPitography.py:389-418 | the loop starts at preview index 0 with size 640 x 480, DNG off, the placeholder as last image, no file name yet and the default sliders |
| Capture.Session.Resize | AstroPitography.py:469-496 | the index takes one step and the preview size is re-read from the list, keeping `Valid()` |
| Capture.Session.ObserveConvertDng | AstroPitography.py:438-439 | a tick sets the DNG flag and nothing clears it |
| Capture.Session.ReadSliders | AstroPitography.py:442-449 | the spinner values read on one pass become the settings |
| Capture.Session.Defaults | AstroPitography.py:610-618 | every spinner returns to its `Parameters` default |
| Capture.Session.Delete | AstroPitography.py:276-287 | the file removed and the new last image are those `DeleteOutcome` decides |
| Capture.Session.Capture | AstroPitography.py:536-603 | the frames are named from 0 with the time stamp; all of them are converted when the DNG flag is set; the camera ends with frame rate 30 and exposure mode auto after a long exposure; the name of the last frame, or the stale one, becomes the last image; with no frame ever taken the script stops (NameError) |
| OldCapture.FloatTextInjective | Old/AstroPitography.py:247 | different whole numbers printed as floats (`n.0`) print differently |
| OldCapture.StampInjective | Old/AstroPitography.py:225 | different times give different stamps |
| OldCapture.ImageNameHasColons | Old/AstroPitography.py:290-319 | every image name of this revision contains a colon, among them the one after `_no` |
| OldCapture.ImageNameInjective | Old/AstroPitography.py:290-319 | within one branch an image name gives back its frame number, and the exposure for a long exposure |
| OldCapture.VideoNameInjective | Old/AstroPitography.py:237-258 | recordings of different lengths started at the same time get different names |
| OldCapture.StripOpt | Old/AstroPitography.py:294-308 | reading one optional flag off the front gives back whether it was appended and the rest |
| OldCapture.DecodeFlagsRoundTrip | Old/AstroPitography.py:294-341 | the flags a command ends with give back exactly the boxes that were ticked |
| OldCapture.RawCommandInjective | Old/AstroPitography.py:321-326 | the ordinary command gives back its brightness, contrast, saturation, sharpness, ISO and file name |
| OldCapture.LongExposureCommandInjective | Old/AstroPitography.py:247-292 | the long-exposure command gives back its exposure, ISO and file name |
| OldCapture.LongExposureIgnoresPicture | Old/AstroPitography.py:287-308 | a long exposure ignores the brightness, contrast, saturation and sharpness sliders |
| OldCapture.AppendFlag | Old/AstroPitography.py:294-296 | a ticked box appends its flag, an unticked one leaves the command as it was |
| OldCapture.BuildCommand | Old/AstroPitography.py:287-341 | the command for one frame is the branch's command followed by the flags of the ticked boxes, in order |
| OldCapture.Commands | Old/AstroPitography.py:289-317 | a capture of `count` frames issues `count` commands |
| OldCapture.CaptureCommands | Old/AstroPitography.py:287-350 | the loop issues one command per frame number, and the file it leaves for the DNG conversion is the last frame's, or the previous capture's when no frame is taken |
| OldCapture.CaptureCommandsDistinct | Old/AstroPitography.py:287-341 | the frames of one capture get pairwise different commands |
| OldCapture.Controls.constructor | Old/AstroPitography.py:131-139 | the window opens with the default sliders and every box unticked |
| OldCapture.Controls.Defaults | Old/AstroPitography.py:372-381 | every slider, ISO included, returns to its default |
| OldCapture.Controls.Capture | Old/AstroPitography.py:225-357 | the commands of the frames at the current stamp, and the file handed to the DNG converter and removed; none when no frame is taken, where the script stops (the name is unbound, or names the previous capture's file, already removed) |

## Left out

- ImageOps.CropAndDownsample: the source converts integer images to `float32` before summing. The model sums exactly, so it does not capture the rounding of sums beyond 2^24.
- ImageOps.CropAndDownsample: the mean mode (`sum_when_downsample=False`) and floating-point images are not modelled.
- ImageOps.CropAndDownsample: slices are returned as fresh arrays. The model does not capture that NumPy returns a view sharing the caller's buffer.
- ImageOps.CropAndDownsample: the crop factor, the downsample factor and the crop entries are integers. `int()` of float crop values is not modelled.
- ImageOps.CropErrors: a zero or negative downsample factor and a crop window that NumPy cannot reshape are collapsed into one error kind. The source raises different exceptions for them.
- ImageOps.CropAndDownsample: a crop window with a negative height or width is always rejected when downsampling (`NegativeSize`). When exactly one side is negative, NumPy may read that side's negative `reshape` dimension as the one to infer and return an image. The model does not capture that image.
- The rest of tetra3 (database generation, star extraction, solving, coordinates) is not part of this model. It is floating-point code around the core above.
- CodeSpace.Codes: the bounds come in already scaled and truncated. The float edge ratios, `p_max_err` and `.astype(int)` are not modelled.
- CodeSpace.Codes: only the code space of the solve is modelled. The similar code space of database generation (tetra3/tetra3.py:506-510) is left out.
- ProbeTable.InsertAtIndex: requires an empty slot within the first `n` probes. Without one the source loops forever (`NoEmptyNeverEnds`).
- ProbeTable.GetAtIndex: requires an empty slot within the first `n` probes. Without one the source loops forever (`NoEmptyNeverEnds`).
- Patterns.GeneratePatterns: the generator yields lazily. The model returns the whole list, so it does not capture interleaving with the consumer.
- The GUI, the camera, the file system, `sleep` and the clock are left out. The time is a parameter, and so are the spinner and slider values and whether a file can be removed.
- Capture.Session.Capture: `convert_to_DNG` and the camera's capture are external calls. The model records the files handed to them, not their effect.
- Capture.Session.Capture: the frame rate `1/cam_exposure` is kept as an exact fraction. The camera's own rounding is not modelled.
- The preview restarts, the overlays (`preview_overlay`, `remove_overlays`) and the preview `camera.brightness` assignments are not modelled.
- The Record handler's capture loop is not modelled, in either revision. Only the video file names are.
- Capture.Session.ReadSliders: the `int()` conversions of the spinner values are taken as already done.
- OldCapture.LongExposureCommand: the shutter text `'{}'.format(e * 1E6)` is modelled as the integer's digits followed by `.0`. That is how Python prints these floats below 10^16; the slider keeps the exposure in 0..200.
- OldCapture.VideoName: the duration prints as a float (`10.0`), since the slider value is used without `int()`.
- OldCapture.Controls: the Delete button removes the DNG file produced by the external converter, and that file's name is not computable here, so it is left out.
- OldCapture.Controls: the OpenCV preview and `call_raspistill` are left out. The model produces the command strings, not their execution.
