/** Capture bookkeeping of the picamera revision of the AstroPitography script:
    overlay padding to the camera's block size, the live-preview size stepper,
    capture file names, the camera settings of a long exposure, the "last
    image" reference with its Delete button, the Defaults button and the
    DNG-conversion latch. The clock, the camera and the file system are outside
    the model: the time stamp, the camera's attributes before a capture and the
    outcome of a file removal come in as parameters. */
module Capture {
  import opened Text
  import opened Arith

  // ---------------------------------------------------------------------------
  // _pad

  /** Python's `a // b`: the quotient rounded toward negative infinity. */
  function FloorDiv(a: int, b: int): (q: int)
    requires b != 0
    ensures b > 0 ==> b * q <= a < b * q + b
    ensures b < 0 ==> b * q + b < a <= b * q
  {
    if b > 0 then a / b else (-a) / (-b)
  }

  /** `((x + (block - 1)) // block) * block`. */
  function RoundUpTo(x: int, block: int): int
    requires block != 0
  {
    FloorDiv(x + (block - 1), block) * block
  }

  /** `_pad(resolution, width, height)`: each side rounded up to the block size. */
  function Pad(resolution: (int, int), width: int := 32, height: int := 16): (int, int)
    requires width != 0 && height != 0
  {
    (RoundUpTo(resolution.0, width), RoundUpTo(resolution.1, height))
  }

  /** For a positive block, rounding up gives the least multiple of the block
      that is not below `x`. */
  lemma RoundUpLeast(x: int, block: int)
    requires block > 0
    ensures var r := RoundUpTo(x, block);
      r % block == 0 && x <= r < x + block &&
      forall m :: m % block == 0 && x <= m ==> r <= m
  {
    var q := FloorDiv(x + (block - 1), block);
    assert block * q <= x + (block - 1) < block * q + block;
    assert q * block % block == 0 by { MultipleMod(q, block); }
    assert block * (q - 1) == block * q - block;
    forall m | m % block == 0 && x <= m
      ensures block * q <= m
    {
      var k := m / block;
      assert m == block * k;
      if k < q {
        MulMonotone(block, k, q - 1);
      }
    }
  }

  /** The overlay size `_pad` gives with the camera's 32x16 blocks: each side
      is the least multiple of its block not below the input, at most 31
      (resp. 15) above it. */
  lemma PadToCameraBlocks(resolution: (int, int))
    ensures var r := Pad(resolution);
      r.0 % 32 == 0 && resolution.0 <= r.0 <= resolution.0 + 31 &&
      r.1 % 16 == 0 && resolution.1 <= r.1 <= resolution.1 + 15 &&
      (forall m :: m % 32 == 0 && resolution.0 <= m ==> r.0 <= m) &&
      (forall m :: m % 16 == 0 && resolution.1 <= m ==> r.1 <= m)
  {
    RoundUpLeast(resolution.0, 32);
    RoundUpLeast(resolution.1, 16);
  }

  /** Padding a padded size changes nothing. */
  lemma PadIdempotent(resolution: (int, int), width: int, height: int)
    requires width > 0 && height > 0
    ensures Pad(Pad(resolution, width, height), width, height) == Pad(resolution, width, height)
  {
    var r := Pad(resolution, width, height);
    RoundUpLeast(resolution.0, width);
    RoundUpLeast(resolution.1, height);
    RoundUpLeast(r.0, width);
    RoundUpLeast(r.1, height);
  }

  // ---------------------------------------------------------------------------
  // Live-preview sizes

  /** The preview sizes the resize buttons step through, as the script lists them. */
  const ResolutionList: seq<string> := ["640 x 480", "1280 x 720", "1920 x 1080", "2560 x 1440"]

  /** The sizes those strings stand for. */
  const PreviewSizes: seq<(int, int)> := [(640, 480), (1280, 720), (1920, 1080), (2560, 1440)]

  /** `width, height = [int(num) for num in s.split() if num.isdigit()]`;
      `None` where unpacking raises `ValueError` (not exactly two numbers). */
  function ParseResolution(s: string): (r: Option<(int, int)>)
    ensures r.Some? ==> r.value.0 >= 0 && r.value.1 >= 0
  {
    var numbers := DigitTokens(Split(s));
    if |numbers| == 2 then
      assert numbers[0] in numbers && numbers[1] in numbers;
      Some((ParseNat(numbers[0]), ParseNat(numbers[1])))
    else None
  }

  /** `"{} x {}".format(width, height)`. */
  function ResolutionText(width: nat, height: nat): string {
    NatToString(width) + " x " + NatToString(height)
  }

  /** Two numbers around " x " parse to the numbers they spell. */
  lemma ParseResolutionOf(w: string, h: string)
    requires IsDigitToken(w) && IsDigitToken(h)
    ensures ParseResolution(w + " x " + h) == Some((ParseNat(w), ParseNat(h)))
  {
    SplitResolution(w, h);
    ResolutionTokens(w, h);
    var numbers := DigitTokens(Split(w + " x " + h));
    assert numbers[0] == w && numbers[1] == h;
  }

  /** Of the words of a "W x H" text, the two numbers are kept and the "x" dropped. */
  lemma ResolutionTokens(w: string, h: string)
    requires IsDigitToken(w) && IsDigitToken(h)
    ensures DigitTokens([w, "x", h]) == [w, h]
  {
    var words := [w, "x", h];
    assert !IsDigitToken("x") by { assert "x"[0] == 'x'; }
    assert words[1..] == ["x", h] && ["x", h][1..] == [h] && [h][1..] == [];
    assert DigitTokens(words) == [w] + DigitTokens(["x", h]);
    assert DigitTokens(["x", h]) == DigitTokens([h]) == [h];
  }

  /** Reading a size back from its "W x H" text gives the size. */
  lemma ParseResolutionText(width: nat, height: nat)
    ensures ParseResolution(ResolutionText(width, height)) == Some((width, height))
  {
    ParseResolutionOf(NatToString(width), NatToString(height));
    ParseNatToString(width);
    ParseNatToString(height);
  }

  /** Two numbers around " x " split into the numbers and the "x". */
  lemma SplitResolution(a: string, b: string)
    requires IsDigitToken(a) && IsDigitToken(b)
    ensures Split(a + " x " + b) == [a, "x", b]
  {
    DigitTokenNoSpace(a);
    Regroup(a, " x ", b);
    SplitWord(a, " x " + b);
    SplitCross(b);
  }

  lemma SplitCross(b: string)
    requires IsDigitToken(b)
    ensures Split(" x " + b) == ["x", b]
  {
    assert " x " + b == [' '] + ("x" + (" " + b));
    SplitLeadingSpace(' ', "x" + (" " + b));
    SplitWord("x", " " + b);
    SplitNumber(b);
  }

  lemma SplitNumber(b: string)
    requires IsDigitToken(b)
    ensures Split(" " + b) == [b]
  {
    DigitTokenNoSpace(b);
    assert " " + b == [' '] + (b + "");
    SplitLeadingSpace(' ', b + "");
    SplitWord(b, "");
  }

  /** Every entry of the preview list parses to the size it names. */
  lemma ResolutionListParses(k: nat)
    requires k < |ResolutionList|
    ensures ParseResolution(ResolutionList[k]) == Some(PreviewSizes[k])
  {
    if k == 0 {
      Text640x480();
    } else if k == 1 {
      Text1280x720();
    } else if k == 2 {
      Text1920x1080();
    } else {
      Text2560x1440();
    }
    ParseResolutionText(PreviewSizes[k].0, PreviewSizes[k].1);
  }

  /** `width, height = [int(num) for num in resolution_list[k].split() if num.isdigit()]`. */
  method ReadPreviewSize(k: nat) returns (width: int, height: int)
    requires k < |ResolutionList|
    ensures (width, height) == PreviewSizes[k]
  {
    ResolutionListParses(k);
    var size := ParseResolution(ResolutionList[k]);
    width, height := size.value.0, size.value.1;
  }

  // Steps of `ResolutionListParses`: the text of each preview-list entry,
  // one entry per lemma so that each unfolds only its own two numbers.

  lemma Text640x480()
    ensures ResolutionList[0] == ResolutionText(640, 480)
  {
    assert NatToString(640) == "640";
    assert NatToString(480) == "480";
  }

  lemma Text1280x720()
    ensures ResolutionList[1] == ResolutionText(1280, 720)
  {
    assert NatToString(1280) == "1280";
    assert NatToString(720) == "720";
  }

  lemma Text1920x1080()
    ensures ResolutionList[2] == ResolutionText(1920, 1080)
  {
    assert NatToString(1920) == "1920";
    assert NatToString(1080) == "1080";
  }

  lemma Text2560x1440()
    ensures ResolutionList[3] == ResolutionText(2560, 1440)
  {
    assert NatToString(2560) == "2560";
    assert NatToString(1440) == "1440";
  }

  /** The preview-size index after one press of "+ Resize +" (`up`) or "- Resize -". */
  function Step(counter: int, up: bool): int {
    if up then (if counter == |ResolutionList| - 1 then counter else counter + 1)
    else (if counter == 0 then counter else counter - 1)
  }

  /** The index after a run of presses. */
  function Steps(counter: int, presses: seq<bool>): int
    decreases |presses|
  {
    if |presses| == 0 then counter else Steps(Step(counter, presses[0]), presses[1..])
  }

  /** One press moves a valid index by at most one place and keeps it valid;
      it stays put exactly at the end it is pushed against. */
  lemma StepInRange(counter: int, up: bool)
    requires 0 <= counter < |ResolutionList|
    ensures 0 <= Step(counter, up) < |ResolutionList|
    ensures Step(counter, up) == counter <==>
      (if up then counter == |ResolutionList| - 1 else counter == 0)
    ensures -1 <= Step(counter, up) - counter <= 1
  {
  }

  /** No run of presses leaves the list. */
  lemma {:induction false} StepsInRange(counter: int, presses: seq<bool>)
    requires 0 <= counter < |ResolutionList|
    ensures 0 <= Steps(counter, presses) < |ResolutionList|
    decreases |presses|
  {
    if |presses| > 0 {
      StepInRange(counter, presses[0]);
      StepsInRange(Step(counter, presses[0]), presses[1..]);
    }
  }

  /** `k` presses of one button, from any valid index, move `k` places or stop at the end. */
  lemma {:induction false} RepeatedPresses(counter: int, up: bool, k: nat)
    requires 0 <= counter < |ResolutionList|
    ensures Steps(counter, seq(k, _ => up)) ==
      if up then Min(counter + k, |ResolutionList| - 1) else Max(counter - k, 0)
    decreases k
  {
    if k > 0 {
      assert seq(k, _ => up)[1..] == seq(k - 1, _ => up);
      RepeatedPresses(Step(counter, up), up, k - 1);
    }
  }

  // ---------------------------------------------------------------------------
  // File names

  /** `now.strftime("%d_%m_%Y_%H_%M_%S")`: no colons, which the Pi's file system disliked. */
  function Stamp(now: DateTime): string { Strftime(now, '_', '_') }

  lemma StampHasNoColon(now: DateTime)
    ensures ':' !in Stamp(now)
  {
    StrftimeChars(now, '_', '_');
  }

  /** Distinct times give distinct stamps. */
  lemma StampInjective(a: DateTime, b: DateTime)
    requires Stamp(a) == Stamp(b)
    ensures a == b
  {
    StrftimeInjective(a, b, '_', '_');
  }

  function ImagePrefix(folder: string, stamp: string): string {
    folder + "/Image_" + stamp + "_no-"
  }

  /** What follows the frame number: the exposure for a long exposure. */
  function ImageSuffix(exposure: int): string {
    FrameSuffix(exposure, "s.jpeg", ".jpeg")
  }

  /** `{folder}/Image_{stamp}_no-{i}.jpeg`, or `..._no-{i}_LE_{exposure}s.jpeg`
      when `exposure > 1`. */
  function ImageName(folder: string, stamp: string, i: nat, exposure: int): string {
    ImagePrefix(folder, stamp) + NatToString(i) + ImageSuffix(exposure)
  }

  /** Within one branch, a name gives back its frame number, and a long
      exposure's name gives back the exposure. */
  lemma ImageNameInjective(folder: string, stamp: string, i: nat, e: int, i': nat, e': int)
    requires (e > 1) == (e' > 1)
    requires ImageName(folder, stamp, i, e) == ImageName(folder, stamp, i', e')
    ensures i == i' && (e > 1 ==> e == e')
  {
    FrameNameInjective(ImagePrefix(folder, stamp), "s.jpeg", ".jpeg", i, e, i', e');
  }

  /** `{folder}/Video_{stamp}_{duration}s.yuv`. */
  function VideoName(folder: string, stamp: string, duration: int): string {
    folder + "/Video_" + stamp + "_" + IntToString(duration) + "s.yuv"
  }

  /** Recordings of different lengths at the same time get different names. */
  lemma VideoNameInjective(folder: string, stamp: string, d: int, d': int)
    requires VideoName(folder, stamp, d) == VideoName(folder, stamp, d')
    ensures d == d'
  {
    var p := folder + "/Video_" + stamp + "_";
    Regroup(p, IntToString(d), "s.yuv");
    Regroup(p, IntToString(d'), "s.yuv");
    StripPrefix(p, IntToString(d) + "s.yuv", IntToString(d') + "s.yuv");
    StripSuffix(IntToString(d), IntToString(d'), "s.yuv");
    IntToStringInjective(d, d');
  }

  // ---------------------------------------------------------------------------
  // Camera settings and captures

  /** A frame rate, kept exact as the fraction `num / den` frames per second. */
  datatype Rate = Rate(num: int, den: int)

  /** The camera attributes the capture handler assigns. */
  datatype Camera = Camera(framerate: Rate, shutterSpeed: int, iso: int, exposureMode: string,
                           colorEffects: Option<(int, int)>, awbMode: string)

  /** The values of the setting spinners, read on every pass of the event loop. */
  datatype Sliders = Sliders(brightness: int, contrast: int, saturation: int, sharpness: int,
                             exposure: int, images: int, timeStep: int, video: int)

  /** The `Parameters` defaults the spinners start at and the Defaults button restores. */
  const DefaultSliders := Sliders(50, 0, 0, 0, 1, 1, 2, 10)

  /** The black frame shown while there is no last image. */
  const Placeholder := "blackimage.png"

  /** One frame taken: its file and the camera attributes it was taken with. */
  datatype Shot = Shot(name: string, settings: Camera)

  /** The camera before the frames: grey-scale effect as ticked, white balance 'auto'. */
  function Prepared(camera: Camera, greyscale: bool): Camera {
    camera.(colorEffects := if greyscale then Some((128, 128)) else None, awbMode := "auto")
  }

  /** The attributes a frame is taken with: for a long exposure, frame rate
      `1/exposure`, shutter `exposure` seconds in microseconds, ISO 800 and
      exposure mode 'off'; otherwise the prepared camera as it is. */
  function ShotSettings(prepared: Camera, exposure: int): Camera {
    if exposure > 1 then
      prepared.(framerate := Rate(1, exposure), shutterSpeed := exposure * 1000000,
                iso := 800, exposureMode := "off")
    else prepared
  }

  /** The frames of a capture of `count` images. */
  function Shots(folder: string, stamp: string, exposure: int, prepared: Camera, count: nat): (r: seq<Shot>)
    ensures |r| == count
  {
    seq(count, i requires 0 <= i < count => Shot(ImageName(folder, stamp, i, exposure), ShotSettings(prepared, exposure)))
  }

  /** The camera once a capture is over: after a long exposure the preview
      frame rate 30 and exposure mode 'auto' are restored, while shutter and
      ISO keep their long-exposure values. */
  function Restored(prepared: Camera, exposure: int, count: nat): Camera {
    if exposure > 1 then
      var last := if count > 0 then ShotSettings(prepared, exposure) else prepared;
      last.(framerate := Rate(30, 1), exposureMode := "auto")
    else prepared
  }

  function Names(shots: seq<Shot>): (r: seq<string>)
    ensures |r| == |shots|
  {
    seq(|shots|, k requires 0 <= k < |shots| => shots[k].name)
  }

  lemma ShotsAppend(folder: string, stamp: string, exposure: int, prepared: Camera, count: nat)
    ensures Shots(folder, stamp, exposure, prepared, count + 1) == Shots(folder, stamp, exposure, prepared, count) +
      [Shot(ImageName(folder, stamp, count, exposure), ShotSettings(prepared, exposure))]
  {
  }

  lemma NamesAppend(shots: seq<Shot>, shot: Shot)
    ensures Names(shots + [shot]) == Names(shots) + [shot.name]
  {
  }

  /** The frames of one capture never share a file name. */
  lemma ShotNamesDistinct(folder: string, stamp: string, exposure: int, prepared: Camera, count: nat, i: nat, j: nat)
    requires i < j < count
    ensures Shots(folder, stamp, exposure, prepared, count)[i].name != Shots(folder, stamp, exposure, prepared, count)[j].name
  {
    if ImageName(folder, stamp, i, exposure) == ImageName(folder, stamp, j, exposure) {
      ImageNameInjective(folder, stamp, i, exposure, j, exposure);
    }
  }

  /** After the Defaults button, a capture takes exactly one ordinary frame,
      `..._no-0.jpeg`, with the camera as prepared. */
  lemma DefaultCapture(folder: string, stamp: string, prepared: Camera)
    ensures Shots(folder, stamp, DefaultSliders.exposure, prepared, DefaultSliders.images)
      == [Shot(folder + "/Image_" + stamp + "_no-0.jpeg", prepared)]
    ensures Restored(prepared, DefaultSliders.exposure, DefaultSliders.images) == prepared
  {
    var p := folder + "/Image_" + stamp;
    assert NatToString(0) == "0";
    assert ImageName(folder, stamp, 0, 1) == p + "_no-" + "0" + ".jpeg";
    Regroup(p, "_no-", "0");
    Regroup(p, "_no-" + "0", ".jpeg");
    assert "_no-" + "0" + ".jpeg" == "_no-0.jpeg";
  }

  /** The result of pressing Capture. */
  datatype CaptureOutcome =
    | Captured(shots: seq<Shot>, converted: seq<string>)
      // the frames taken, and the files handed to the DNG converter
    | NoImageName
      // zero frames with no earlier capture: `image_save_file_name` is unbound (NameError)

  /** The Delete button's decision for a last image: the file it tries to
      remove, and the reference afterwards given whether the removal succeeds. */
  function DeleteOutcome(last: string, removable: bool): (r: (Option<string>, string)) {
    if last == Placeholder then (None, last)
    else if removable then (Some(last), Placeholder)
    else (Some(last), last)
  }

  /** Delete never removes the placeholder, and once a removal succeeds a
      second Delete tries nothing. */
  lemma DeleteSettles(last: string, removable: bool, again: bool)
    ensures DeleteOutcome(last, removable).0 == None <==> last == Placeholder
    ensures DeleteOutcome(last, removable).0 != Some(Placeholder)
    ensures removable ==> DeleteOutcome(DeleteOutcome(last, removable).1, again) == (None, Placeholder)
  {
  }

  /** The DNG flag after the checkbox has been seen in each of `ticks`. */
  function Latch(flag: bool, ticks: seq<bool>): bool
    decreases |ticks|
  {
    if |ticks| == 0 then flag else Latch(flag || ticks[0], ticks[1..])
  }

  /** The flag is set exactly when it started set or the box was ever ticked:
      it never returns to false. */
  lemma {:induction false} LatchEver(flag: bool, ticks: seq<bool>)
    ensures Latch(flag, ticks) == (flag || true in ticks)
    decreases |ticks|
  {
    if |ticks| > 0 {
      LatchEver(flag || ticks[0], ticks[1..]);
      assert ticks == [ticks[0]] + ticks[1..];
    }
  }

  /** The state `main` keeps across passes of its event loop, together with
      the class attribute `Parameters.default_last_image`. */
  class Session {
    var resCounter: int
    var width: int
    var height: int
    var dngConvert: bool
    var lastImage: string
    var saved: Option<string>
    var folder: string
    var sliders: Sliders
    var camera: Camera

    /** The preview index is inside the list and the preview size is its entry. */
    predicate Valid()
      reads this
    {
      0 <= resCounter < |ResolutionList| && (width, height) == PreviewSizes[resCounter]
    }

    /** The state as `main` sets it up, with the camera as it is opened. */
    constructor(folder: string, camera: Camera)
      ensures Valid() && resCounter == 0 && (width, height) == (640, 480)
      ensures !dngConvert && lastImage == Placeholder && saved == None
      ensures this.folder == folder && sliders == DefaultSliders && this.camera == camera
    {
      resCounter := 0;
      dngConvert := false;
      lastImage := Placeholder;
      saved := None;
      this.folder := folder;
      sliders := DefaultSliders;
      this.camera := camera;
      new;
      width, height := ReadPreviewSize(resCounter);
    }

    /** "+ Resize +" (`up`) or "- Resize -": step the index, then re-read the size from the list. */
    method Resize(up: bool)
      requires Valid()
      modifies this`resCounter, this`width, this`height
      ensures Valid() && resCounter == Step(old(resCounter), up)
    {
      if up {
        if resCounter == |ResolutionList| - 1 {
        } else {
          resCounter := resCounter + 1;
        }
      } else {
        if resCounter == 0 {
        } else {
          resCounter := resCounter - 1;
        }
      }
      width, height := ReadPreviewSize(resCounter);
    }

    /** The convert-to-DNG checkbox as read on one pass: a tick sets the flag, nothing clears it. */
    method ObserveConvertDng(checked: bool)
      modifies this`dngConvert
      ensures dngConvert == Latch(old(dngConvert), [checked])
    {
      if checked {
        dngConvert := true;
      }
    }

    /** The spinner values read on one pass. */
    method ReadSliders(values: Sliders)
      modifies this`sliders
      ensures sliders == values
    {
      sliders := values;
    }

    /** The Defaults button. */
    method Defaults()
      modifies this`sliders
      ensures sliders == DefaultSliders
    {
      sliders := DefaultSliders;
    }

    /** The Delete button of the last-image window; `removable` is whether
        `os.remove` succeeds (a failure is swallowed). */
    method Delete(removable: bool) returns (removed: Option<string>)
      modifies this`lastImage
      ensures (removed, lastImage) == DeleteOutcome(old(lastImage), removable)
    {
      removed := None;
      if lastImage == Placeholder {
      } else {
        removed := Some(lastImage);
        if removable {
          lastImage := Placeholder;
        }
      }
    }

    /** The Capture button at time `now`: the frames are numbered from 0 and
        share one stamp; each file goes to the DNG converter when the flag is
        set; the last file becomes the last image. */
    method Capture(now: DateTime, greyscale: bool) returns (outcome: CaptureOutcome)
      modifies this`camera, this`saved, this`lastImage
      ensures camera == Restored(Prepared(old(camera), greyscale), sliders.exposure, Max(sliders.images, 0))
      ensures saved == if sliders.images > 0 then Some(ImageName(folder, Stamp(now), sliders.images - 1, sliders.exposure)) else old(saved)
      ensures var shots := Shots(folder, Stamp(now), sliders.exposure, Prepared(old(camera), greyscale), Max(sliders.images, 0));
        outcome.Captured? ==> outcome.shots == shots && outcome.converted == (if dngConvert then Names(shots) else [])
      ensures outcome.NoImageName? <==> saved.None?
      ensures lastImage == (if outcome.Captured? then saved.value else old(lastImage))
    {
      camera := Prepared(camera, greyscale);
      ghost var prepared := camera;
      var stamp := Stamp(now);
      var exposure, count := sliders.exposure, Max(sliders.images, 0);
      var shots: seq<Shot> := [];
      var converted: seq<string> := [];
      var i := 0;
      while i < count
        invariant 0 <= i <= count
        invariant shots == Shots(folder, stamp, exposure, prepared, i)
        invariant converted == (if dngConvert then Names(shots) else [])
        invariant camera == (if i > 0 then ShotSettings(prepared, exposure) else prepared)
        invariant saved == (if i > 0 then Some(ImageName(folder, stamp, i - 1, exposure)) else old(saved))
        invariant lastImage == old(lastImage)
      {
        camera := ShotSettings(camera, exposure);
        var name := ImageName(folder, stamp, i, exposure);
        ShotsAppend(folder, stamp, exposure, prepared, i);
        NamesAppend(shots, Shot(name, camera));
        saved := Some(name);
        shots := shots + [Shot(name, camera)];
        if dngConvert {
          converted := converted + [name];
        }
        i := i + 1;
      }
      if exposure > 1 {
        camera := camera.(framerate := Rate(30, 1), exposureMode := "auto");
      }
      if saved.None? {
        return NoImageName;
      }
      lastImage := saved.value;
      return Captured(shots, converted);
    }
  }
}
