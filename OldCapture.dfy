/** The command builder of the earlier, raspistill-based revision of the
    AstroPitography script: time stamps and file names (which in this revision
    contain colons), the raspistill command lines of the long-exposure and the
    ordinary branch with their optional flags, and the Defaults button. Running
    a command, the OpenCV preview and the DNG conversion are outside the model;
    the slider and checkbox values and the time come in as parameters. */
module OldCapture {
  import opened Text
  import opened Arith

  // ---------------------------------------------------------------------------
  // Numbers as the format strings print them

  /** `'{}'.format(x)` of a float `x` holding the whole number `n`: Python
      prints the digits followed by `.0`. */
  function FloatText(n: int): string {
    IntToString(n) + ".0"
  }

  /** Different whole numbers print differently. */
  lemma FloatTextInjective(a: int, b: int)
    requires FloatText(a) == FloatText(b)
    ensures a == b
  {
    StripSuffix(IntToString(a), IntToString(b), ".0");
    IntToStringInjective(a, b);
  }

  lemma FloatTextNoSpace(n: int)
    ensures NoSpace(FloatText(n))
  {
    IntToStringNoSpace(n);
  }

  // ---------------------------------------------------------------------------
  // File names

  /** `now.strftime("%d:%m:%Y_%H:%M:%S")`. */
  function Stamp(now: DateTime): string { Strftime(now, ':', ':') }

  /** Distinct times give distinct stamps. */
  lemma StampInjective(a: DateTime, b: DateTime)
    requires Stamp(a) == Stamp(b)
    ensures a == b
  {
    StrftimeInjective(a, b, ':', ':');
  }

  /** What follows the frame number: the exposure for a long exposure. */
  function ImageSuffix(exposure: int): string {
    FrameSuffix(exposure, "s.jpg", ".jpg")
  }

  function ImagePrefix(folder: string, stamp: string): string {
    folder + "/Image_" + stamp + "_no:"
  }

  /** `{folder}/Image_{stamp}_no:{i}.jpg`, or `..._no:{i}_LE_{exposure}s.jpg`
      when `exposure > 1`. */
  function ImageName(folder: string, stamp: string, i: nat, exposure: int): string {
    ImagePrefix(folder, stamp) + NatToString(i) + ImageSuffix(exposure)
  }

  /** Every file name of this revision holds colons: in the stamp, and after `_no`. */
  lemma ImageNameHasColons(folder: string, now: DateTime, i: nat, exposure: int)
    ensures var name := ImageName(folder, Stamp(now), i, exposure);
      ':' in name && name[|folder + "/Image_" + Stamp(now)| + 3] == ':'
  {
    var p := folder + "/Image_" + Stamp(now);
    var name := ImageName(folder, Stamp(now), i, exposure);
    Regroup(p, "_no:", NatToString(i) + ImageSuffix(exposure));
    Regroup(ImagePrefix(folder, Stamp(now)), NatToString(i), ImageSuffix(exposure));
    assert name == p + ("_no:" + (NatToString(i) + ImageSuffix(exposure)));
    assert name[|p| + 3] == "_no:"[3];
  }

  /** Within one branch, a name gives back its frame number, and a long
      exposure's name gives back the exposure. */
  lemma ImageNameInjective(folder: string, stamp: string, i: nat, e: int, i': nat, e': int)
    requires (e > 1) == (e' > 1)
    requires ImageName(folder, stamp, i, e) == ImageName(folder, stamp, i', e')
    ensures i == i' && (e > 1 ==> e == e')
  {
    FrameNameInjective(ImagePrefix(folder, stamp), "s.jpg", ".jpg", i, e, i', e');
  }

  /** `{folder}/Video_{stamp}_{duration}s.avi`; the slider hands over the
      duration as a float, so it prints as `10.0`. */
  function VideoName(folder: string, stamp: string, duration: int): string {
    folder + "/Video_" + stamp + "_" + FloatText(duration) + "s.avi"
  }

  /** Recordings of different lengths at the same time get different names. */
  lemma VideoNameInjective(folder: string, stamp: string, d: int, d': int)
    requires VideoName(folder, stamp, d) == VideoName(folder, stamp, d')
    ensures d == d'
  {
    var p := folder + "/Video_" + stamp + "_";
    Regroup(p, FloatText(d), "s.avi");
    Regroup(p, FloatText(d'), "s.avi");
    StripPrefix(p, FloatText(d) + "s.avi", FloatText(d') + "s.avi");
    StripSuffix(FloatText(d), FloatText(d'), "s.avi");
    FloatTextInjective(d, d');
  }

  // ---------------------------------------------------------------------------
  // Optional flags

  /** The four checkboxes that add flags to a command. */
  datatype Toggles = Toggles(hflip: bool, vflip: bool, greyscale: bool, whitebalance: bool)

  const HFlip := " --hflip"
  const VFlip := " --vflip"
  const Greyscale := " -cfx 128:128"
  const WhiteBalance := " -awb off -awbg '1.0,1.0'"

  function Opt(on: bool, flag: string): string { if on then flag else "" }

  /** The flags of the ticked boxes, in the fixed order hflip, vflip, greyscale, white balance. */
  function Flags(t: Toggles): string {
    Opt(t.hflip, HFlip) + (Opt(t.vflip, VFlip) + (Opt(t.greyscale, Greyscale) + Opt(t.whitebalance, WhiteBalance)))
  }

  /** `s` with the flag `p` taken off its front, and whether it was there. */
  function Strip(s: string, p: string): (string, bool) {
    if |p| <= |s| && s[..|p|] == p then (s[|p|..], true) else (s, false)
  }

  /** The checkboxes read back from a run of flags, in the order they are written. */
  function DecodeFlags(s: string): Toggles {
    var (s1, h) := Strip(s, HFlip);
    var (s2, v) := Strip(s1, VFlip);
    var (s3, g) := Strip(s2, Greyscale);
    var (_, w) := Strip(s3, WhiteBalance);
    Toggles(h, v, g, w)
  }

  lemma StripOwn(p: string, rest: string)
    ensures Strip(p + rest, p) == (rest, true)
  {
    assert (p + rest)[..|p|] == p;
    assert (p + rest)[|p|..] == rest;
  }

  /** A text that differs from `p` at some place inside both does not start with `p`. */
  lemma StripOther(s: string, p: string, k: nat)
    requires k < |p| && k < |s| && s[k] != p[k]
    ensures Strip(s, p) == (s, false)
  {
    if |p| <= |s| {
      assert s[..|p|][k] == s[k];
    }
  }

  /** Reading one flag off `Opt(on, p) + rest` gives back `on` and `rest`,
      when `rest` is empty or differs from `p` within its first `|p|` places. */
  lemma StripOpt(on: bool, p: string, rest: string, k: nat)
    requires k < |p|
    requires rest == "" || (k < |rest| && rest[k] != p[k])
    ensures Strip(Opt(on, p) + rest, p) == (rest, on)
  {
    if on {
      StripOwn(p, rest);
    } else if rest == "" {
      assert Opt(on, p) + rest == "";
    } else {
      assert Opt(on, p) + rest == rest;
      StripOther(rest, p, k);
    }
  }

  /** The flags of a command give back exactly the boxes that were ticked. */
  lemma DecodeFlagsRoundTrip(t: Toggles)
    ensures DecodeFlags(Flags(t)) == t
  {
    var r4 := Opt(t.whitebalance, WhiteBalance);
    var r3 := Opt(t.greyscale, Greyscale) + r4;
    var r2 := Opt(t.vflip, VFlip) + r3;
    assert r4 == "" || (2 < |r4| && r4[2] == 'a');
    assert r3 == "" || (2 < |r3| && r3[2] != '-') by {
      if t.greyscale {
        assert r3[2] == Greyscale[2] == 'c';
      }
    }
    assert r2 == "" || (3 < |r2| && r2[3] != HFlip[3] && (r2[2] != '-' || r2[3] == 'v')) by {
      if t.vflip {
        assert r2[3] == VFlip[3] == 'v';
      } else {
        assert r2 == r3;
      }
    }
    StripOpt(t.hflip, HFlip, r2, if r2 != "" && r2[2] != '-' then 2 else 3);
    StripOpt(t.vflip, VFlip, r3, 2);
    StripOpt(t.greyscale, Greyscale, r4, 2);
    StripOpt(t.whitebalance, WhiteBalance, "", 0);
    assert r4 + "" == r4;
  }

  // ---------------------------------------------------------------------------
  // Commands

  /** The slider values read on every pass of the event loop. */
  datatype Sliders = Sliders(brightness: int, contrast: int, saturation: int, sharpness: int,
                             exposure: int, iso: int, images: int, timeStep: int, video: int)

  /** The defaults `main` starts from and the Defaults button restores. */
  const DefaultSliders := Sliders(50, 0, 0, 0, 1, 800, 1, 2, 10)

  const LongExposureHead := "raspistill --nopreview -r -t 10 -md 3 -ex off -ag 1 --shutter "
  const RawHead := "raspistill --nopreview -t 10 -r -md 3 --brightness "

  /** The long-exposure command: shutter `exposure * 1E6` microseconds as a
      float, the ISO and the output file; no picture adjustments. */
  function LongExposureCommand(exposure: int, iso: int, name: string): string {
    LongExposureHead + (FloatText(exposure * 1000000) + (" -ISO " + (IntToString(iso) + (" -st -o " + name))))
  }

  /** The ordinary command: brightness, contrast, saturation, sharpness, ISO
      and the output file, in that order. */
  function RawCommand(brightness: int, contrast: int, saturation: int, sharpness: int, iso: int, name: string): string {
    RawHead + (IntToString(brightness) + (" --contrast " + (IntToString(contrast) + (" --saturation " +
      (IntToString(saturation) + (" --sharpness " + (IntToString(sharpness) + (" -ISO " + (IntToString(iso) +
      (" -st -o " + name))))))))))
  }

  /** The branch's command for one frame: long exposure when `exposure > 1`. */
  function BaseCommand(v: Sliders, name: string): string {
    if v.exposure > 1 then LongExposureCommand(v.exposure, v.iso, name)
    else RawCommand(v.brightness, v.contrast, v.saturation, v.sharpness, v.iso, name)
  }

  /** The command for one frame: the branch's command, then the flags. */
  function Command(v: Sliders, t: Toggles, name: string): string {
    BaseCommand(v, name) + Flags(t)
  }

  /** `x + sep + rest` read back: `x` free of the separator's first character
      is fixed by the text, and so is the rest. */
  lemma Field(x: string, sep: string, rest: string, x': string, rest': string)
    requires |sep| > 0 && sep[0] == ' ' && NoSpace(x) && NoSpace(x')
    requires x + (sep + rest) == x' + (sep + rest')
    ensures x == x' && rest == rest'
  {
    Regroup(x, sep, rest);
    Regroup(x', sep, rest');
    SplitAtSeparator(x, rest, x', rest', sep);
  }

  /** The ordinary command gives back every number it embeds and the file name. */
  lemma RawCommandInjective(b: int, c: int, s: int, h: int, iso: int, name: string,
                            b': int, c': int, s': int, h': int, iso': int, name': string)
    requires RawCommand(b, c, s, h, iso, name) == RawCommand(b', c', s', h', iso', name')
    ensures b == b' && c == c' && s == s' && h == h' && iso == iso' && name == name'
  {
    var B, C, S, H, I := IntToString(b), IntToString(c), IntToString(s), IntToString(h), IntToString(iso);
    var B', C', S', H', I' := IntToString(b'), IntToString(c'), IntToString(s'), IntToString(h'), IntToString(iso');
    IntToStringNoSpace(b); IntToStringNoSpace(c); IntToStringNoSpace(s); IntToStringNoSpace(h); IntToStringNoSpace(iso);
    IntToStringNoSpace(b'); IntToStringNoSpace(c'); IntToStringNoSpace(s'); IntToStringNoSpace(h'); IntToStringNoSpace(iso');
    var r5, r5' := I + (" -st -o " + name), I' + (" -st -o " + name');
    var r4, r4' := H + (" -ISO " + r5), H' + (" -ISO " + r5');
    var r3, r3' := S + (" --sharpness " + r4), S' + (" --sharpness " + r4');
    var r2, r2' := C + (" --saturation " + r3), C' + (" --saturation " + r3');
    var r1, r1' := B + (" --contrast " + r2), B' + (" --contrast " + r2');
    StripPrefix(RawHead, r1, r1');
    Field(B, " --contrast ", r2, B', r2');
    Field(C, " --saturation ", r3, C', r3');
    Field(S, " --sharpness ", r4, S', r4');
    Field(H, " -ISO ", r5, H', r5');
    Field(I, " -st -o ", name, I', name');
    IntToStringInjective(b, b'); IntToStringInjective(c, c'); IntToStringInjective(s, s');
    IntToStringInjective(h, h'); IntToStringInjective(iso, iso');
  }

  /** The long-exposure command gives back its exposure, ISO and file name. */
  lemma LongExposureCommandInjective(e: int, iso: int, name: string, e': int, iso': int, name': string)
    requires LongExposureCommand(e, iso, name) == LongExposureCommand(e', iso', name')
    ensures e == e' && iso == iso' && name == name'
  {
    var E, I := FloatText(e * 1000000), IntToString(iso);
    var E', I' := FloatText(e' * 1000000), IntToString(iso');
    FloatTextNoSpace(e * 1000000); FloatTextNoSpace(e' * 1000000);
    IntToStringNoSpace(iso); IntToStringNoSpace(iso');
    var r2, r2' := I + (" -st -o " + name), I' + (" -st -o " + name');
    var r1, r1' := E + (" -ISO " + r2), E' + (" -ISO " + r2');
    StripPrefix(LongExposureHead, r1, r1');
    Field(E, " -ISO ", r2, E', r2');
    Field(I, " -st -o ", name, I', name');
    FloatTextInjective(e * 1000000, e' * 1000000);
    IntToStringInjective(iso, iso');
  }

  /** A long exposure ignores the brightness, contrast, saturation and sharpness sliders. */
  lemma LongExposureIgnoresPicture(v: Sliders, t: Toggles, name: string, b: int, c: int, s: int, h: int)
    requires v.exposure > 1
    ensures Command(v, t, name) == Command(v.(brightness := b, contrast := c, saturation := s, sharpness := h), t, name)
    ensures Command(v, t, name) == LongExposureCommand(v.exposure, v.iso, name) + Flags(t)
  {
  }

  /** `command` with `flag` appended when its box is ticked. */
  method AppendFlag(command: string, on: bool, flag: string) returns (r: string)
    ensures r == command + Opt(on, flag)
  {
    r := command;
    if on {
      r := r + flag;
    }
  }

  /** The command for one frame, grown by appending each ticked flag in turn. */
  method BuildCommand(v: Sliders, t: Toggles, name: string) returns (command: string)
    ensures command == Command(v, t, name)
  {
    var head;
    if v.exposure > 1 {
      head := LongExposureCommand(v.exposure, v.iso, name);
    } else {
      head := RawCommand(v.brightness, v.contrast, v.saturation, v.sharpness, v.iso, name);
    }
    command := AppendFlag(head, t.hflip, HFlip);
    command := AppendFlag(command, t.vflip, VFlip);
    command := AppendFlag(command, t.greyscale, Greyscale);
    command := AppendFlag(command, t.whitebalance, WhiteBalance);
    FlagsAppended(head, Opt(t.hflip, HFlip), Opt(t.vflip, VFlip), Opt(t.greyscale, Greyscale), Opt(t.whitebalance, WhiteBalance));
  }

  lemma FlagsAppended(head: string, a: string, b: string, c: string, d: string)
    ensures head + a + b + c + d == head + (a + (b + (c + d)))
  {
    Regroup(head, a, b);
    Regroup(head, a + b, c);
    Regroup(head, a + b + c, d);
    Regroup(a, b, c);
    Regroup(a, b + c, d);
    Regroup(b, c, d);
  }

  /** The commands of frames `0 .. count - 1` taken at one stamp. */
  function Commands(v: Sliders, t: Toggles, folder: string, stamp: string, count: nat): (r: seq<string>)
    ensures |r| == count
  {
    seq(count, i requires 0 <= i < count => Command(v, t, ImageName(folder, stamp, i, v.exposure)))
  }

  lemma CommandsAppend(v: Sliders, t: Toggles, folder: string, stamp: string, count: nat)
    ensures Commands(v, t, folder, stamp, count + 1) ==
      Commands(v, t, folder, stamp, count) + [Command(v, t, ImageName(folder, stamp, count, v.exposure))]
  {
    var longer, shorter := Commands(v, t, folder, stamp, count + 1), Commands(v, t, folder, stamp, count);
    var next := Command(v, t, ImageName(folder, stamp, count, v.exposure));
    forall i | 0 <= i < count + 1
      ensures longer[i] == (shorter + [next])[i]
    {
      if i < count {
        assert longer[i] == shorter[i];
      }
    }
  }

  /** The commands of a capture of `v.images` frames at one stamp, one per frame
      number; `last` is the file the DNG conversion then reads (the previous
      capture's when no frame is taken). */
  method CaptureCommands(v: Sliders, t: Toggles, folder: string, stamp: string, previous: Option<string>)
    returns (commands: seq<string>, last: Option<string>)
    ensures commands == Commands(v, t, folder, stamp, Max(v.images, 0))
    ensures last == if v.images > 0 then Some(ImageName(folder, stamp, v.images - 1, v.exposure)) else previous
  {
    commands := [];
    last := previous;
    var i := 0;
    while i < v.images
      invariant 0 <= i <= Max(v.images, 0)
      invariant commands == Commands(v, t, folder, stamp, i)
      invariant last == if i > 0 then Some(ImageName(folder, stamp, i - 1, v.exposure)) else previous
    {
      var name := ImageName(folder, stamp, i, v.exposure);
      var command := BuildCommand(v, t, name);
      CommandsAppend(v, t, folder, stamp, i);
      commands := commands + [command];
      last := Some(name);
      i := i + 1;
    }
  }

  /** The frames of one capture are taken with pairwise different commands,
      since their file names differ. */
  lemma CaptureCommandsDistinct(v: Sliders, t: Toggles, folder: string, stamp: string, i: nat, j: nat)
    requires i != j
    ensures Command(v, t, ImageName(folder, stamp, i, v.exposure)) != Command(v, t, ImageName(folder, stamp, j, v.exposure))
  {
    var n, n' := ImageName(folder, stamp, i, v.exposure), ImageName(folder, stamp, j, v.exposure);
    if Command(v, t, n) == Command(v, t, n') {
      StripSuffix(Command(v, t, n)[..|Command(v, t, n)| - |Flags(t)|], Command(v, t, n')[..|Command(v, t, n')| - |Flags(t)|], Flags(t));
      if v.exposure > 1 {
        assert LongExposureCommand(v.exposure, v.iso, n) + Flags(t) == LongExposureCommand(v.exposure, v.iso, n') + Flags(t);
        StripSuffix(LongExposureCommand(v.exposure, v.iso, n), LongExposureCommand(v.exposure, v.iso, n'), Flags(t));
        LongExposureCommandInjective(v.exposure, v.iso, n, v.exposure, v.iso, n');
      } else {
        StripSuffix(RawCommand(v.brightness, v.contrast, v.saturation, v.sharpness, v.iso, n),
                    RawCommand(v.brightness, v.contrast, v.saturation, v.sharpness, v.iso, n'), Flags(t));
        RawCommandInjective(v.brightness, v.contrast, v.saturation, v.sharpness, v.iso, n,
                            v.brightness, v.contrast, v.saturation, v.sharpness, v.iso, n');
      }
      ImageNameInjective(folder, stamp, i, v.exposure, j, v.exposure);
    }
  }

  // ---------------------------------------------------------------------------
  // The window's controls

  /** The slider and checkbox values shown in the window, the save folder, and
      `main`'s `image_save_file_name`, which outlives a single capture. */
  class Controls {
    var values: Sliders
    var toggles: Toggles
    var folder: string
    var saved: Option<string>

    /** The window as it opens: default sliders, boxes unticked. */
    constructor(folder: string)
      ensures values == DefaultSliders && toggles == Toggles(false, false, false, false)
      ensures this.folder == folder && saved == None
    {
      values := DefaultSliders;
      toggles := Toggles(false, false, false, false);
      this.folder := folder;
      saved := None;
    }

    /** The Defaults button: every slider back to its default; the boxes and the folder stay. */
    method Defaults()
      modifies this`values
      ensures values == DefaultSliders
    {
      values := DefaultSliders;
    }

    /** The Capture button at time `now`: the commands run for the frames, and
        the file then handed to the DNG converter and removed. With no frame
        taken there is none (`None`): the script stops, with a NameError when
        no capture ever bound the name, and otherwise because the name still
        held is that of the previous capture's file, which was removed then. */
    method Capture(now: DateTime) returns (commands: seq<string>, converted: Option<string>)
      modifies this`saved
      ensures commands == Commands(values, toggles, folder, Stamp(now), Max(values.images, 0))
      ensures saved == (if values.images > 0 then Some(ImageName(folder, Stamp(now), values.images - 1, values.exposure)) else old(saved))
      ensures converted == (if values.images > 0 then saved else None)
    {
      commands, saved := CaptureCommands(values, toggles, folder, Stamp(now), saved);
      converted := if values.images > 0 then saved else None;
    }
  }
}
