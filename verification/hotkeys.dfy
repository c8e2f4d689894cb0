/** The host-side control logic of softhddevice-drm.cpp: the hot-key state
    machine of the plugin menu (blue + one or two digits, red + one digit),
    the actions the hot-keys trigger on the plugin's settings, and the
    signed encoding of the audio pass-through setting in the setup file.
    The on-screen messages, the log lines and `ResetChannelId` are not
    modelled. */
module Hotkeys {
  import opened Common
  import opened Codec
  import opened Render

  // ---------------------------------------------------------------------
  // The key state machine of cSoftHdMenu::ProcessKey (962-1024)

  /** `HkState` (softhddevice-drm.cpp:827-833). */
  datatype HotkeyState = HksInitial | HksBlue | HksBlue1 | HksRed

  type Digit = d: int | 0 <= d <= 9

  /** The keys the state machine tells apart: `k0`..`k9`, `kBlue`, `kRed`,
      `kOk`, and every other key. */
  datatype Key = KDigit(d: Digit) | KBlue | KRed | KOk | KOther(code: int)

  /** `osContinue`, `osEnd`, or the reply of the standard menu handling
      `cOsdMenu::ProcessKey`, which is not modelled. */
  datatype KeyReply = Continue | End | Standard

  /** The state and code after a key, the reply, and the hot-key it fires. */
  datatype KeyStep = KeyStep(state: HotkeyState, code: int, reply: KeyReply, fired: Option<int>)

  /** The tail shared by `HksRed` and the fall-through out of `HksBlue1`. */
  function RedStep(code: int, key: Key): KeyStep
  {
    if key.KDigit? then KeyStep(HksInitial, 100 + key.d, End, Some(100 + key.d))
    else KeyStep(HksInitial, code, Standard, None)
  }

  /** One key. From `HksInitial` blue and red arm the machine; any other
      key goes to the standard menu. A digit after blue is remembered; a
      second digit or Ok then fires the one- or two-digit code. A digit
      after red fires 100 + digit. Everything unexpected disarms. The
      `HksBlue1` case has no `break` before `HksRed` and falls into it. */
  function Step(state: HotkeyState, code: int, key: Key): (r: KeyStep)
    ensures r.state == HksBlue <==> state == HksInitial && key == KBlue
    ensures r.state == HksRed <==> state == HksInitial && key == KRed
    ensures r.state == HksBlue1 <==> state == HksBlue && key.KDigit?
    ensures r.state == HksBlue1 ==> r.code == key.d
    ensures r.reply == Continue <==> r.state != HksInitial
    ensures r.reply == End <==> r.fired.Some?
    ensures r.fired.Some? <==>
      (state == HksBlue1 && (key.KDigit? || key == KOk)) || (state == HksRed && key.KDigit?)
    ensures state == HksBlue1 && key.KDigit? ==> r.fired == Some(10 * code + key.d)
    ensures state == HksBlue1 && key == KOk ==> r.fired == Some(code)
    ensures state == HksRed && key.KDigit? ==> r.fired == Some(100 + key.d)
    ensures r.fired.Some? ==> r.code == r.fired.value
    ensures r.reply == Standard ==> r.code == code
  {
    match state
    case HksInitial =>
      if key == KBlue then KeyStep(HksBlue, code, Continue, None)
      else if key == KRed then KeyStep(HksRed, code, Continue, None)
      else KeyStep(HksInitial, code, Standard, None)
    case HksBlue =>
      if key.KDigit? then KeyStep(HksBlue1, key.d, Continue, None)
      else KeyStep(HksInitial, code, Standard, None)
    case HksBlue1 =>
      if key.KDigit? then KeyStep(HksInitial, code * 10 + key.d, End, Some(code * 10 + key.d))
      else if key == KOk then KeyStep(HksInitial, code, End, Some(code))
      else RedStep(code, key)
    case HksRed =>
      RedStep(code, key)
  }

  /** The missing `break` changes nothing: a key that falls out of
      `HksBlue1` is never a digit, so `HksRed` only disarms. */
  lemma FallThroughHarmless(code: int, key: Key)
    requires !key.KDigit? && key != KOk
    ensures Step(HksBlue1, code, key) == KeyStep(HksInitial, code, Standard, None)
  {
  }

  /** The states and codes of a run of keys, and the codes fired on the way. */
  function Run(state: HotkeyState, code: int, keys: seq<Key>): (r: (HotkeyState, int, seq<int>))
    decreases |keys|
  {
    if keys == [] then (state, code, [])
    else
      var s := Step(state, code, keys[0]);
      var rest := Run(s.state, s.code, keys[1..]);
      (rest.0, rest.1, (if s.fired.Some? then [s.fired.value] else []) + rest.2)
  }

  /** Running one key then the rest. */
  lemma RunCons(state: HotkeyState, code: int, k: Key, rest: seq<Key>)
    ensures var s := Step(state, code, k);
      var r := Run(s.state, s.code, rest);
      Run(state, code, [k] + rest) == (r.0, r.1, if s.fired.Some? then [s.fired.value] + r.2 else r.2)
  {
    assert ([k] + rest)[0] == k && ([k] + rest)[1..] == rest;
    assert [] + Run(Step(state, code, k).state, Step(state, code, k).code, rest).2 ==
      Run(Step(state, code, k).state, Step(state, code, k).code, rest).2;
  }

  /** Running `a` and then `b` is running `a + b`: the second run starts
      in the state and with the code the first leaves, and the fired codes
      are those of the first followed by those of the second. */
  lemma {:induction false} RunAppend(state: HotkeyState, code: int, a: seq<Key>, b: seq<Key>)
    ensures var ra := Run(state, code, a);
      var rb := Run(ra.0, ra.1, b);
      Run(state, code, a + b) == (rb.0, rb.1, ra.2 + rb.2)
    decreases |a|
  {
    if a == [] {
      assert a + b == b;
      assert Run(state, code, a) == (state, code, []);
      assert [] + Run(state, code, b).2 == Run(state, code, b).2;
    } else {
      var s := Step(state, code, a[0]);
      var f := if s.fired.Some? then [s.fired.value] else [];
      var r1 := Run(s.state, s.code, a[1..]);
      var rb := Run(r1.0, r1.1, b);
      assert (a + b)[0] == a[0] && (a + b)[1..] == a[1..] + b;
      assert Run(state, code, a) == (r1.0, r1.1, f + r1.2);
      RunAppend(s.state, s.code, a[1..], b);
      assert Run(state, code, a + b) == (rb.0, rb.1, f + (r1.2 + rb.2));
      assert f + (r1.2 + rb.2) == (f + r1.2) + rb.2;
    }
  }

  /** Blue, d1, d2 fires 10*d1 + d2 and leaves the machine disarmed,
      whatever code it held. */
  lemma {:induction false} BlueTwoDigits(code: int, d1: Digit, d2: Digit)
    ensures Run(HksInitial, code, [KBlue, KDigit(d1), KDigit(d2)]) == (HksInitial, 10 * d1 + d2, [10 * d1 + d2])
  {
    assert [KDigit(d2)] + [] == [KDigit(d2)] && [10 * d1 + d2] + [] == [10 * d1 + d2];
    assert Step(HksBlue1, d1, KDigit(d2)) == KeyStep(HksInitial, 10 * d1 + d2, End, Some(10 * d1 + d2));
    RunCons(HksBlue1, d1, KDigit(d2), []);
    assert Step(HksBlue, code, KDigit(d1)) == KeyStep(HksBlue1, d1, Continue, None);
    assert [KDigit(d1)] + [KDigit(d2)] == [KDigit(d1), KDigit(d2)];
    RunCons(HksBlue, code, KDigit(d1), [KDigit(d2)]);
    assert [KBlue] + [KDigit(d1), KDigit(d2)] == [KBlue, KDigit(d1), KDigit(d2)];
    RunCons(HksInitial, code, KBlue, [KDigit(d1), KDigit(d2)]);
  }

  /** Blue, d1, Ok fires d1. */
  lemma {:induction false} BlueDigitOk(code: int, d1: Digit)
    ensures Run(HksInitial, code, [KBlue, KDigit(d1), KOk]) == (HksInitial, d1, [d1])
  {
    assert [KOk] + [] == [KOk] && [d1] + [] == [d1];
    assert Step(HksBlue1, d1, KOk) == KeyStep(HksInitial, d1, End, Some(d1));
    RunCons(HksBlue1, d1, KOk, []);
    assert Step(HksBlue, code, KDigit(d1)) == KeyStep(HksBlue1, d1, Continue, None);
    assert [KDigit(d1)] + [KOk] == [KDigit(d1), KOk];
    RunCons(HksBlue, code, KDigit(d1), [KOk]);
    assert [KBlue] + [KDigit(d1), KOk] == [KBlue, KDigit(d1), KOk];
    RunCons(HksInitial, code, KBlue, [KDigit(d1), KOk]);
  }

  /** Red, d fires 100 + d. */
  lemma {:induction false} RedDigit(code: int, d: Digit)
    ensures Run(HksInitial, code, [KRed, KDigit(d)]) == (HksInitial, 100 + d, [100 + d])
  {
    assert [KDigit(d)] + [] == [KDigit(d)] && [100 + d] + [] == [100 + d];
    assert Step(HksRed, code, KDigit(d)) == KeyStep(HksInitial, 100 + d, End, Some(100 + d));
    RunCons(HksRed, code, KDigit(d), []);
    assert Step(HksInitial, code, KRed) == KeyStep(HksRed, code, Continue, None);
    assert [KRed] + [KDigit(d)] == [KRed, KDigit(d)];
    RunCons(HksInitial, code, KRed, [KDigit(d)]);
  }

  /** A code fired from a reachable state is 0..99 after blue and
      100..109 after red. */
  lemma FiredRange(state: HotkeyState, code: int, key: Key)
    requires state == HksBlue1 ==> 0 <= code <= 9
    ensures var r := Step(state, code, key);
      r.fired.Some? ==>
        (state == HksBlue1 ==> 0 <= r.fired.value <= 99) &&
        (state == HksRed ==> 100 <= r.fired.value <= 109)
  {
  }

  // ---------------------------------------------------------------------
  // HandleHotkey (softhddevice-drm.cpp:902-955)

  /** The plugin's audio settings (softhddevice-drm.cpp:70-73):
      `ConfigVideoAudioDelay`, `ConfigAudioPassthrough`,
      `AudioPassthroughState` and `ConfigAudioDownmix`. */
  datatype Settings = Settings(audioDelay: int, passthroughMask: int, passthroughState: int, downmix: int)

  /** What a hot-key does to the settings: 10 and 11 switch pass-through
      off and on, 12 toggles it, 13 and 14 move the audio delay by 10 ms,
      15 toggles the downmix; every other code is only logged. */
  function ApplyHotkey(s: Settings, code: int): (r: Settings)
    ensures r.passthroughMask == s.passthroughMask
    ensures code == 10 ==> r == s.(passthroughState := 0)
    ensures code == 11 ==> r == s.(passthroughState := 1)
    ensures code == 12 ==> r == s.(passthroughState := r.passthroughState) &&
                           (r.passthroughState == 0 <==> s.passthroughState == 1)
    ensures code == 12 && (s.passthroughState == 0 || s.passthroughState == 1) ==>
      r.passthroughState == 1 - s.passthroughState
    ensures code == 13 ==> r == s.(audioDelay := s.audioDelay - 10)
    ensures code == 14 ==> r == s.(audioDelay := s.audioDelay + 10)
    ensures code == 15 ==> r.downmix != s.downmix && r == s.(downmix := r.downmix)
    ensures !(10 <= code <= 15) ==> r == s
  {
    if code == 10 then s.(passthroughState := 0)
    else if code == 11 then s.(passthroughState := 1)
    else if code == 12 then s.(passthroughState := XorOne(s.passthroughState))
    else if code == 13 then s.(audioDelay := s.audioDelay - 10)
    else if code == 14 then s.(audioDelay := s.audioDelay + 10)
    else if code == 15 then s.(downmix := XorOne(s.downmix))
    else s
  }

  /** The mask handed to the codec for a pass-through state. */
  function CodecMaskFor(s: Settings): int
  {
    if s.passthroughState != 0 then s.passthroughMask else 0
  }

  /** Hot-keys 12 and 15 undo themselves. */
  lemma {:induction false} TogglesUndo(s: Settings)
    ensures ApplyHotkey(ApplyHotkey(s, 12), 12) == s
    ensures ApplyHotkey(ApplyHotkey(s, 15), 15) == s
  {
    XorOneTwice(s.passthroughState);
    XorOneTwice(s.downmix);
  }

  /** Pressing 13 and 14 (in either order) leaves the delay where it was. */
  lemma DelayStepsCancel(s: Settings)
    ensures ApplyHotkey(ApplyHotkey(s, 13), 14) == s
    ensures ApplyHotkey(ApplyHotkey(s, 14), 13) == s
  {
  }

  /** The plugin's file-level settings and the components its hot-keys
      reach: the codec's pass-through/downmix statics and the renderer's
      audio delay. */
  class PluginConfig {
    var audioDelay: int
    var passthroughMask: int
    var passthroughState: int
    var downmix: int
    const codec: CodecSettings
    const render: VideoRender

    constructor (codec: CodecSettings, render: VideoRender)
      ensures this.codec == codec && this.render == render
      ensures Snapshot() == Settings(0, 0, 0, 0)
    {
      this.codec := codec;
      this.render := render;
      audioDelay, passthroughMask, passthroughState, downmix := 0, 0, 0, 0;
    }

    function Snapshot(): Settings
      reads this`audioDelay, this`passthroughMask, this`passthroughState, this`downmix
    {
      Settings(audioDelay, passthroughMask, passthroughState, downmix)
    }

    /** What hot-key `code` does, between the state before and after it:
        the settings change as ApplyHotkey says and the changed value is
        passed on, to the codec for pass-through and downmix, to the
        renderer for the audio delay; the rest of the codec and renderer
        settings stay. */
    twostate predicate HotkeyHandled(code: int)
      reads this, codec, render
    {
      Snapshot() == ApplyHotkey(old(Snapshot()), code) &&
      (10 <= code <= 12 ==> codec.passthrough == PassthroughBits(CodecMaskFor(Snapshot()))) &&
      (13 <= code <= 14 ==> render.audioDelay == audioDelay) &&
      (code == 15 ==> codec.downmix == DownmixAfter(old(codec.downmix), downmix)) &&
      (!(10 <= code <= 12) ==> codec.passthrough == old(codec.passthrough)) &&
      (code != 15 ==> codec.downmix == old(codec.downmix)) &&
      (!(13 <= code <= 14) ==> render.audioDelay == old(render.audioDelay))
    }

    /** HandleHotkey: the settings, the codec and the renderer change as
        HotkeyHandled says. */
    method HandleHotkey(code: int)
      modifies this`audioDelay, this`passthroughState, this`downmix, codec, render`audioDelay
      ensures HotkeyHandled(code)
    {
      if code == 10 {
        passthroughState := 0;
        codec.SetAudioPassthrough(0);
      } else if code == 11 {
        passthroughState := 1;
        codec.SetAudioPassthrough(passthroughMask);
      } else if code == 12 {
        passthroughState := XorOne(passthroughState);
        if passthroughState != 0 {
          codec.SetAudioPassthrough(passthroughMask);
        } else {
          codec.SetAudioPassthrough(0);
        }
      } else if code == 13 {
        audioDelay := audioDelay - 10;
        render.VideoSetAudioDelay(audioDelay);
      } else if code == 14 {
        audioDelay := audioDelay + 10;
        render.VideoSetAudioDelay(audioDelay);
      } else if code == 15 {
        downmix := XorOne(downmix);
        codec.SetAudioDownmix(downmix);
      }
    }

    // -------------------------------------------------------------------
    // The AudioPassthrough setting: cMenuSetupSoft::Store (768-778) and
    // cPluginSoftHdDevice::SetupParse (1718-1727)

    /** Store: the mask is rebuilt from the menu's three check boxes, the
        state taken from the menu's default, and the setting saved as
        +mask when enabled and -mask when disabled; returns the saved
        value. */
    method StorePassthrough(pcm: bool, ac3: bool, eac3: bool, menuDefault: int) returns (saved: int)
      modifies this`passthroughMask, this`passthroughState, codec`passthrough
      ensures passthroughMask == MenuMask(pcm, ac3, eac3) && passthroughState == menuDefault
      ensures saved == EncodePassthrough(menuDefault != 0, passthroughMask)
      ensures codec.passthrough == PassthroughBits(CodecMaskFor(Snapshot()))
    {
      passthroughMask := MenuMask(pcm, ac3, eac3);
      passthroughState := menuDefault;
      if passthroughState != 0 {
        saved := passthroughMask;
        codec.SetAudioPassthrough(passthroughMask);
      } else {
        saved := -passthroughMask;
        codec.SetAudioPassthrough(0);
      }
    }

    /** SetupParse: `value` is the `atoi` of the saved text. */
    method ParsePassthrough(value: int)
      requires IsInt32(value)
      modifies this`passthroughMask, this`passthroughState, codec`passthrough
      ensures PassthroughSetting(passthroughState != 0, passthroughMask) == DecodePassthrough(value)
      ensures passthroughState == 0 || passthroughState == 1
      ensures codec.passthrough == PassthroughBits(CodecMaskFor(Snapshot()))
    {
      passthroughState := if value > 0 then 1 else 0;
      passthroughMask := Abs32(value);
      if passthroughState != 0 {
        codec.SetAudioPassthrough(passthroughMask);
      } else {
        codec.SetAudioPassthrough(0);
      }
    }
  }

  /** `cSoftHdMenu`, reduced to its hot-key state; the plugin settings its
      hot-keys act on are reached through `config`. */
  class HotkeyMenu {
    var hotkeyState: HotkeyState
    var hotkeyCode: int
    const config: PluginConfig

    /** The constructor arms nothing; `HotkeyCode` is left unset by the
        source and starts at 0 here. */
    constructor (config: PluginConfig)
      ensures hotkeyState == HksInitial && this.config == config
    {
      hotkeyState := HksInitial;
      hotkeyCode := 0;
      this.config := config;
    }

    /** ProcessKey: the state, code and reply follow Step, and a fired
        hot-key changes the settings, the codec and the renderer as
        HandleHotkey does; a key that fires nothing
        leaves the settings, the codec and the renderer alone. */
    method ProcessKey(key: Key) returns (reply: KeyReply)
      modifies this`hotkeyState, this`hotkeyCode
      modifies config`audioDelay, config`passthroughState, config`downmix, config.codec, config.render`audioDelay
      ensures var s := Step(old(hotkeyState), old(hotkeyCode), key);
        hotkeyState == s.state && hotkeyCode == s.code && reply == s.reply &&
        (s.fired.Some? ==> config.HotkeyHandled(s.fired.value)) &&
        (s.fired.None? ==>
           config.Snapshot() == old(config.Snapshot()) &&
           config.codec.passthrough == old(config.codec.passthrough) &&
           config.codec.downmix == old(config.codec.downmix) &&
           config.render.audioDelay == old(config.render.audioDelay))
    {
      match hotkeyState {
      case HksInitial =>
        if key == KBlue {
          hotkeyState := HksBlue;
          return Continue;
        }
        if key == KRed {
          hotkeyState := HksRed;
          return Continue;
        }
      case HksBlue =>
        if key.KDigit? {
          hotkeyCode := key.d;
          hotkeyState := HksBlue1;
          return Continue;
        }
        hotkeyState := HksInitial;
      case HksBlue1 =>
        if key.KDigit? {
          hotkeyCode := hotkeyCode * 10 + key.d;
          hotkeyState := HksInitial;
          config.HandleHotkey(hotkeyCode);
          return End;
        }
        if key == KOk {
          hotkeyState := HksInitial;
          config.HandleHotkey(hotkeyCode);
          return End;
        }
        hotkeyState := HksInitial;
        // no break: control falls into the HksRed case
        reply := RedCase(key);
        if reply == End {
          return;
        }
      case HksRed =>
        reply := RedCase(key);
        if reply == End {
          return;
        }
      }
      // the standard menu handling, cOsdMenu::ProcessKey
      reply := Standard;
    }

    /** The body of the `HksRed` case. */
    method RedCase(key: Key) returns (reply: KeyReply)
      modifies this`hotkeyState, this`hotkeyCode
      modifies config`audioDelay, config`passthroughState, config`downmix, config.codec, config.render`audioDelay
      ensures var s := RedStep(old(hotkeyCode), key);
        hotkeyState == s.state && hotkeyCode == s.code && (reply == End <==> s.reply == End) &&
        (s.fired.Some? ==> config.HotkeyHandled(s.fired.value)) &&
        (s.fired.None? ==>
           config.Snapshot() == old(config.Snapshot()) &&
           config.codec.passthrough == old(config.codec.passthrough) &&
           config.codec.downmix == old(config.codec.downmix) &&
           config.render.audioDelay == old(config.render.audioDelay))
    {
      if key.KDigit? {
        hotkeyCode := 100 + key.d;
        hotkeyState := HksInitial;
        config.HandleHotkey(hotkeyCode);
        return End;
      }
      hotkeyState := HksInitial;
      reply := Standard;
    }
  }

  /** The mask `(PCM ? CodecPCM : 0) | (AC3 ? CodecAC3 : 0) | (EAC3 ?
      CodecEAC3 : 0)`: one bit per check box, nothing the codec would
      strip. */
  function MenuMask(pcm: bool, ac3: bool, eac3: bool): (mask: int)
    ensures 0 <= mask <= 13
    ensures PassthroughBits(mask) == mask
    ensures Bit(mask, 0) == (if pcm then 1 else 0)
    ensures Bit(mask, 2) == (if ac3 then 1 else 0)
    ensures Bit(mask, 3) == (if eac3 then 1 else 0)
    ensures mask == 0 <==> !pcm && !ac3 && !eac3
  {
    assert Pow2(1) == 2 && Pow2(2) == 4 && Pow2(3) == 8;
    (if pcm then CodecPcm else 0) + (if ac3 then CodecAc3 else 0) + (if eac3 then CodecEac3 else 0)
  }

  /** The saved form: the mask, negated when pass-through is off. */
  function EncodePassthrough(enabled: bool, mask: int): (v: int)
    ensures mask > 0 ==> (v > 0 <==> enabled)
    ensures v == mask || v == -mask
  {
    if enabled then mask else -mask
  }

  datatype PassthroughSetting = PassthroughSetting(enabled: bool, mask: int)

  /** The parsed form: enabled when positive, the mask its absolute value. */
  function DecodePassthrough(v: int): (r: PassthroughSetting)
    requires IsInt32(v)
    ensures r.enabled <==> v > 0
    ensures v != -TwoPow31 ==> r.mask >= 0 && (r.mask == v || r.mask == -v)
  {
    PassthroughSetting(v > 0, Abs32(v))
  }

  /** Saving and parsing give back the state and the mask, for every
      non-empty mask the menu can build. */
  lemma PassthroughRoundTrip(pcm: bool, ac3: bool, eac3: bool, enabled: bool)
    requires pcm || ac3 || eac3
    ensures var mask := MenuMask(pcm, ac3, eac3);
      DecodePassthrough(EncodePassthrough(enabled, mask)) == PassthroughSetting(enabled, mask)
  {
  }

  /** With no format checked the saved value is 0, which parses back as
      "off" even when the menu said "on": pass-through cannot be enabled
      without a configured format. */
  lemma EmptyMaskParsesDisabled(enabled: bool)
    ensures DecodePassthrough(EncodePassthrough(enabled, MenuMask(false, false, false))) ==
      PassthroughSetting(false, 0)
  {
  }
}
