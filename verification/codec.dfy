/** The bookkeeping of codec.c around the ffmpeg decoders: the pass-through
    and downmix settings, the audio clock kept in 90 kHz ticks, the rule that
    decides whether a decoded video frame goes on to the renderer, and the
    `get_format` callback. The decoders themselves are not modelled: what
    they return is a parameter of each step. */
module Codec {
  import opened Common
  import opened VideoTypes
  import opened VideoHelpers

  /** The pass-through flags `CodecPCM`, `CodecAC3` and `CodecEAC3`. */
  const CodecPcm: int := 1
  const CodecAc3: int := 4
  const CodecEac3: int := 8

  /** `AVERROR(EAGAIN)` on Linux: the decoder wants its output read first. */
  const ErrAgain: int := -11

  // ---------------------------------------------------------------------
  // CodecSetAudioPassthrough / CodecSetAudioDownmix (codec.c:478-498)

  /** `mask & (CodecPCM | CodecAC3 | CodecEAC3)`: bits 0, 2 and 3 of the
      mask survive, every other bit is cleared. */
  function PassthroughBits(mask: int): (r: int)
    ensures 0 <= r < 16
    ensures Bit(r, 0) == Bit(mask, 0) && Bit(r, 1) == 0
    ensures Bit(r, 2) == Bit(mask, 2) && Bit(r, 3) == Bit(mask, 3)
  {
    assert Pow2(1) == 2 && Pow2(2) == 4 && Pow2(3) == 8;
    Bit(mask, 0) * CodecPcm + Bit(mask, 2) * CodecAc3 + Bit(mask, 3) * CodecEac3
  }

  /** The downmix flag after `CodecSetAudioDownmix(onoff)`: -1 flips bit 0,
      any other value is stored as given. */
  function DownmixAfter(current: int, onoff: int): (r: int)
    ensures onoff != -1 ==> r == onoff
    ensures onoff == -1 ==> Bit(r, 0) != Bit(current, 0) && r / 2 == current / 2
  {
    if onoff == -1 then XorOne(current) else onoff
  }

  /** Toggling twice gives the flag back. */
  lemma DownmixToggleTwice(current: int)
    ensures DownmixAfter(DownmixAfter(current, -1), -1) == current
  {
    XorOneTwice(current);
  }

  /** The file-level settings `CodecPassthrough` and `CodecDownmix`. */
  class CodecSettings {
    var passthrough: int
    var downmix: int

    /** Both statics start out zero. */
    constructor ()
      ensures passthrough == 0 && downmix == 0
    {
      passthrough := 0;
      downmix := 0;
    }

    method SetAudioPassthrough(mask: int)
      modifies this`passthrough
      ensures passthrough == PassthroughBits(mask)
    {
      passthrough := PassthroughBits(mask);
    }

    method SetAudioDownmix(onoff: int)
      modifies this`downmix
      ensures downmix == DownmixAfter(old(downmix), onoff)
    {
      if onoff == -1 {
        downmix := XorOne(downmix);
        return;
      }
      downmix := onoff;
    }
  }

  // ---------------------------------------------------------------------
  // CodecAudioDecode (codec.c:510-555)

  /** The fields of a decoded audio `AVFrame` the clock reads. */
  datatype AudioFrame = AudioFrame(pts: int, nbSamples: int, sampleRate: int)

  /** Length of a frame in 90 kHz ticks, `nb_samples * 1000 * 90 /
      sample_rate` in 32-bit `int` arithmetic: the product wraps, the
      quotient truncates toward zero. */
  function Ticks(nbSamples: int, sampleRate: int): (t: int)
    requires sampleRate != 0
    ensures 0 <= nbSamples && nbSamples * 90000 < TwoPow31 && sampleRate > 0 ==>
      0 <= t && t * sampleRate <= nbSamples * 90000 < (t + 1) * sampleRate
  {
    CDiv(ToInt32(nbSamples * 1000 * 90), sampleRate)
  }

  /** Where one decode call leaves the frame. */
  datatype AudioOutcome =
    | Latm                          // decoder returned EAGAIN
    | BadFrame                      // decoder returned a negative count
    | NoFrame                       // nothing decoded
    | Enqueued(frame: AudioFrame)   // handed to AudioEnqueue

  datatype AudioStep = AudioStep(outcome: AudioOutcome, lastPts: int)

  /** One call: `n` is what the decoder returned for a packet of `size`
      bytes and `gotFrame` whether it produced `frame`. A frame with a pts
      sets the clock; one without is stamped with the clock advanced by its
      length. The clock moves only when a frame is handed on. */
  function AudioDecodeStep(lastPts: int, n: int, size: int, gotFrame: bool, frame: AudioFrame): (s: AudioStep)
    requires gotFrame && frame.pts == NoPts ==> frame.sampleRate != 0
    ensures s.outcome == Latm <==> n != size && n == ErrAgain
    ensures s.outcome == BadFrame <==> n != size && n != ErrAgain && n < 0
    ensures s.outcome.Enqueued? <==> gotFrame && (n == size || n >= 0)
    ensures !s.outcome.Enqueued? ==> s.lastPts == lastPts
    ensures s.outcome.Enqueued? ==>
      s.lastPts == s.outcome.frame.pts &&
      s.outcome.frame.nbSamples == frame.nbSamples && s.outcome.frame.sampleRate == frame.sampleRate &&
      (frame.pts != NoPts ==> s.outcome.frame == frame) &&
      (frame.pts == NoPts ==> s.lastPts == lastPts + Ticks(frame.nbSamples, frame.sampleRate))
  {
    if n != size && n == ErrAgain then AudioStep(Latm, lastPts)
    else if n != size && n < 0 then AudioStep(BadFrame, lastPts)
    else if !gotFrame then AudioStep(NoFrame, lastPts)
    else if frame.pts != NoPts then AudioStep(Enqueued(frame), frame.pts)
    else
      var pts := lastPts + Ticks(frame.nbSamples, frame.sampleRate);
      AudioStep(Enqueued(frame.(pts := pts)), pts)
  }

  /** The decoder state `struct _audio_decoder_` reduced to its clock. */
  class AudioDecoder {
    var lastPts: int

    constructor ()
      ensures lastPts == 0
    {
      lastPts := 0;
    }

    /** CodecAudioDecode with the decoder's reply as parameters; returns
        what happened to the frame. */
    method AudioDecode(n: int, size: int, gotFrame: bool, frame: AudioFrame) returns (o: AudioOutcome)
      requires gotFrame && frame.pts == NoPts ==> frame.sampleRate != 0
      modifies this`lastPts
      ensures AudioStep(o, lastPts) == AudioDecodeStep(old(lastPts), n, size, gotFrame, frame)
    {
      if n != size {
        if n == ErrAgain {
          return Latm;
        }
        if n < 0 {
          return BadFrame;
        }
      }
      if !gotFrame {
        return NoFrame;
      }
      var f := frame;
      if f.pts != NoPts {
        lastPts := f.pts;
      } else {
        f := f.(pts := lastPts + Ticks(f.nbSamples, f.sampleRate));
        lastPts := f.pts;
      }
      o := Enqueued(f);
    }
  }

  /** The decoder's reply to one CodecAudioDecode call. */
  datatype DecodeCall = DecodeCall(n: int, size: int, gotFrame: bool, frame: AudioFrame)

  /** A reply the model can follow: a frame without a pts is stamped by a
      division by its sample rate, which must not be 0. */
  predicate Callable(c: DecodeCall)
  {
    c.gotFrame && c.frame.pts == NoPts ==> c.frame.sampleRate != 0
  }

  /** The clock after a run of decode calls. */
  function ClockAfter(lastPts: int, calls: seq<DecodeCall>): int
    requires forall i :: 0 <= i < |calls| ==> Callable(calls[i])
    decreases |calls|
  {
    if calls == [] then lastPts
    else
      var c := calls[0];
      assert Callable(c);
      assert forall i :: 0 <= i < |calls[1..]| ==> calls[1..][i] == calls[i + 1];
      ClockAfter(AudioDecodeStep(lastPts, c.n, c.size, c.gotFrame, c.frame).lastPts, calls[1..])
  }

  /** A run of frames without timestamps, each decoded from a whole packet,
      each shorter than the 32-bit product overflows. */
  predicate Untimed(calls: seq<DecodeCall>)
  {
    forall i :: 0 <= i < |calls| ==>
      calls[i].n == calls[i].size && calls[i].gotFrame && calls[i].frame.pts == NoPts &&
      calls[i].frame.sampleRate > 0 && 0 <= calls[i].frame.nbSamples &&
      calls[i].frame.nbSamples * 90000 < TwoPow31
  }

  function TotalTicks(calls: seq<DecodeCall>): int
    requires Untimed(calls)
    decreases |calls|
  {
    if calls == [] then 0
    else Ticks(calls[0].frame.nbSamples, calls[0].frame.sampleRate) + TotalTicks(calls[1..])
  }

  /** Over frames without timestamps the clock advances by the sum of their
      lengths and never goes backwards. */
  lemma {:induction false} UntimedRunAdvances(lastPts: int, calls: seq<DecodeCall>)
    requires Untimed(calls)
    ensures ClockAfter(lastPts, calls) == lastPts + TotalTicks(calls)
    ensures ClockAfter(lastPts, calls) >= lastPts
    decreases |calls|
  {
    if calls != [] {
      var c := calls[0];
      var next := AudioDecodeStep(lastPts, c.n, c.size, c.gotFrame, c.frame).lastPts;
      assert Untimed(calls[1..]) by {
        forall i | 0 <= i < |calls[1..]|
          ensures calls[1..][i] == calls[i + 1]
        {
        }
      }
      UntimedRunAdvances(next, calls[1..]);
    }
  }

  /** A frame that carries its own pts resets the clock to it, whatever the
      clock said before. */
  lemma TimedFrameResetsClock(a: int, b: int, n: int, size: int, frame: AudioFrame)
    requires frame.pts != NoPts && (n == size || n >= 0)
    ensures AudioDecodeStep(a, n, size, true, frame).lastPts == frame.pts
    ensures AudioDecodeStep(a, n, size, true, frame) == AudioDecodeStep(b, n, size, true, frame)
  {
  }

  // ---------------------------------------------------------------------
  // CodecVideoDecode (codec.c:230-321)

  /** What becomes of the frame allocated for one video decode call. */
  datatype VideoFate = ToRender | Freed

  /** One decode call: `dataNull` says the packet is a flush packet (NULL
      data), `retIn` and `retOut` are what `avcodec_send_packet` and
      `avcodec_receive_frame` returned, `frameWidth` is the received frame's
      width and `ctxWidth` the codec context's. The frame goes to
      `VideoRenderFrame` or is freed; the result is 0 exactly when the
      packet was refused with EAGAIN and must be sent again. `got_frame`
      is declared without a value and set only when a frame was received;
      `staleGotFrame` is whatever it held before. */
  method VideoDecode(dataNull: bool, retIn: int, retOut: int, frameWidth: int, ctxWidth: int, staleGotFrame: bool)
    returns (fate: VideoFate, ret: int)
    ensures fate == ToRender <==>
      (retOut == 0 || staleGotFrame) && frameWidth != 0 && !dataNull && frameWidth == ctxWidth
    ensures retOut != 0 && frameWidth == 0 ==> fate == Freed
    ensures ret == 0 <==> retIn == ErrAgain
    ensures ret == 0 || ret == 1
  {
    var capDelay := false;
    if dataNull {
      capDelay := true;
    }
    var gotFrame := staleGotFrame;
    if retOut == 0 {
      gotFrame := true;
    }
    if gotFrame && frameWidth != 0 && !capDelay && frameWidth == ctxWidth {
      fate := ToRender;
    } else {
      fate := Freed;
    }
    if retIn == ErrAgain {
      return fate, 0;
    }
    ret := 1;
  }

  // ---------------------------------------------------------------------
  // Codec_get_format (codec.c:100-113)

  /** The video decoder record, reduced to the flag the callback sets. */
  class VideoDecoder {
    var getFormatDone: bool

    constructor ()
      ensures !getFormatDone
    {
      getFormatDone := false;
    }

    /** ffmpeg's `get_format` callback: records that it ran and defers the
        choice to Video_get_format. */
    method GetFormatCallback(offered: seq<PixelFormat>) returns (r: FormatChoice)
      modifies this`getFormatDone
      ensures getFormatDone
      ensures r == GetFormat(offered)
    {
      getFormatDone := true;
      r := GetFormat(offered);
    }
  }
}
